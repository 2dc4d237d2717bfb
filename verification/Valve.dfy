// The pressure valve (src/sync/mod.rs: `press_at_pass`, `shed_keeps`, `headroom`): both arms
// release the keeps longest silent, by stamp and then by address.

module Valve {
  import opened Basics
  import opened Desire

  const CAPACITY_HEADROOM := 4

  /** Slots left free below a limit; never the whole table. */
  function Headroom(limit: nat): nat {
    var all := if limit == 0 then 0 else limit - 1;
    if CAPACITY_HEADROOM < all then CAPACITY_HEADROOM else all
  }

  /** An address without a sighting counts as silent since boot. */
  function StampOf(ports: Memory, m: Mac): Stamp {
    if m in ports then ports[m].at else 0
  }

  predicate Before(ports: Memory, m: Mac, n: Mac) {
    StampOf(ports, m) < StampOf(ports, n) || (StampOf(ports, m) == StampOf(ports, n) && Key(m) < Key(n))
  }

  lemma BeforeIsTotal(ports: Memory, m: Mac, n: Mac)
    ensures m == n || Before(ports, m, n) || Before(ports, n, m)
    ensures !(Before(ports, m, n) && Before(ports, n, m))
  {
    if Key(m) == Key(n) {
      KeyIsInjective(m, n);
    }
  }

  ghost predicate IsFirst(ports: Memory, pool: set<Mac>, m: Mac) {
    m in pool && forall n :: n in pool && n != m ==> Before(ports, m, n)
  }

  method First(ports: Memory, pool: set<Mac>) returns (m: Mac)
    requires pool != {}
    ensures IsFirst(ports, pool, m)
  {
    hide StampOf, Key;
    m :| m in pool;
    var todo := pool - {m};
    while todo != {}
      invariant todo <= pool && m in pool && m !in todo
      invariant forall n :: n in pool && n !in todo && n != m ==> Before(ports, m, n)
      decreases todo
    {
      var n :| n in todo;
      todo := todo - {n};
      BeforeIsTotal(ports, m, n);
      if Before(ports, n, m) {
        forall x | x in pool && x !in todo && x != n
          ensures Before(ports, n, x)
        {
          BeforeIsTransitive(ports, n, m, x);
        }
        m := n;
      }
    }
  }

  lemma BeforeIsTransitive(ports: Memory, a: Mac, b: Mac, c: Mac)
    requires Before(ports, a, b)
    ensures Before(ports, b, c) || c == b ==> Before(ports, a, c)
  {
  }

  /** The pool in order of silence, the longest silent first. */
  ghost predicate IsSorted(ports: Memory, pool: set<Mac>, order: seq<Mac>) {
    && (forall m :: m in order <==> m in pool)
    && (forall j, k :: 0 <= j < k < |order| ==> Before(ports, order[j], order[k]))
  }

  method BySilence(ports: Memory, pool: set<Mac>) returns (order: seq<Mac>)
    ensures IsSorted(ports, pool, order) && |order| == |pool|
  {
    hide Before;
    order := [];
    var todo := pool;
    while todo != {}
      invariant todo <= pool && IsSorted(ports, pool - todo, order) && |order| + |todo| == |pool|
      invariant forall m, n :: m in order && n in todo ==> Before(ports, m, n)
      decreases todo
    {
      var m := First(ports, todo);
      order, todo := order + [m], todo - {m};
    }
    assert pool - todo == pool;
  }

  // ----- a longest-silent prefix, whoever computes it

  ghost predicate IsLongestSilent(ports: Memory, pool: set<Mac>, released: set<Mac>) {
    released <= pool && forall m, n :: m in released && n in pool && n !in released ==> Before(ports, m, n)
  }

  /** Two such sets are nested; so their size says which they are. */
  lemma LongestSilentNest(ports: Memory, pool: set<Mac>, r: set<Mac>, s: set<Mac>)
    requires IsLongestSilent(ports, pool, r) && IsLongestSilent(ports, pool, s) && |r| <= |s|
    ensures r <= s
    ensures |r| == |s| ==> r == s
  {
    if m :| m in r && m !in s {
      if n :| n in s && n !in r {
        BeforeIsTotal(ports, m, n);
      } else {
        SubsetSize(s, r - {m});
      }
    }
    if |r| == |s| {
      assert s == r + (s - r);
    }
  }

  function Min(a: nat, b: nat): nat {
    if a < b then a else b
  }

  function PrefixSet(order: seq<Mac>, n: nat): set<Mac>
    requires n <= |order|
  {
    set k | 0 <= k < n :: order[k]
  }

  lemma PrefixIsLongestSilent(ports: Memory, pool: set<Mac>, order: seq<Mac>, n: nat)
    requires IsSorted(ports, pool, order) && n <= |order|
    ensures |PrefixSet(order, n)| == n && IsLongestSilent(ports, pool, PrefixSet(order, n))
  {
    hide Before;
    PrefixSize(ports, pool, order, n);
    forall m, x | m in PrefixSet(order, n) && x in pool && x !in PrefixSet(order, n)
      ensures Before(ports, m, x)
    {
      var j :| 0 <= j < n && order[j] == m;
      var k :| 0 <= k < |order| && order[k] == x;
      assert k >= n;
    }
  }

  lemma {:induction false} PrefixSize(ports: Memory, pool: set<Mac>, order: seq<Mac>, n: nat)
    requires IsSorted(ports, pool, order) && n <= |order|
    ensures |PrefixSet(order, n)| == n
  {
    hide Before;
    if n > 0 {
      PrefixSize(ports, pool, order, n - 1);
      BeforeIsTotal(ports, order[n - 1], order[n - 1]);
      NextIsNew(order, n - 1);
    }
  }

  lemma PrefixGrows(order: seq<Mac>, n: nat)
    requires n < |order|
    ensures PrefixSet(order, 0) == {}
    ensures PrefixSet(order, n + 1) == PrefixSet(order, n) + {order[n]}
  {
  }

  lemma NextIsNew(order: seq<Mac>, n: nat)
    requires n < |order| && forall j :: 0 <= j < n ==> order[j] != order[n]
    ensures |PrefixSet(order, n + 1)| == |PrefixSet(order, n)| + 1
  {
    PrefixGrows(order, n);
    assert order[n] !in PrefixSet(order, n);
  }

  /** The longest silent of a pool, as many as asked for where there are as many. */
  ghost function Released(ports: Memory, pool: set<Mac>, n: nat): (r: set<Mac>)
    ensures IsLongestSilent(ports, pool, r) && |r| == Min(n, |pool|)
    ensures forall s :: IsLongestSilent(ports, pool, s) && |s| == |r| ==> s == r
  {
    LongestSilentExists(ports, pool, Min(n, |pool|));
    var r :| IsLongestSilent(ports, pool, r) && |r| == Min(n, |pool|);
    assert forall s :: IsLongestSilent(ports, pool, s) && |s| == |r| ==> s == r by {
      forall s | IsLongestSilent(ports, pool, s) && |s| == |r|
        ensures s == r
      {
        LongestSilentNest(ports, pool, s, r);
      }
    }
    r
  }

  lemma {:induction false} LongestSilentExists(ports: Memory, pool: set<Mac>, n: nat)
    requires n <= |pool|
    ensures exists r :: IsLongestSilent(ports, pool, r) && |r| == n
    decreases n
  {
    hide IsFirst, IsLongestSilent;
    if n == 0 {
      NoneReleased(ports, pool);
    } else {
      LongestSilentExists(ports, pool, n - 1);
      var r :| IsLongestSilent(ports, pool, r) && |r| == n - 1;
      SomeLeft(ports, pool, r);
      FirstExists(ports, pool - r);
      var m :| IsFirst(ports, pool - r, m);
      OneMoreSilent(ports, pool, r, m);
    }
  }

  lemma NoneReleased(ports: Memory, pool: set<Mac>)
    ensures exists r :: IsLongestSilent(ports, pool, r) && |r| == 0
  {
    assert IsLongestSilent(ports, pool, {});
  }

  lemma SomeLeft(ports: Memory, pool: set<Mac>, r: set<Mac>)
    requires IsLongestSilent(ports, pool, r) && |r| < |pool|
    ensures pool - r != {}
  {
    assert pool == r + (pool - r);
  }

  lemma OneMoreSilent(ports: Memory, pool: set<Mac>, r: set<Mac>, m: Mac)
    requires IsLongestSilent(ports, pool, r) && IsFirst(ports, pool - r, m)
    ensures IsLongestSilent(ports, pool, r + {m}) && |r + {m}| == |r| + 1
  {
    hide Before;
  }

  lemma {:induction false} FirstExists(ports: Memory, pool: set<Mac>)
    requires pool != {}
    ensures exists m :: IsFirst(ports, pool, m)
    decreases pool
  {
    var m :| m in pool;
    if pool == {m} {
      assert IsFirst(ports, pool, m);
    } else {
      assert pool - {m} != {};
      FirstExists(ports, pool - {m});
      var n :| IsFirst(ports, pool - {m}, n);
      BeforeIsTotal(ports, m, n);
      if Before(ports, m, n) {
        forall x | x in pool && x != m
          ensures Before(ports, m, x)
        {
          BeforeIsTransitive(ports, m, n, x);
        }
        assert IsFirst(ports, pool, m);
      } else {
        assert IsFirst(ports, pool, n);
      }
    }
  }

  /** Those of a pool silent for longer. */
  function Ahead(ports: Memory, pool: set<Mac>, m: Mac): set<Mac> {
    set x | x in pool && Before(ports, x, m)
  }

  /** Who is released is who has fewer before it than are asked for. */
  lemma ReleasedExactly(ports: Memory, pool: set<Mac>, n: nat, m: Mac)
    ensures m in Released(ports, pool, n) <==> m in pool && |Ahead(ports, pool, m)| < n
  {
    hide Before;
    var r := Released(ports, pool, n);
    if m in r {
      forall x | x in Ahead(ports, pool, m)
        ensures x in r - {m}
      {
        BeforeIsTotal(ports, x, m);
      }
      SubsetSize(Ahead(ports, pool, m), r - {m});
    } else if m in pool {
      assert r <= Ahead(ports, pool, m);
      SubsetSize(r, Ahead(ports, pool, m));
    }
  }

  // ----- the pass's arm

  /** How far a list of `occupied` slots is over what the limit leaves. */
  function Excess(limit: nat, occupied: nat): nat {
    var over := occupied + Headroom(limit) - limit;
    if over > 0 then over else 0
  }

  /** Surrenders kept addresses until the limit less its headroom holds, or none is left. */
  method PressAtPass(limit: nat, occupied: nat, want: set<Mac>, kept: set<Mac>, ports: Memory)
    returns (want': set<Mac>, kept': set<Mac>, shed: nat)
    requires kept <= want && |want| <= occupied
    ensures var gone := Released(ports, kept, Excess(limit, occupied));
            want' == want - gone && kept' == kept - gone && shed == |gone|
  {
    hide IsSorted, IsLongestSilent, Before, PrefixSet, Headroom;
    want', kept', shed := want, kept, 0;
    var reserve := Headroom(limit);
    var left := occupied;
    if kept == {} || left + reserve <= limit {
      return;
    }
    var order := BySilence(ports, kept);
    PrefixIsLongestSilent(ports, kept, order, 0);
    PrefixGrows(order, 0);
    while shed < |order| && left + reserve > limit
      invariant shed <= |order| && left == occupied - shed && shed <= Excess(limit, occupied)
      invariant |PrefixSet(order, shed)| == shed && IsLongestSilent(ports, kept, PrefixSet(order, shed))
      invariant want' == want - PrefixSet(order, shed) && kept' == kept - PrefixSet(order, shed)
    {
      PrefixIsLongestSilent(ports, kept, order, shed + 1);
      PrefixGrows(order, shed);
      want', kept' := want' - {order[shed]}, kept' - {order[shed]};
      left, shed := left - 1, shed + 1;
    }
    assert shed == Min(Excess(limit, occupied), |kept|);
    assert PrefixSet(order, shed) == Released(ports, kept, Excess(limit, occupied));
  }

  /** Afterwards the limit holds with room to spare, or no keep is left. */
  lemma PressedEnough(limit: nat, occupied: nat, kept: set<Mac>, ports: Memory)
    ensures var gone := Released(ports, kept, Excess(limit, occupied));
            (gone == {} || occupied - |gone| + Headroom(limit) >= limit) &&
            (occupied - |gone| + Headroom(limit) <= limit || kept - gone == {})
  {
    var gone := Released(ports, kept, Excess(limit, occupied));
    SubsetSize(gone, kept);
  }

  /** More pressure releases more, never other. */
  lemma MorePressure(ports: Memory, pool: set<Mac>, n: nat, n': nat)
    requires n <= n'
    ensures Released(ports, pool, n) <= Released(ports, pool, n')
  {
    LongestSilentNest(ports, pool, Released(ports, pool, n), Released(ports, pool, n'));
  }

  // ----- the batch's arm

  /** The keeps the last pass left and nothing has stamped since. */
  function StillQuiet(quiet: set<Mac>, ports: Memory, passedAt: Stamp): set<Mac> {
    set m | m in quiet && m in ports && ports[m].at < passedAt
  }

  method LongestQuiet(quiet: set<Mac>, ports: Memory, passedAt: Stamp, need: nat) returns (victims: seq<Mac>)
    ensures var gone := Released(ports, StillQuiet(quiet, ports, passedAt), need);
            (set m | m in victims) == gone && |victims| == |gone|
  {
    hide IsSorted, IsLongestSilent, Before;
    var pool := StillQuiet(quiet, ports, passedAt);
    var order := BySilence(ports, pool);
    victims := order[..Min(need, |order|)];
    PrefixIsLongestSilent(ports, pool, order, |victims|);
    assert (set m | m in victims) == PrefixSet(order, |victims|);
  }
}

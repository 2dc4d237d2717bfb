// Values shared by every module: optional values, octets and link-layer addresses.

module Basics {

  datatype Option<+T> = None | Some(value: T)

  /** What a batch asks for: no pass, one some time, one at once. */
  datatype Urgency = Nothing | WhenConvenient | Now

  type Octet = x: int | 0 <= x < 256

  /** A link-layer address, the `[u8; 6]` of the source. */
  datatype Mac = Mac(o0: Octet, o1: Octet, o2: Octet, o3: Octet, o4: Octet, o5: Octet)

  const ZERO_MAC := Mac(0, 0, 0, 0, 0, 0)

  /** The group bit is the low bit of the first octet on the wire. */
  predicate IsUnicast(m: Mac) {
    m.o0 % 2 == 0
  }

  /** Fit for a unicast filter. */
  predicate IsRegisterable(m: Mac) {
    IsUnicast(m) && m != ZERO_MAC
  }

  /** The address as one number: comparing keys is comparing the octets in order. */
  function Key(m: Mac): nat {
    Shifted(Shifted(Shifted(Shifted(Shifted(m.o0, m.o1), m.o2), m.o3), m.o4), m.o5)
  }

  function Shifted(high: nat, low: Octet): nat {
    high * 256 + low
  }

  lemma KeyIsInjective(m: Mac, n: Mac)
    requires Key(m) == Key(n)
    ensures m == n
  {
    var m1, n1 := Shifted(m.o0, m.o1), Shifted(n.o0, n.o1);
    var m2, n2 := Shifted(m1, m.o2), Shifted(n1, n.o2);
    var m3, n3 := Shifted(m2, m.o3), Shifted(n2, n.o3);
    var m4, n4 := Shifted(m3, m.o4), Shifted(n3, n.o4);
    ShiftedIsInjective(m4, m.o5, n4, n.o5);
    ShiftedIsInjective(m3, m.o4, n3, n.o4);
    ShiftedIsInjective(m2, m.o3, n2, n.o3);
    ShiftedIsInjective(m1, m.o2, n1, n.o2);
    ShiftedIsInjective(m.o0, m.o1, n.o0, n.o1);
  }

  lemma ShiftedIsInjective(a: nat, x: Octet, b: nat, y: Octet)
    requires Shifted(a, x) == Shifted(b, y)
    ensures a == b && x == y
  {
  }

  /** The number of elements common to a set and a subset of it, taken apart. */
  lemma SubsetSize<T>(a: set<T>, b: set<T>)
    requires a <= b
    ensures |a| <= |b| && |b - a| == |b| - |a|
  {
    assert b == a + (b - a);
  }
}

// The two pictures of a note, as text and as the sets the ownership protocol speaks of, agree.

module NoteAbstraction {
  import opened Basics
  import T = NoteText
  import O = Ownership

  function NoteOf(text: string): O.Note {
    O.Note(T.Named(T.Finished(text)), T.LineNames(T.Tail(text)))
  }

  /** The same addresses are named. */
  lemma SameNames(text: string)
    ensures NoteOf(text).Names() == T.Named(text)
  {
    hide T.Named, T.LineNames;
    T.TailNames(text);
  }

  lemma {:induction false} SameMissing(text: string, batch: seq<Mac>)
    ensures O.Missing(NoteOf(text), batch) == T.FreshOf(text, batch)
  {
    hide T.Named, T.LineNames;
    SameNames(text);
    if batch != [] {
      SameMissing(text, batch[..|batch| - 1]);
    }
  }

  /** An append to the file is the append of the protocol, torn tail and all. */
  lemma SameAppend(text: string, batch: seq<Mac>)
    ensures NoteOf(T.Appended(text, batch)) == O.Intended(NoteOf(text), batch)
  {
    hide T.Named, T.LineNames, T.FormatMac;
    var missing := T.FreshOf(text, batch);
    SameMissing(text, batch);
    if missing != [] {
      T.AppendedNames(text, batch);
      FinishedHasNoTail(T.Appended(text, batch));
    }
  }

  lemma FinishedHasNoTail(text: string)
    requires T.IsFinished(text)
    ensures NoteOf(text) == O.Note(T.Named(text), None)
  {
    hide T.Named;
    T.FinishedParts(text);
    assert T.LineNames("") == None by {
      assert T.Split("", ':') == [""];
    }
  }

  /** A rewrite puts down exactly the set, in any order. */
  lemma SameRewrite(order: seq<Mac>)
    ensures NoteOf(T.LinesOf(order)) == O.Note(O.Elements(order), None)
  {
    hide T.Named, T.FormatMac;
    T.LinesNameThem(order);
    FinishedHasNoTail(T.LinesOf(order));
  }

  /**
   * A write that stopped after n characters is the torn append of the protocol, and its tail
   * is a whole address exactly when the write stopped one character short of a line's end.
   */
  lemma SameTornAppend(text: string, batch: seq<Mac>, n: nat)
    requires n < 18 * |T.FreshOf(text, batch)|
    ensures var missing := T.FreshOf(text, batch);
            var after := T.Finished(text) + T.LinesOf(missing)[..n];
            NoteOf(after) ==
            O.Note(NoteOf(text).lines + O.Elements(missing[..n / 18]),
                   if n % 18 == 17 then Some(missing[n / 18]) else None)
  {
    hide T.Named, T.LineNames, T.LinesOf;
    T.FinishedParts(text);
    T.TornAppend(T.Finished(text), T.FreshOf(text, batch), n);
  }
}

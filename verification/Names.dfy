/** Comma lists as the store keeps them (strings.Join with ",") and as the status API reads
    them back (splitNames, internal/api/status.go:586-598). */
module Names {
  import opened Base

  /** The trimmed pieces that are not blank. */
  function Kept(parts: seq<string>): seq<string> {
    if parts == [] then []
    else
      var name := TrimSpace(parts[|parts| - 1]);
      Kept(parts[..|parts| - 1]) + (if name != "" then [name] else [])
  }

  function Split(s: string): seq<string> {
    Kept(Fields(s, ','))
  }

  method SplitNames(s: string) returns (out: seq<string>)
    ensures out == Split(s)
  {
    if TrimSpace(s) == "" {
      BlankSplitsToNothing(s);
      return [];
    }
    var parts := Fields(s, ',');
    out := [];
    var i := 0;
    while i < |parts|
      invariant 0 <= i <= |parts|
      invariant out == Kept(parts[..i])
    {
      assert parts[..i + 1][..i] == parts[..i];
      var trimmed := TrimSpace(parts[i]);
      if trimmed != "" {
        out := out + [trimmed];
      }
      i := i + 1;
    }
    assert parts[..i] == parts;
  }

  lemma BlankSplitsToNothing(s: string)
    requires TrimSpace(s) == ""
    ensures Split(s) == []
  {
    TrimSpaceEmptyIffBlank(s);
    FieldsOfPlain(s, ',');
    assert [s][..0] == [];
  }

  /** A name that survives a round trip through a comma list. */
  predicate Clean(x: string) {
    x != "" && Trimmed(x) && ',' !in x
  }

  lemma {:induction false} KeptIsClean(parts: seq<string>)
    requires forall x :: x in parts ==> ',' !in x
    ensures forall x :: x in Kept(parts) ==> Clean(x)
  {
    if parts != [] {
      var last := parts[|parts| - 1];
      KeptIsClean(parts[..|parts| - 1]);
      TrimSpaceIsPart(last);
    }
  }

  lemma TrimSpaceIsPart(s: string)
    ensures forall c :: c in TrimSpace(s) ==> c in s
  {
    TrimLeftIsSuffix(s);
    TrimRightIsPrefix(TrimLeft(s));
  }

  lemma CleanIsKept(x: string)
    requires Clean(x)
    ensures TrimSpace(x) == x && x != ""
  {
    TrimmedIsFixed(x);
  }

  lemma {:induction false} KeptOneMore(init: seq<string>, x: string)
    ensures Kept(init + [x]) == Kept(init) + if TrimSpace(x) != "" then [TrimSpace(x)] else []
  {
    assert (init + [x])[..|init|] == init;
  }

  lemma {:induction false} KeptOfFixed(xs: seq<string>)
    requires forall i :: 0 <= i < |xs| ==> TrimSpace(xs[i]) == xs[i] && xs[i] != ""
    ensures Kept(xs) == xs
  {
    if xs != [] {
      var init, x := xs[..|xs| - 1], xs[|xs| - 1];
      KeptOfFixed(init);
      KeptOneMore(init, x);
      assert xs == init + [x];
    }
  }

  lemma {:induction false} KeptOfClean(xs: seq<string>)
    requires forall x :: x in xs ==> Clean(x)
    ensures Kept(xs) == xs
  {
    forall i | 0 <= i < |xs| ensures TrimSpace(xs[i]) == xs[i] && xs[i] != "" {
      CleanIsKept(xs[i]);
    }
    KeptOfFixed(xs);
  }

  lemma SplitIsClean(s: string)
    ensures forall x :: x in Split(s) ==> Clean(x)
  {
    FieldsJoinBack(s, ',');
    KeptIsClean(Fields(s, ','));
  }

  /** Joining and splitting gives a list back exactly when all its names are clean. */
  lemma {:induction false} SplitUndoesJoinIff(xs: seq<string>)
    ensures Split(Join(xs, ",")) == xs <==> forall x :: x in xs ==> Clean(x)
  {
    SplitIsClean(Join(xs, ","));
    if forall x :: x in xs ==> Clean(x) {
      if xs == [] {
        BlankSplitsToNothing("");
      } else {
        FieldsOfJoin(xs, ',');
        KeptOfClean(xs);
      }
    }
  }

  /** Splitting is stable: what was split once splits the same after being joined again. */
  lemma SplitJoinSplit(s: string)
    ensures Split(Join(Split(s), ",")) == Split(s)
  {
    SplitIsClean(s);
    SplitUndoesJoinIff(Split(s));
  }
}

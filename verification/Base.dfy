/** Small shared vocabulary: optional values, results, and the character-level
    text operations of the Go standard library that the modelled code uses.
    A string is a sequence of Unicode characters, as Go's is when it is valid UTF-8;
    only ASCII letters change case. */
module Base {

  datatype Option<+T> = None | Some(value: T)

  datatype Result<+T, +E> = Ok(value: T) | Err(error: E)

  /** unicode.IsSpace */
  predicate IsSpace(c: char) {
    var n := c as int;
    || 0x09 <= n <= 0x0D || n == 0x20 || n == 0x85 || n == 0xA0 || n == 0x1680 || 0x2000 <= n <= 0x200A
    || n == 0x2028 || n == 0x2029 || n == 0x202F || n == 0x205F || n == 0x3000
  }

  function TrimLeft(s: string): (r: string)
    ensures r == "" || !IsSpace(r[0])
  {
    if s == "" || !IsSpace(s[0]) then s else TrimLeft(s[1..])
  }

  function TrimRight(s: string): (r: string)
    ensures r == "" || !IsSpace(r[|r| - 1])
  {
    if s == "" || !IsSpace(s[|s| - 1]) then s else TrimRight(s[..|s| - 1])
  }

  lemma {:induction false} TrimLeftIsSuffix(s: string)
    ensures |TrimLeft(s)| <= |s| && TrimLeft(s) == s[|s| - |TrimLeft(s)|..]
  {
    if s != "" && IsSpace(s[0]) {
      TrimLeftIsSuffix(s[1..]);
    }
  }

  lemma {:induction false} TrimRightIsPrefix(s: string)
    ensures |TrimRight(s)| <= |s| && TrimRight(s) == s[..|TrimRight(s)|]
  {
    if s != "" && IsSpace(s[|s| - 1]) {
      TrimRightIsPrefix(s[..|s| - 1]);
    }
  }

  /** strings.TrimSpace */
  function TrimSpace(s: string): (r: string)
    ensures r == "" || (!IsSpace(r[0]) && !IsSpace(r[|r| - 1]))
  {
    TrimRightIsPrefix(TrimLeft(s));
    TrimRight(TrimLeft(s))
  }

  lemma {:induction false} TrimLeftDropsBlanks(s: string)
    ensures |TrimLeft(s)| <= |s| && TrimLeft(s) == s[|s| - |TrimLeft(s)|..] && Blank(s[..|s| - |TrimLeft(s)|])
  {
    TrimLeftIsSuffix(s);
    if s != "" && IsSpace(s[0]) {
      TrimLeftDropsBlanks(s[1..]);
      TrimLeftIsSuffix(s[1..]);
      var n := |s| - |TrimLeft(s)|;
      assert s[..n] == [s[0]] + s[1..][..n - 1];
    }
  }

  lemma {:induction false} TrimRightDropsBlanks(s: string)
    ensures |TrimRight(s)| <= |s| && TrimRight(s) == s[..|TrimRight(s)|] && Blank(s[|TrimRight(s)|..])
  {
    TrimRightIsPrefix(s);
    if s != "" && IsSpace(s[|s| - 1]) {
      var init := s[..|s| - 1];
      TrimRightDropsBlanks(init);
      TrimRightIsPrefix(init);
      assert s[|TrimRight(s)|..] == init[|TrimRight(s)|..] + [s[|s| - 1]];
    }
  }

  lemma SliceOfSuffix<T>(s: seq<T>, i: nat, n: nat)
    requires i + n <= |s|
    ensures s[i..][..n] == s[i..i + n] && s[i..][n..] == s[i + n..]
  {
  }

  /** Trimming takes white space off both ends and leaves the rest as it is. */
  lemma TrimSpaceDropsBlankEnds(s: string) returns (i: nat, j: nat)
    ensures i <= j <= |s| && TrimSpace(s) == s[i..j] && Blank(s[..i]) && Blank(s[j..])
  {
    var left := TrimLeft(s);
    TrimLeftDropsBlanks(s);
    TrimRightDropsBlanks(left);
    i := |s| - |left|;
    j := i + |TrimRight(left)|;
    SliceOfSuffix(s, i, |TrimRight(left)|);
  }

  /** Text that TrimSpace leaves alone. */
  predicate Trimmed(s: string) {
    s == "" || (!IsSpace(s[0]) && !IsSpace(s[|s| - 1]))
  }

  lemma TrimmedIsFixed(s: string)
    requires Trimmed(s)
    ensures TrimSpace(s) == s
  {
  }

  /** Nothing but white space. */
  predicate Blank(s: string) {
    forall c :: c in s ==> IsSpace(c)
  }

  lemma {:induction false} TrimLeftEmptyIffBlank(s: string)
    ensures TrimLeft(s) == "" <==> Blank(s)
  {
    if s != "" {
      assert s[0] in s;
      if IsSpace(s[0]) {
        TrimLeftEmptyIffBlank(s[1..]);
        assert s == [s[0]] + s[1..];
      }
    }
  }

  lemma TrimSpaceEmptyIffBlank(s: string)
    ensures TrimSpace(s) == "" <==> Blank(s)
  {
    TrimLeftEmptyIffBlank(s);
    TrimRightOfVisible(TrimLeft(s));
  }

  lemma {:induction false} TrimRightOfVisible(s: string)
    requires s == "" || !IsSpace(s[0])
    ensures TrimRight(s) == "" <==> s == ""
  {
    if s != "" && IsSpace(s[|s| - 1]) {
      TrimRightOfVisible(s[..|s| - 1]);
    }
  }

  function LowerChar(c: char): char {
    if 'A' <= c <= 'Z' then c - 'A' + 'a' else c
  }

  /** strings.ToLower */
  function ToLower(s: string): (r: string)
    ensures |r| == |s|
    ensures forall i :: 0 <= i < |s| ==> r[i] == LowerChar(s[i])
  {
    if s == "" then "" else [LowerChar(s[0])] + ToLower(s[1..])
  }

  /** The two cases of one ASCII letter. */
  predicate SameLetter(c: char, d: char) {
    || ('A' <= c <= 'Z' && d as int == c as int + 32)
    || ('A' <= d <= 'Z' && c as int == d as int + 32)
  }

  /** Texts fold alike exactly when they differ at most in the case of ASCII letters. */
  lemma EqualFoldIff(a: string, b: string)
    ensures EqualFold(a, b) <==>
            |a| == |b| && forall i :: 0 <= i < |a| ==> a[i] == b[i] || SameLetter(a[i], b[i])
  {
    forall c: char, d: char ensures LowerChar(c) == LowerChar(d) <==> c == d || SameLetter(c, d) {
    }
    if |a| == |b| && (forall i :: 0 <= i < |a| ==> a[i] == b[i] || SameLetter(a[i], b[i])) {
      forall i | 0 <= i < |a| ensures ToLower(a)[i] == ToLower(b)[i] {
        assert LowerChar(a[i]) == LowerChar(b[i]);
      }
    }
    if EqualFold(a, b) {
      forall i | 0 <= i < |a| ensures a[i] == b[i] || SameLetter(a[i], b[i]) {
        assert LowerChar(a[i]) == ToLower(a)[i] == ToLower(b)[i] == LowerChar(b[i]);
      }
    }
  }

  /** strings.EqualFold */
  predicate EqualFold(a: string, b: string) {
    ToLower(a) == ToLower(b)
  }

  /** Byte-wise "a < b", the order SQLite uses for TEXT columns. */
  predicate StringLess(a: string, b: string) {
    b != "" && (a == "" || a[0] < b[0] || (a[0] == b[0] && StringLess(a[1..], b[1..])))
  }

  /** It is a total order. */
  lemma {:induction false} StringOrderIsTotal(a: string, b: string)
    ensures !(StringLess(a, b) && StringLess(b, a)) && !StringLess(a, a)
    ensures a != b ==> StringLess(a, b) || StringLess(b, a)
    decreases |a| + |b|
  {
    if a != "" && b != "" {
      StringOrderIsTotal(a[1..], b[1..]);
      assert a == [a[0]] + a[1..] && b == [b[0]] + b[1..];
    }
    if a != "" {
      StringOrderIsIrreflexive(a);
    }
  }

  lemma {:induction false} StringOrderIsIrreflexive(a: string)
    ensures !StringLess(a, a)
  {
    if a != "" {
      StringOrderIsIrreflexive(a[1..]);
    }
  }

  lemma {:induction false} StringLessIsTransitive(a: string, b: string, c: string)
    requires StringLess(a, b) && StringLess(b, c)
    ensures StringLess(a, c)
  {
    if a != "" && a[0] == b[0] == c[0] {
      StringLessIsTransitive(a[1..], b[1..], c[1..]);
    }
  }

  /** Of two texts the first one that differs decides, and a proper prefix comes first. */
  lemma {:induction false} StringLessAt(p: string, a: string, b: string)
    ensures StringLess(p + a, p + b) <==> StringLess(a, b)
  {
    if p == "" {
      assert p + a == a && p + b == b;
    } else {
      StringLessAt(p[1..], a, b);
      assert (p + a)[1..] == p[1..] + a && (p + b)[1..] == p[1..] + b;
    }
  }

  /** strings.Join */
  function Join(xs: seq<string>, sep: string): string {
    if xs == [] then ""
    else if |xs| == 1 then xs[0]
    else xs[0] + sep + Join(xs[1..], sep)
  }

  /** strings.Split with a one-character separator: always at least one piece. */
  function Fields(s: string, sep: char): (r: seq<string>)
    ensures |r| > 0
  {
    if s == "" then [""]
    else
      var rest := Fields(s[1..], sep);
      if s[0] == sep then [""] + rest
      else [[s[0]] + rest[0]] + rest[1..]
  }

  lemma {:induction false} FieldsJoinBack(s: string, sep: char)
    ensures Join(Fields(s, sep), [sep]) == s
    ensures forall x :: x in Fields(s, sep) ==> sep !in x
  {
    if s != "" {
      var rest := Fields(s[1..], sep);
      FieldsJoinBack(s[1..], sep);
      if s[0] == sep {
        assert ([""] + rest)[1..] == rest;
      } else {
        var first := [s[0]] + rest[0];
        assert ([first] + rest[1..])[1..] == rest[1..];
        assert Join(Fields(s, sep), [sep]) == [s[0]] + Join(rest, [sep]);
      }
    }
  }

  lemma {:induction false} FieldsOfPlain(s: string, sep: char)
    requires sep !in s
    ensures Fields(s, sep) == [s]
  {
    if s != "" {
      FieldsOfPlain(s[1..], sep);
      assert [s[0]] + s[1..] == s;
    }
  }

  lemma {:induction false} FieldsOfCut(x: string, tail: string, sep: char)
    requires sep !in x
    ensures Fields(x + [sep] + tail, sep) == [x] + Fields(tail, sep)
  {
    var s := x + [sep] + tail;
    if x == "" {
      assert s[1..] == tail;
    } else {
      FieldsOfCut(x[1..], tail, sep);
      assert s[1..] == x[1..] + [sep] + tail;
      assert [x[0]] + x[1..] == x;
    }
  }

  /** Fields is the only inverse of joining: pieces without separators come back as they were. */
  lemma {:induction false} FieldsOfJoin(xs: seq<string>, sep: char)
    requires xs != [] && forall x :: x in xs ==> sep !in x
    ensures Fields(Join(xs, [sep]), sep) == xs
  {
    if |xs| == 1 {
      FieldsOfPlain(xs[0], sep);
    } else {
      var tail := Join(xs[1..], [sep]);
      FieldsOfJoin(xs[1..], sep);
      FieldsOfCut(xs[0], tail, sep);
      assert Join(xs, [sep]) == xs[0] + [sep] + tail;
      assert [xs[0]] + xs[1..] == xs;
    }
  }

  ghost predicate Distinct<T>(xs: seq<T>) {
    forall i, j :: 0 <= i < j < |xs| ==> xs[i] != xs[j]
  }

  lemma DistinctOneMore<T>(init: seq<T>, last: T)
    ensures Distinct(init + [last]) <==> Distinct(init) && last !in init
  {
    var xs := init + [last];
    assert forall i :: 0 <= i < |init| ==> xs[i] == init[i];
    assert xs[|init|] == last;
  }

  lemma ElementsOneMore<T>(init: seq<T>, last: T)
    ensures (set x | x in init + [last]) == (set x | x in init) + {last}
  {
  }

  /** Distinctness is exactly what makes a sequence as long as its set of elements. */
  lemma {:induction false} DistinctCardinality<T>(xs: seq<T>, elems: set<T>)
    requires elems == set x | x in xs
    ensures |elems| <= |xs|
    ensures |elems| == |xs| <==> Distinct(xs)
  {
    if xs != [] {
      var init, last := xs[..|xs| - 1], xs[|xs| - 1];
      var smaller := set x | x in init;
      DistinctCardinality(init, smaller);
      assert xs == init + [last];
      DistinctOneMore(init, last);
      ElementsOneMore(init, last);
      assert elems == smaller + {last};
      if last in smaller {
        assert elems == smaller;
      } else {
        assert |elems| == |smaller| + 1;
      }
    }
  }
}

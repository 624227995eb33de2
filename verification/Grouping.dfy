/** Grouping rows by a text key, as the status projections do with maps of slices. */
module Grouping {
  import opened Base

  /** The elements filed under one key, in order. */
  function Select<T>(keys: seq<string>, xs: seq<T>, id: string): seq<T>
    requires |keys| == |xs|
  {
    if xs == [] then []
    else
      var n := |xs| - 1;
      Select(keys[..n], xs[..n], id) + (if keys[n] == id then [xs[n]] else [])
  }

  /** The elements filed under any of the keys, in order. */
  function Among<T>(keys: seq<string>, xs: seq<T>, ids: seq<string>): seq<T>
    requires |keys| == |xs|
  {
    if xs == [] then []
    else
      var n := |xs| - 1;
      Among(keys[..n], xs[..n], ids) + (if keys[n] in ids then [xs[n]] else [])
  }

  /** Group after group. */
  function Grouped<T>(keys: seq<string>, xs: seq<T>, ids: seq<string>): seq<T>
    requires |keys| == |xs|
  {
    if ids == [] then []
    else Grouped(keys, xs, ids[..|ids| - 1]) + Select(keys, xs, ids[|ids| - 1])
  }

  function Lookup<T>(groups: map<string, seq<T>>, id: string): seq<T> {
    if id in groups then groups[id] else []
  }

  /** Appends every element to the slice under its key. */
  method GroupBy<T>(keys: seq<string>, xs: seq<T>) returns (groups: map<string, seq<T>>)
    requires |keys| == |xs|
    ensures forall id :: Lookup(groups, id) == Select(keys, xs, id)
  {
    groups := map[];
    var i := 0;
    while i < |xs|
      invariant 0 <= i <= |xs|
      invariant forall id :: Lookup(groups, id) == Select(keys[..i], xs[..i], id)
    {
      assert keys[..i + 1][..i] == keys[..i] && xs[..i + 1][..i] == xs[..i];
      groups := groups[keys[i] := Lookup(groups, keys[i]) + [xs[i]]];
      i := i + 1;
    }
    assert keys[..i] == keys && xs[..i] == xs;
  }

  lemma {:induction false} AmongOneMore<T>(keys: seq<string>, xs: seq<T>, ids: seq<string>, id: string)
    requires |keys| == |xs| && id !in ids
    ensures multiset(Among(keys, xs, ids + [id])) == multiset(Among(keys, xs, ids)) + multiset(Select(keys, xs, id))
  {
    if xs != [] {
      var n := |xs| - 1;
      AmongOneMore(keys[..n], xs[..n], ids, id);
      var more := if keys[n] in ids + [id] then [xs[n]] else [];
      var before := if keys[n] in ids then [xs[n]] else [];
      var own := if keys[n] == id then [xs[n]] else [];
      assert multiset(more) == multiset(before) + multiset(own);
      assert Among(keys, xs, ids + [id]) == Among(keys[..n], xs[..n], ids + [id]) + more;
      assert Among(keys, xs, ids) == Among(keys[..n], xs[..n], ids) + before;
      assert Select(keys, xs, id) == Select(keys[..n], xs[..n], id) + own;
    }
  }

  /** Under distinct keys nothing is listed twice, and nothing is lost but what has another key. */
  lemma {:induction false} GroupingConserves<T>(keys: seq<string>, xs: seq<T>, ids: seq<string>)
    requires |keys| == |xs| && Distinct(ids)
    ensures multiset(Grouped(keys, xs, ids)) == multiset(Among(keys, xs, ids))
  {
    if ids == [] {
      AmongNone(keys, xs);
    } else {
      var init := ids[..|ids| - 1];
      GroupingConserves(keys, xs, init);
      AmongOneMore(keys, xs, init, ids[|ids| - 1]);
      assert init + [ids[|ids| - 1]] == ids;
    }
  }

  lemma {:induction false} AmongNone<T>(keys: seq<string>, xs: seq<T>)
    requires |keys| == |xs|
    ensures Among(keys, xs, []) == []
  {
    if xs != [] {
      var n := |xs| - 1;
      AmongNone(keys[..n], xs[..n]);
    }
  }

  lemma {:induction false} AmongAllIff<T>(keys: seq<string>, xs: seq<T>, ids: seq<string>)
    requires |keys| == |xs|
    ensures |Among(keys, xs, ids)| <= |xs|
    ensures |Among(keys, xs, ids)| == |xs| <==> forall k :: k in keys ==> k in ids
    ensures |Among(keys, xs, ids)| == |xs| ==> Among(keys, xs, ids) == xs
  {
    if xs != [] {
      var n := |xs| - 1;
      AmongAllIff(keys[..n], xs[..n], ids);
      assert keys == keys[..n] + [keys[n]] && xs == xs[..n] + [xs[n]];
    }
  }

  function TotalLength<T>(keys: seq<string>, xs: seq<T>, ids: seq<string>): nat
    requires |keys| == |xs|
  {
    if ids == [] then 0
    else TotalLength(keys, xs, ids[..|ids| - 1]) + |Select(keys, xs, ids[|ids| - 1])|
  }

  lemma {:induction false} TotalIsGrouped<T>(keys: seq<string>, xs: seq<T>, ids: seq<string>)
    requires |keys| == |xs|
    ensures TotalLength(keys, xs, ids) == |Grouped(keys, xs, ids)|
  {
    if ids != [] {
      TotalIsGrouped(keys, xs, ids[..|ids| - 1]);
    }
  }

  /** The group sizes add up to the number of elements exactly when every key is among ids. */
  lemma {:induction false} GroupSizesAddUpIff<T>(keys: seq<string>, xs: seq<T>, ids: seq<string>)
    requires |keys| == |xs| && Distinct(ids)
    ensures TotalLength(keys, xs, ids) <= |xs|
    ensures TotalLength(keys, xs, ids) == |xs| <==> forall k :: k in keys ==> k in ids
  {
    TotalIsGrouped(keys, xs, ids);
    GroupingConserves(keys, xs, ids);
    AmongAllIff(keys, xs, ids);
    assert |Grouped(keys, xs, ids)| == |multiset(Grouped(keys, xs, ids))|;
    assert |Among(keys, xs, ids)| == |multiset(Among(keys, xs, ids))|;
  }
}

/**
 * Sequence helpers shared by several components: the order-preserving
 * selection of the elements filed under one key, and the "group by key"
 * accumulation that both the Kanban board (`reduce` over projects) and the
 * translation batcher (`forEach` over pending requests) perform.
 */
module Seqs {

  predicate Distinct<T(==)>(s: seq<T>) {
    forall i, j :: 0 <= i < j < |s| ==> s[i] != s[j]
  }

  /**
   * `a` is `b` with some elements left out and the others in their original
   * order: `idx` gives, increasing, the position in `b` of each element of `a`.
   */
  ghost predicate Embeds<T>(a: seq<T>, b: seq<T>, idx: seq<nat>) {
    && |idx| == |a|
    && (forall i :: 0 <= i < |idx| ==> idx[i] < |b| && a[i] == b[idx[i]])
    && (forall i, j :: 0 <= i < j < |idx| ==> idx[i] < idx[j])
  }

  /** The elements of `xs` whose key is `k`, in their order in `xs`. */
  function Select<T>(xs: seq<T>, keyOf: T -> string, k: string): (r: seq<T>)
    ensures |r| <= |xs|
    ensures forall i :: 0 <= i < |r| ==> keyOf(r[i]) == k
  {
    if xs == [] then []
    else (if keyOf(xs[0]) == k then [xs[0]] else []) + Select(xs[1..], keyOf, k)
  }

  lemma {:induction false} SelectMembers<T>(xs: seq<T>, keyOf: T -> string, k: string, x: T)
    ensures x in Select(xs, keyOf, k) <==> x in xs && keyOf(x) == k
  {
    if xs != [] {
      SelectMembers(xs[1..], keyOf, k, x);
      assert xs == [xs[0]] + xs[1..];
    }
  }

  /** Selecting from a concatenation selects from each part. */
  lemma {:induction false} SelectAppend<T>(xs: seq<T>, ys: seq<T>, keyOf: T -> string, k: string)
    ensures Select(xs + ys, keyOf, k) == Select(xs, keyOf, k) + Select(ys, keyOf, k)
  {
    if xs == [] {
      assert xs + ys == ys;
    } else {
      assert (xs + ys)[1..] == xs[1..] + ys;
      SelectAppend(xs[1..], ys, keyOf, k);
    }
  }

  /** The positions in `xs` of the selected elements: the selection keeps input order. */
  lemma {:induction false} SelectPositions<T>(xs: seq<T>, keyOf: T -> string, k: string) returns (idx: seq<nat>)
    ensures Embeds(Select(xs, keyOf, k), xs, idx)
  {
    if xs == [] {
      return [];
    }
    var tail := SelectPositions(xs[1..], keyOf, k);
    idx := EmbedsCons(Select(xs[1..], keyOf, k), xs[1..], tail, xs[0], keyOf(xs[0]) == k);
    assert [xs[0]] + xs[1..] == xs;
  }

  /** An embedding extends to one more element in front, kept or left out. */
  lemma EmbedsCons<T>(a: seq<T>, b: seq<T>, idx: seq<nat>, x: T, keepX: bool) returns (idx': seq<nat>)
    requires Embeds(a, b, idx)
    ensures Embeds(if keepX then [x] + a else a, [x] + b, idx')
  {
    var shifted := seq(|idx|, i requires 0 <= i < |idx| => idx[i] + 1);
    assert forall i :: 0 <= i < |shifted| ==> ([x] + b)[shifted[i]] == b[idx[i]];
    if keepX {
      idx' := [0] + shifted;
      assert forall i :: 1 <= i < |idx'| ==> idx'[i] == shifted[i - 1];
    } else {
      idx' := shifted;
    }
  }

  /** `Array.prototype.filter`: the elements that satisfy `keep`, in order. */
  function Filter<T>(xs: seq<T>, keep: T -> bool): (r: seq<T>)
    ensures |r| <= |xs|
    ensures forall i :: 0 <= i < |r| ==> keep(r[i])
  {
    if xs == [] then []
    else (if keep(xs[0]) then [xs[0]] else []) + Filter(xs[1..], keep)
  }

  /** The filter keeps exactly the elements that satisfy the predicate. */
  lemma {:induction false} FilterMembers<T>(xs: seq<T>, keep: T -> bool, x: T)
    ensures x in Filter(xs, keep) <==> x in xs && keep(x)
  {
    if xs != [] {
      FilterMembers(xs[1..], keep, x);
      assert xs == [xs[0]] + xs[1..];
    }
  }

  /** The positions in `xs` of the kept elements: the filter keeps input order. */
  lemma {:induction false} FilterPositions<T>(xs: seq<T>, keep: T -> bool) returns (idx: seq<nat>)
    ensures Embeds(Filter(xs, keep), xs, idx)
  {
    if xs == [] {
      return [];
    }
    var rest := Filter(xs[1..], keep);
    var tail := FilterPositions(xs[1..], keep);
    idx := EmbedsCons(rest, xs[1..], tail, xs[0], keep(xs[0]));
    assert [xs[0]] + xs[1..] == xs;
    if keep(xs[0]) {
      assert Filter(xs, keep) == [xs[0]] + rest;
    } else {
      assert Filter(xs, keep) == [] + rest == rest;
    }
  }

  /** The keys of the elements of `xs`, each once. */
  ghost predicate CoversKeys<T(!new)>(keys: seq<string>, xs: seq<T>, keyOf: T -> string) {
    forall x :: x in xs ==> keyOf(x) in keys
  }

  function SizeSum<T>(xs: seq<T>, keyOf: T -> string, keys: seq<string>): nat {
    if keys == [] then 0 else |Select(xs, keyOf, keys[0])| + SizeSum(xs, keyOf, keys[1..])
  }

  lemma {:induction false} SizeSumCons<T>(x: T, xs: seq<T>, keyOf: T -> string, keys: seq<string>)
    requires Distinct(keys)
    ensures SizeSum([x] + xs, keyOf, keys) == SizeSum(xs, keyOf, keys) + (if keyOf(x) in keys then 1 else 0)
  {
    if keys != [] {
      assert ([x] + xs)[1..] == xs;
      SizeSumCons(x, xs, keyOf, keys[1..]);
      assert keyOf(x) in keys <==> keyOf(x) == keys[0] || keyOf(x) in keys[1..];
      assert keyOf(x) == keys[0] ==> keyOf(x) !in keys[1..];
    }
  }

  /**
   * When every element's key is among the distinct `keys`, the groups have
   * `|xs|` elements between them: every element is in exactly one group.
   */
  lemma {:induction false} GroupSizesSumToLength<T(!new)>(xs: seq<T>, keyOf: T -> string, keys: seq<string>)
    requires Distinct(keys) && CoversKeys(keys, xs, keyOf)
    ensures SizeSum(xs, keyOf, keys) == |xs|
  {
    if xs == [] {
      EmptySizeSum(keyOf, keys);
    } else {
      assert xs == [xs[0]] + xs[1..];
      GroupSizesSumToLength(xs[1..], keyOf, keys);
      SizeSumCons(xs[0], xs[1..], keyOf, keys);
    }
  }

  lemma {:induction false} EmptySizeSum<T>(keyOf: T -> string, keys: seq<string>)
    ensures SizeSum([], keyOf, keys) == 0
  {
    if keys != [] {
      EmptySizeSum(keyOf, keys[1..]);
    }
  }

  lemma SelectMissing<T>(xs: seq<T>, keyOf: T -> string, k: string)
    requires forall j :: 0 <= j < |xs| ==> keyOf(xs[j]) != k
    ensures Select(xs, keyOf, k) == []
  {
    if Select(xs, keyOf, k) != [] {
      var y := Select(xs, keyOf, k)[0];
      SelectMembers(xs, keyOf, k, y);
    }
  }

  /** `keys` and `groups` are the grouping of `xs` by `keyOf`. */
  ghost predicate Grouped<T>(xs: seq<T>, keyOf: T -> string, keys: seq<string>, groups: map<string, seq<T>>) {
    && Distinct(keys)
    && (forall k :: k in groups <==> k in keys)
    && (forall j :: 0 <= j < |xs| ==> keyOf(xs[j]) in keys)
    && (forall k :: k in groups ==> groups[k] == Select(xs, keyOf, k) && groups[k] != [])
  }

  /** Selecting from `xs` with one more element at the end. */
  lemma SelectSnoc<T>(xs: seq<T>, x: T, keyOf: T -> string, k: string)
    ensures Select(xs + [x], keyOf, k) == Select(xs, keyOf, k) + (if keyOf(x) == k then [x] else [])
  {
    SelectAppend(xs, [x], keyOf, k);
    assert Select([x], keyOf, k) == (if keyOf(x) == k then [x] else []) + Select([], keyOf, k);
  }

  /** One more element whose key already has a group joins the end of that group. */
  lemma GroupedJoin<T>(xs: seq<T>, x: T, keyOf: T -> string, keys: seq<string>, groups: map<string, seq<T>>)
    requires Grouped(xs, keyOf, keys, groups)
    requires keyOf(x) in groups
    ensures Grouped(xs + [x], keyOf, keys, groups[keyOf(x) := groups[keyOf(x)] + [x]])
  {
    var groups' := groups[keyOf(x) := groups[keyOf(x)] + [x]];
    forall k | k in groups'
      ensures groups'[k] == Select(xs + [x], keyOf, k)
    {
      SelectSnoc(xs, x, keyOf, k);
    }
    forall j | 0 <= j < |xs + [x]|
      ensures keyOf((xs + [x])[j]) in keys
    {
      if j < |xs| {
        assert (xs + [x])[j] == xs[j];
      }
    }
  }

  /** One more element with a key not seen before opens a new group, listed last. */
  lemma GroupedOpen<T>(xs: seq<T>, x: T, keyOf: T -> string, keys: seq<string>, groups: map<string, seq<T>>)
    requires Grouped(xs, keyOf, keys, groups)
    requires keyOf(x) !in groups
    ensures Grouped(xs + [x], keyOf, keys + [keyOf(x)], groups[keyOf(x) := [x]])
  {
    var keys' := keys + [keyOf(x)];
    var groups' := groups[keyOf(x) := [x]];
    SelectMissing(xs, keyOf, keyOf(x));
    forall k | k in groups'
      ensures groups'[k] == Select(xs + [x], keyOf, k)
    {
      SelectSnoc(xs, x, keyOf, k);
    }
    forall j | 0 <= j < |xs + [x]|
      ensures keyOf((xs + [x])[j]) in keys'
    {
      if j < |xs| {
        assert (xs + [x])[j] == xs[j];
      }
    }
  }

  /**
   * Groups the elements of `xs` by `keyOf`: `keys` lists each key once in order
   * of first appearance (the insertion order of a JavaScript object or Map), and
   * each group holds the elements with that key in input order.
   */
  method GroupBy<T>(xs: seq<T>, keyOf: T -> string) returns (keys: seq<string>, groups: map<string, seq<T>>)
    ensures Grouped(xs, keyOf, keys, groups)
  {
    keys, groups := [], map[];
    for i := 0 to |xs|
      invariant Grouped(xs[..i], keyOf, keys, groups)
    {
      var x := xs[i];
      var k := keyOf(x);
      assert xs[..i] + [x] == xs[..i + 1];
      if k !in groups {
        GroupedOpen(xs[..i], x, keyOf, keys, groups);
        keys := keys + [k];
        groups := groups[k := [x]];
      } else {
        GroupedJoin(xs[..i], x, keyOf, keys, groups);
        groups := groups[k := groups[k] + [x]];
      }
    }
    assert xs[..|xs|] == xs;
  }
}

/** Keeping the defined results of a partial map over a sequence, in order. */
module Collections {
  import opened Wrappers

  /**
    The results `f` gives on the elements of `xs` that it maps to `Some`,
    in the order of `xs`; at most one per element.
   */
  function FilterMap<A, B>(xs: seq<A>, f: A -> Option<B>): (ys: seq<B>)
    ensures |ys| <= |xs|
    decreases |xs|
  {
    if |xs| == 0 then []
    else
      var rest := FilterMap(xs[1..], f);
      match f(xs[0])
      case None => rest
      case Some(y) => [y] + rest
  }

  predicate StrictlyIncreasing(idx: seq<nat>)
  {
    forall k, l :: 0 <= k < l < |idx| ==> idx[k] < idx[l]
  }

  /**
    `idx` names, for each result of `FilterMap(xs[from..], f)`, the index
    in `xs` of the element it comes from: in increasing order, each at or
    after `from`, and every element from `from` on that `f` maps to
    `Some` is named.
   */
  ghost predicate IsOriginMap<A, B>(xs: seq<A>, from: nat, f: A -> Option<B>, ys: seq<B>, idx: seq<nat>)
  {
    && |idx| == |ys|
    && StrictlyIncreasing(idx)
    && (forall k :: 0 <= k < |idx| ==> from <= idx[k] < |xs| && f(xs[idx[k]]) == Some(ys[k]))
    && (forall i :: from <= i < |xs| && f(xs[i]).Some? ==> exists k :: 0 <= k < |idx| && idx[k] == i)
  }

  /** One step of `FilterMap` on a suffix: the element at `from` contributes at most its own result. */
  lemma FilterMapStep<A, B>(xs: seq<A>, from: nat, f: A -> Option<B>)
    requires from < |xs|
    ensures f(xs[from]).None? ==> FilterMap(xs[from..], f) == FilterMap(xs[from + 1..], f)
    ensures f(xs[from]).Some? ==>
      FilterMap(xs[from..], f) == [f(xs[from]).value] + FilterMap(xs[from + 1..], f)
  {
    assert xs[from..][1..] == xs[from + 1..];
    assert xs[from..][0] == xs[from];
  }

  /** An element without a result leaves the origin map as it was. */
  lemma SkipOrigin<A, B>(xs: seq<A>, from: nat, f: A -> Option<B>, idx: seq<nat>)
    requires from < |xs| && f(xs[from]).None?
    requires IsOriginMap(xs, from + 1, f, FilterMap(xs[from + 1..], f), idx)
    ensures IsOriginMap(xs, from, f, FilterMap(xs[from..], f), idx)
  {
    FilterMapStep(xs, from, f);
  }

  /** An index below every index of an increasing map can go in front. */
  lemma ConsIncreasing(i: nat, idx: seq<nat>)
    requires StrictlyIncreasing(idx)
    requires forall k :: 0 <= k < |idx| ==> i < idx[k]
    ensures StrictlyIncreasing([i] + idx)
  {
    var idx' := [i] + idx;
    forall k, l | 0 <= k < l < |idx'|
      ensures idx'[k] < idx'[l]
    {
      assert idx'[l] == idx[l - 1];
      if k > 0 {
        assert idx'[k] == idx[k - 1];
      }
    }
  }

  /** An element with a result puts its own index in front of the origin map. */
  lemma ConsOrigin<A, B>(xs: seq<A>, from: nat, f: A -> Option<B>, idx: seq<nat>)
    requires from < |xs| && f(xs[from]).Some?
    requires IsOriginMap(xs, from + 1, f, FilterMap(xs[from + 1..], f), idx)
    ensures IsOriginMap(xs, from, f, FilterMap(xs[from..], f), [from] + idx)
  {
    FilterMapStep(xs, from, f);
    var rest := FilterMap(xs[from + 1..], f);
    var ys := FilterMap(xs[from..], f);
    var idx' := [from] + idx;
    forall k | 0 < k < |idx'|
      ensures from <= idx'[k] < |xs| && f(xs[idx'[k]]) == Some(ys[k])
    {
      assert idx'[k] == idx[k - 1] && ys[k] == rest[k - 1];
    }
    ConsIncreasing(from, idx);
    forall i | from <= i < |xs| && f(xs[i]).Some?
      ensures exists k :: 0 <= k < |idx'| && idx'[k] == i
    {
      if i > from {
        var k :| 0 <= k < |idx| && idx[k] == i;
        assert idx'[k + 1] == i;
      } else {
        assert idx'[0] == i;
      }
    }
  }

  /**
    `FilterMap` lists its results in the order of the elements they come
    from, one per element mapped to `Some`, none lost (see `IsOriginMap`).
   */
  lemma {:induction false} FilterMapOrigins<A, B>(xs: seq<A>, from: nat, f: A -> Option<B>) returns (idx: seq<nat>)
    requires from <= |xs|
    ensures IsOriginMap(xs, from, f, FilterMap(xs[from..], f), idx)
    decreases |xs| - from
  {
    if from == |xs| {
      idx := [];
      assert xs[from..] == [];
    } else {
      var tail := FilterMapOrigins(xs, from + 1, f);
      if f(xs[from]).Some? {
        ConsOrigin(xs, from, f, tail);
        idx := [from] + tail;
      } else {
        SkipOrigin(xs, from, f, tail);
        idx := tail;
      }
    }
  }
}

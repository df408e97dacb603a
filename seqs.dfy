/** Order-preserving selection of elements from a sequence. */
module Seqs {

  /** `idx` lists, in strictly increasing order, the positions of `xs` whose
      elements make up `sub`, so `sub` is `xs` with some elements removed. */
  ghost predicate Embeds<T>(sub: seq<T>, xs: seq<T>, idx: seq<int>)
  {
    && |idx| == |sub|
    && (forall k :: 0 <= k < |idx| ==> 0 <= idx[k] < |xs| && sub[k] == xs[idx[k]])
    && (forall k, l :: 0 <= k < l < |idx| ==> idx[k] < idx[l])
  }

  /** `sub` is an order-preserving subsequence of `xs`. */
  ghost predicate IsSubsequence<T>(sub: seq<T>, xs: seq<T>)
  {
    exists idx :: Embeds(sub, xs, idx)
  }

  /** An embedding survives appending an element that is not selected. */
  lemma EmbedsSkip<T>(sub: seq<T>, xs: seq<T>, idx: seq<int>, x: T)
    requires Embeds(sub, xs, idx)
    ensures Embeds(sub, xs + [x], idx)
    ensures |xs| !in idx
  {
  }

  /** An embedding extends when the appended element is selected. */
  lemma EmbedsTake<T>(sub: seq<T>, xs: seq<T>, idx: seq<int>, x: T)
    requires Embeds(sub, xs, idx)
    ensures Embeds(sub + [x], xs + [x], idx + [|xs|])
    ensures |xs| !in idx
  {
  }

  /** The elements of `xs` for which `keep` holds, in their original order:
      indexing a sequence by a boolean mask. */
  function Select<T>(xs: seq<T>, keep: T -> bool): (r: seq<T>)
    ensures |r| <= |xs|
    ensures forall x :: x in r ==> x in xs && keep(x)
    decreases |xs|
  {
    if xs == [] then []
    else
      var init, last := xs[..|xs| - 1], xs[|xs| - 1];
      Select(init, keep) + (if keep(last) then [last] else [])
  }

  /** Masking one more element appends it exactly when the mask holds for it. */
  lemma SelectAppend<T>(xs: seq<T>, x: T, keep: T -> bool)
    ensures Select(xs + [x], keep) == Select(xs, keep) + (if keep(x) then [x] else [])
  {
    assert (xs + [x])[..|xs|] == xs;
  }

  /** The positions of `xs` where the mask holds, in increasing order. */
  ghost function SelectedPositions<T>(xs: seq<T>, keep: T -> bool): seq<int>
    decreases |xs|
  {
    if xs == [] then []
    else
      var init := xs[..|xs| - 1];
      SelectedPositions(init, keep) + (if keep(xs[|xs| - 1]) then [|init|] else [])
  }

  /** `SelectedPositions` embeds the masked sequence and lists exactly the
      positions where the mask holds. */
  lemma {:induction false} SelectedPositionsExact<T>(xs: seq<T>, keep: T -> bool)
    ensures Embeds(Select(xs, keep), xs, SelectedPositions(xs, keep))
    ensures forall i :: 0 <= i < |xs| ==> (i in SelectedPositions(xs, keep) <==> keep(xs[i]))
    decreases |xs|
  {
    if xs != [] {
      var init, last := xs[..|xs| - 1], xs[|xs| - 1];
      assert xs == init + [last];
      var idx := SelectedPositions(init, keep);
      SelectedPositionsExact(init, keep);
      SelectAppend(init, last, keep);
      if keep(last) {
        EmbedsTake(Select(init, keep), init, idx, last);
      } else {
        EmbedsSkip(Select(init, keep), init, idx, last);
      }
      forall i | 0 <= i < |xs|
        ensures i in SelectedPositions(xs, keep) <==> keep(xs[i])
      {
        if i < |init| {
          assert xs[i] == init[i];
        }
      }
    }
  }

  /** A mask keeps exactly the positions where it holds, in order. */
  lemma SelectExact<T>(xs: seq<T>, keep: T -> bool)
    ensures exists idx :: Embeds(Select(xs, keep), xs, idx)
                          && forall i :: 0 <= i < |xs| ==> (i in idx <==> keep(xs[i]))
  {
    SelectedPositionsExact(xs, keep);
  }

  /** Every element of `xs` that the mask holds for is selected. */
  lemma {:induction false} SelectKeeps<T>(xs: seq<T>, keep: T -> bool, x: T)
    requires x in xs && keep(x)
    ensures x in Select(xs, keep)
    decreases |xs|
  {
    var init, last := xs[..|xs| - 1], xs[|xs| - 1];
    assert xs == init + [last];
    if x != last {
      SelectKeeps(init, keep, x);
    }
  }
}

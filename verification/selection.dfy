/**
 Order-preserving selection from a sequence: the shape of a view, which
 keeps the rows a predicate accepts and leaves them in table order. The
 predicate is a parameter, so these facts hold for every filter.
 */
module Selection {
  /** The elements of xs that keep accepts, in their original order. */
  function Select<T>(xs: seq<T>, keep: T -> bool): (out: seq<T>)
    ensures |out| <= |xs|
    ensures forall k :: 0 <= k < |out| ==> keep(out[k])
  {
    if |xs| == 0 then []
    else
      var last := xs[|xs| - 1];
      Select(xs[..|xs| - 1], keep) + (if keep(last) then [last] else [])
  }

  /** The positions of the accepted elements, ascending. */
  function Positions<T>(xs: seq<T>, keep: T -> bool): seq<nat> {
    if |xs| == 0 then []
    else
      Positions(xs[..|xs| - 1], keep) + (if keep(xs[|xs| - 1]) then [|xs| - 1] else [])
  }

  /** `out` is the subsequence of `xs` at the strictly increasing
      positions `idx`. */
  ghost predicate SubsequenceAt<T>(out: seq<T>, xs: seq<T>, idx: seq<nat>) {
    && |idx| == |out|
    && (forall k :: 0 <= k < |idx| ==> idx[k] < |xs| && out[k] == xs[idx[k]])
    && (forall k, l :: 0 <= k < l < |idx| ==> idx[k] < idx[l])
  }

  /** The selection is xs at the accepted positions, which ascend. */
  lemma {:induction false} SelectSubsequence<T>(xs: seq<T>, keep: T -> bool)
    ensures SubsequenceAt(Select(xs, keep), xs, Positions(xs, keep))
  {
    if |xs| > 0 {
      var n := |xs| - 1;
      var front := xs[..n];
      SelectSubsequence(front, keep);
      var outF, idxF := Select(front, keep), Positions(front, keep);
      var out, idx := Select(xs, keep), Positions(xs, keep);
      if keep(xs[n]) {
        assert out == outF + [xs[n]] && idx == idxF + [n];
      } else {
        assert out == outF && idx == idxF;
      }
      forall k | 0 <= k < |idxF|
        ensures idx[k] == idxF[k] && idx[k] < n && out[k] == xs[idx[k]]
      {
        assert out[k] == outF[k] == front[idxF[k]];
      }
    }
  }

  /** Position i is listed exactly when element i is accepted. */
  lemma {:induction false} PositionsExact<T>(xs: seq<T>, keep: T -> bool)
    ensures forall i :: 0 <= i < |xs| ==> (keep(xs[i]) <==> i in Positions(xs, keep))
  {
    if |xs| > 0 {
      var n := |xs| - 1;
      var front := xs[..n];
      PositionsExact(front, keep);
      SelectSubsequence(front, keep);
      var idxF, idx := Positions(front, keep), Positions(xs, keep);
      assert idx == idxF + (if keep(xs[n]) then [n] else []);
      assert n !in idxF;
      forall i | 0 <= i < n
        ensures keep(xs[i]) <==> i in idx
      {
        assert front[i] == xs[i];
      }
    }
  }

  /** Selecting from a concatenation concatenates the selections. */
  lemma {:induction false} SelectAppend<T>(xs: seq<T>, ys: seq<T>, keep: T -> bool)
    ensures Select(xs + ys, keep) == Select(xs, keep) + Select(ys, keep)
    decreases |ys|
  {
    if |ys| == 0 {
      assert xs + ys == xs;
    } else {
      var n := |ys| - 1;
      var all := xs + ys;
      assert all[|all| - 1] == ys[n];
      assert all[..|all| - 1] == xs + ys[..n];
      SelectAppend(xs, ys[..n], keep);
    }
  }

  /** When every element is accepted the selection is the whole sequence. */
  lemma {:induction false} SelectAll<T>(xs: seq<T>, keep: T -> bool)
    requires forall i :: 0 <= i < |xs| ==> keep(xs[i])
    ensures Select(xs, keep) == xs
  {
    if |xs| > 0 {
      SelectAll(xs[..|xs| - 1], keep);
      assert xs[..|xs| - 1] + [xs[|xs| - 1]] == xs;
    }
  }

  /** When no element is accepted the selection is empty. */
  lemma {:induction false} SelectNone<T>(xs: seq<T>, keep: T -> bool)
    requires forall i :: 0 <= i < |xs| ==> !keep(xs[i])
    ensures Select(xs, keep) == []
  {
    if |xs| > 0 {
      SelectNone(xs[..|xs| - 1], keep);
    }
  }
}

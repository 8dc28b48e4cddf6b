module Common {
  /** A value that may be missing: SQL NULL, Python None, or a call that raised. */
  datatype Option<T> = None | Some(value: T)

  /** Induction along a run. */
  lemma {:induction false} Along<T>(xs: seq<T>, p: T -> bool, n: nat)
    requires n < |xs| && p(xs[0]) && forall i :: 0 <= i < n && p(xs[i]) ==> p(xs[i + 1])
    ensures p(xs[n])
  {
    if n > 0 {
      Along(xs, p, n - 1);
    }
  }

  /** Induction along two runs side by side. */
  lemma {:induction false} AlongBoth<T, U>(xs: seq<T>, ys: seq<U>, p: (T, U) -> bool, n: nat)
    requires n < |xs| && n < |ys| && p(xs[0], ys[0])
    requires forall i :: 0 <= i < n && p(xs[i], ys[i]) ==> p(xs[i + 1], ys[i + 1])
    ensures p(xs[n], ys[n])
  {
    if n > 0 {
      AlongBoth(xs, ys, p, n - 1);
    }
  }
}

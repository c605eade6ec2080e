/** Option and Result, the two failure-carrying wrappers the model uses. */
module Wrappers {

  datatype Option<+T> = None | Some(value: T) {
    /** The wrapped value, or `default` when there is none. */
    function GetOr(default: T): T {
      match this
      case Some(v) => v
      case None => default
    }
  }

  /** The outcome of a fallible conversion: a value, or the error that stopped it. */
  datatype Result<+T, +E> = Success(value: T) | Failure(error: E)

  /**
   * Convert `xs[k..]` one element at a time with `f` (which also sees the
   * position), appending to `acc`; the first failure stops the whole run.
   */
  function TryMapFrom<A, B, E>(f: (nat, A) -> Result<B, E>, xs: seq<A>, k: nat, acc: seq<B>): Result<seq<B>, E>
    requires k <= |xs|
    decreases |xs| - k
  {
    if k == |xs| then Success(acc)
    else
      match f(k, xs[k])
      case Failure(e) => Failure(e)
      case Success(y) => TryMapFrom(f, xs, k + 1, acc + [y])
  }

  /**
   * A run from `k` succeeds iff every remaining element converts, and then
   * appends their images in order; otherwise its error is that of the
   * first element that fails.
   */
  lemma {:induction false} TryMapFromSpec<A, B, E>(f: (nat, A) -> Result<B, E>, xs: seq<A>, k: nat, acc: seq<B>)
    requires k <= |xs|
    ensures TryMapFrom(f, xs, k, acc).Success? <==> forall j :: k <= j < |xs| ==> f(j, xs[j]).Success?
    ensures var r := TryMapFrom(f, xs, k, acc);
            r.Success? ==> |r.value| == |acc| + |xs| - k && r.value[..|acc|] == acc
    ensures var r := TryMapFrom(f, xs, k, acc);
            r.Success? ==> forall j :: k <= j < |xs| ==> f(j, xs[j]) == Success(r.value[|acc| + j - k])
    ensures var r := TryMapFrom(f, xs, k, acc);
            r.Failure? ==> exists j :: k <= j < |xs| && f(j, xs[j]) == Failure(r.error) &&
                                      forall j' :: k <= j' < j ==> f(j', xs[j']).Success?
    decreases |xs| - k
  {
    if k < |xs| {
      var d := f(k, xs[k]);
      if d.Success? {
        var acc' := acc + [d.value];
        TryMapFromSpec(f, xs, k + 1, acc');
        var r := TryMapFrom(f, xs, k, acc);
        if r.Success? {
          assert r.value[..|acc'|][..|acc|] == r.value[..|acc|];
          assert r.value[|acc|] == acc'[|acc|];
        }
      }
    }
  }

  /** A whole run: success iff every element converts, giving element `j`'s image at `j`. */
  lemma TryMapSpec<A, B, E>(f: (nat, A) -> Result<B, E>, xs: seq<A>)
    ensures TryMapFrom(f, xs, 0, []).Success? <==> forall j :: 0 <= j < |xs| ==> f(j, xs[j]).Success?
    ensures var r := TryMapFrom(f, xs, 0, []);
            r.Success? ==> |r.value| == |xs| && forall j :: 0 <= j < |xs| ==> f(j, xs[j]) == Success(r.value[j])
    ensures var r := TryMapFrom(f, xs, 0, []);
            r.Failure? ==> exists j :: 0 <= j < |xs| && f(j, xs[j]) == Failure(r.error) &&
                                      forall j' :: 0 <= j' < j ==> f(j', xs[j']).Success?
  {
    TryMapFromSpec(f, xs, 0, []);
  }
}

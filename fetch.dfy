/**
 What one source contributes to the collector. A getter returns a triple:
 the numbers (nil on error), the HTTP status (-1 on error) and an error
 (nil when there is none). `fetchNumbers` forwards the numbers only when
 there is no error and the status is 200 OK; otherwise it forwards a nil
 batch, so that the collector still counts the source.
 */
module Fetch {
  import opened Collect

  datatype Option<T> = None | Some(value: T)

  /** `http.StatusOK`. */
  const StatusOK: int := 200

  /** A getter's result: `(numbers, status, err)`, with `err` nil as `None`. */
  datatype Fetched = Fetched(numbers: seq<int>, status: int, err: Option<string>)

  /** The one outcome whose numbers are used: no error and status 200 OK. */
  predicate Succeeded(f: Fetched)
  {
    f.err.None? && f.status == StatusOK
  }

  /**
   The batch `fetchNumbers` sends for one source: the getter's numbers
   when it succeeded, an empty (nil) batch otherwise. An error wins over
   any status, and a status other than 200 OK wins over any numbers.
   */
  function Forward(f: Fetched): (batch: seq<int>)
    ensures Succeeded(f) ==> batch == f.numbers
    ensures !Succeeded(f) ==> batch == []
  {
    if f.err.Some? then []
    else if f.status != StatusOK then []
    else f.numbers
  }

  /** The batches sent for a sequence of outcomes, one each, in the same order. */
  function Forwarded(outcomes: seq<Fetched>): (batches: seq<seq<int>>)
    ensures |batches| == |outcomes|
  {
    seq(|outcomes|, i requires 0 <= i < |outcomes| => Forward(outcomes[i]))
  }

  /** Every integer of every outcome that succeeded. */
  ghost function SuccessfulNumbers(outcomes: seq<Fetched>): set<int>
  {
    set i, x | 0 <= i < |outcomes| && Succeeded(outcomes[i]) && x in outcomes[i].numbers :: x
  }

  /**
   Failed sources contribute nothing: merging the forwarded batches gives
   exactly the numbers of the outcomes that succeeded, one batch per
   outcome whether it succeeded or not.
   */
  lemma ForwardedUnion(outcomes: seq<Fetched>)
    ensures |Forwarded(outcomes)| == |outcomes|
    ensures Union(Forwarded(outcomes)) == SuccessfulNumbers(outcomes)
  {
    var batches := Forwarded(outcomes);
    forall x ensures x in Union(batches) <==> x in SuccessfulNumbers(outcomes) {
      UnionMembership(batches, x);
      if x in Union(batches) {
        var i :| 0 <= i < |batches| && x in batches[i];
        assert Succeeded(outcomes[i]) && x in outcomes[i].numbers;
      }
      if x in SuccessfulNumbers(outcomes) {
        var i :| 0 <= i < |outcomes| && Succeeded(outcomes[i]) && x in outcomes[i].numbers;
        assert x in batches[i];
      }
    }
  }

  /** Forwarding commutes with taking the first `k` outcomes. */
  lemma ForwardedPrefix(outcomes: seq<Fetched>, k: nat)
    requires k <= |outcomes|
    ensures Forwarded(outcomes)[..k] == Forwarded(outcomes[..k])
  {
  }
}

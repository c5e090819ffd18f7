/**
 The `/numbers` handler, `makeNumbersHandler`: it starts one fetch per `u`
 parameter, then collects with `expected` set to the number of URLs, under
 a context that fires after a fixed budget.

 Each fetch calls the getter on its own, so its outcome is a parameter:
 one getter result per URL position (two positions holding the same URL
 may get different answers). The concurrent fetches are abstracted by the
 order in which their outcomes reach the collector (a permutation of the
 URL positions), and the time budget by a `Cutoff`.
 */
module Handler {
  import opened NumberSet
  import opened Collect
  import opened Fetch

  /** `order` lists every position below `n` exactly once: the order the fetches finish in. */
  predicate IsArrivalOrder(order: seq<nat>, n: nat)
  {
    && |order| == n
    && (forall j :: 0 <= j < n ==> order[j] < n)
    && (forall i :: 0 <= i < n ==> i in order)
  }

  /** The per-position outcomes in the order they reach the collector. */
  function Arrived(outcomes: seq<Fetched>, order: seq<nat>): (arrived: seq<Fetched>)
    requires IsArrivalOrder(order, |outcomes|)
    ensures |arrived| == |outcomes|
    ensures forall j :: 0 <= j < |arrived| ==> arrived[j] == outcomes[order[j]]
  {
    seq(|outcomes|, j requires 0 <= j < |outcomes| => outcomes[order[j]])
  }

  /**
   The handler's response body: the numbers, in increasing order and once
   each, of exactly those sources that succeeded among the ones whose
   outcome reached the collector before the budget ran out. The collector
   is never asked for more batches than there are URLs.
   */
  method HandleRequest(urls: seq<string>, outcomes: seq<Fetched>, order: seq<nat>, cut: Cutoff)
    returns (numbers: seq<int>)
    requires |outcomes| == |urls|
    requires IsArrivalOrder(order, |urls|)
    ensures StrictlyAscending(numbers)
    ensures Elems(numbers) == SuccessfulNumbers(Arrived(outcomes, order)[..Received(|urls|, |urls|, cut)])
  {
    var arrived := Arrived(outcomes, order);
    var batches := Forwarded(arrived);
    numbers := CollectNumbers(|urls|, batches, cut);
    ghost var m := Received(|urls|, |urls|, cut);
    ForwardedPrefix(arrived, m);
    ForwardedUnion(arrived[..m]);
  }

  /**
   When every fetch finishes within the budget, the response holds the
   numbers of every source that succeeded, whatever order they finished
   in; a failed source contributes nothing.
   */
  lemma HandleAllInTime(outcomes: seq<Fetched>, order: seq<nat>, cut: Cutoff)
    requires IsArrivalOrder(order, |outcomes|)
    requires cut.After? ==> cut.received >= |outcomes|
    ensures SuccessfulNumbers(Arrived(outcomes, order)[..Received(|outcomes|, |outcomes|, cut)])
         == SuccessfulNumbers(outcomes)
  {
    var arrived := Arrived(outcomes, order);
    assert arrived[..|outcomes|] == arrived;
    forall x ensures x in SuccessfulNumbers(arrived) <==> x in SuccessfulNumbers(outcomes) {
      if x in SuccessfulNumbers(arrived) {
        var j :| 0 <= j < |arrived| && Succeeded(arrived[j]) && x in arrived[j].numbers;
        assert outcomes[order[j]] == arrived[j];
      }
      if x in SuccessfulNumbers(outcomes) {
        var i :| 0 <= i < |outcomes| && Succeeded(outcomes[i]) && x in outcomes[i].numbers;
        assert i in order;
        var j :| 0 <= j < |order| && order[j] == i;
        assert arrived[j] == outcomes[i];
      }
    }
  }

  /** No `u` parameter: the collector receives nothing and the response is empty. */
  lemma HandleNoUrls(cut: Cutoff, numbers: seq<int>)
    requires StrictlyAscending(numbers)
    requires Elems(numbers) == SuccessfulNumbers(Arrived([], [])[..Received(0, 0, cut)])
    ensures numbers == []
  {
    StrictlyAscendingUnique(numbers, []);
  }

  /**
   The in-memory getter: a URL it is configured for answers its numbers
   with status 200 OK; any other URL answers 404 Not Found, with no error.
   */
  function StubGet(config: map<string, seq<int>>, url: string): (f: Fetched)
    ensures url in config ==> Succeeded(f) && f.numbers == config[url]
    ensures url !in config ==> !Succeeded(f) && f.status == 404
  {
    if url in config then Fetched(config[url], StatusOK, None)
    else Fetched([], 404, None)
  }

  /** The in-memory getter's answer for each URL position. */
  function StubOutcomes(config: map<string, seq<int>>, urls: seq<string>): (outcomes: seq<Fetched>)
    ensures |outcomes| == |urls|
  {
    seq(|urls|, i requires 0 <= i < |urls| => StubGet(config, urls[i]))
  }

  /** The configuration of the in-memory sources: their numbers (latencies are the arrival order). */
  function StubConfig(): map<string, seq<int>>
  {
    map["/test1" := [1, 2, 3, 4], "/test2" := [5, 6, 1, 1], "/test3" := [1, 2],
        "/test4" := [11, 12], "/test5" := [101, 102], "/test6" := [1001, 1002]]
  }

  /**
   Sources /test1 and /test2 answering in time give [1,2,3,4,5,6]; the
   duplicate 1s collapse.
   */
  lemma HandleTwoSourcesExample(numbers: seq<int>)
    requires StrictlyAscending(numbers)
    requires Elems(numbers) == SuccessfulNumbers(
      Arrived(StubOutcomes(StubConfig(), ["/test1", "/test2"]), [0, 1])[..Received(2, 2, Never)])
    ensures numbers == [1, 2, 3, 4, 5, 6]
  {
    var arrived := Arrived(StubOutcomes(StubConfig(), ["/test1", "/test2"]), [0, 1]);
    assert arrived[..2] == arrived;
    assert arrived[0] == Fetched([1, 2, 3, 4], StatusOK, None);
    assert arrived[1] == Fetched([5, 6, 1, 1], StatusOK, None);
    var expected := [1, 2, 3, 4, 5, 6];
    forall x ensures x in SuccessfulNumbers(arrived) <==> x in Elems(expected) {
      if x in SuccessfulNumbers(arrived) {
        var i :| 0 <= i < 2 && Succeeded(arrived[i]) && x in arrived[i].numbers;
      }
      if x in Elems(expected) {
        if x <= 4 {
          assert x in arrived[0].numbers;
        } else {
          assert x in arrived[1].numbers;
        }
      }
    }
    StrictlyAscendingUnique(numbers, expected);
  }

  /**
   Sources /test3 to /test6 finish in that order, and the budget runs out
   after the first three: /test6's numbers are left out.
   */
  lemma HandleDeadlineExample(numbers: seq<int>)
    requires StrictlyAscending(numbers)
    requires Elems(numbers) == SuccessfulNumbers(
      Arrived(StubOutcomes(StubConfig(), ["/test3", "/test4", "/test5", "/test6"]), [0, 1, 2, 3])
        [..Received(4, 4, After(3))])
    ensures numbers == [1, 2, 11, 12, 101, 102]
  {
    var arrived := Arrived(StubOutcomes(StubConfig(), ["/test3", "/test4", "/test5", "/test6"]), [0, 1, 2, 3]);
    var first := arrived[..3];
    assert first[0] == Fetched([1, 2], StatusOK, None);
    assert first[1] == Fetched([11, 12], StatusOK, None);
    assert first[2] == Fetched([101, 102], StatusOK, None);
    var expected := [1, 2, 11, 12, 101, 102];
    forall x ensures x in SuccessfulNumbers(first) <==> x in Elems(expected) {
      if x in SuccessfulNumbers(first) {
        var i :| 0 <= i < 3 && Succeeded(first[i]) && x in first[i].numbers;
      }
      if x in Elems(expected) {
        if x <= 2 {
          assert x in first[0].numbers;
        } else if x <= 12 {
          assert x in first[1].numbers;
        } else {
          assert x in first[2].numbers;
        }
      }
    }
    StrictlyAscendingUnique(numbers, expected);
  }

  /** A single URL the getter does not know answers 404: the response is empty. */
  lemma HandleUnknownSourceExample(cut: Cutoff, numbers: seq<int>)
    requires StrictlyAscending(numbers)
    requires Elems(numbers) == SuccessfulNumbers(
      Arrived(StubOutcomes(StubConfig(), ["/wrong"]), [0])[..Received(1, 1, cut)])
    ensures numbers == []
  {
    var arrived := Arrived(StubOutcomes(StubConfig(), ["/wrong"]), [0]);
    assert "/wrong" !in StubConfig();
    assert !Succeeded(arrived[0]);
    var first := arrived[..Received(1, 1, cut)];
    assert forall i :: 0 <= i < |first| ==> !Succeeded(first[i]);
    assert SuccessfulNumbers(first) == {};
    StrictlyAscendingUnique(numbers, []);
  }
}

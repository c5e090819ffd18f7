# go-numbers: the number-aggregation core, in Dafny

`go-numbers` serves `/numbers?u=<url>&u=<url>...`. It fetches a list of
integers from every URL concurrently. It waits until every source has
answered or a 500 ms budget runs out. It then returns the union of the
integers it received, sorted and without duplicates. This project models the
sequential logic of `numbers.go` and proves what it guarantees:

- `NumberSet` (`number_set.dfy`): the `map[int]struct{}` set. `IntSet.Add` is
  `setAdd`. `IntSet.ToArray` is `setToArray`, which appends the keys in map
  order and sorts them in place with `SortInts` (Go's `sort.Ints`). The module
  also holds the facts about ascending sequences: a strictly ascending sequence
  is determined by its elements.
- `Collect` (`collect.dfy`): `collectNumbers`. The channel is modelled by the
  sequence of batches in arrival order. The context is modelled by a `Cutoff`:
  `Never`, or `After(k)`, meaning `ctx.Done()` wins the `select` once `k`
  batches have been received, whether the budget ran out or the client went
  away. When fewer than `k` batches are offered, the context fires while the
  collector waits for the next one. `Received` is the number of batches the
  loop takes. `Union` is the union of a sequence of batches.
- `Fetch` (`fetch.dfy`): the classification in `fetchNumbers`. A getter
  result is the triple `Fetched(numbers, status, err)`. `Forward` is the batch
  sent to the collector: the numbers when `err` is nil and the status is
  200, otherwise an empty batch.
- `Handler` (`handler.dfy`): `makeNumbersHandler`. Every fetch calls the getter
  on its own, so the getter's results are a parameter with one result per URL
  position. Two positions with the same URL may get different answers. The
  concurrent fetches are represented by the order in which
  their outcomes reach the collector, which is a permutation of the URL
  positions. The collector is called with `expected = len(urls)`.

The integers are only compared, never computed with, so Go's 64-bit `int`
is modelled by Dafny's `int`. The same holds for the count `expected`:
it starts at `len(urls)` and only goes down.

## Model

| member | source | states |
|---|---|---|
| `NumberSet.IntSet.constructor` | numbers.go:78 | A new set has no keys. |
| `NumberSet.IntSet.Add` | numbers.go:20-24 | Afterwards the set holds the old keys and the given values, and nothing else. Values already present, or repeated in the argument, change nothing. |
| `NumberSet.IntSet.ToArray` | numbers.go:26-33 | The result is strictly ascending. Its elements are exactly the set's keys, with one entry per key. An empty set gives an empty result. |
| `NumberSet.SortInts` | numbers.go:31 | The slice is sorted in non-decreasing order in place, and is a permutation of what it held before. |
| `NumberSet.AscendingDistinctIsStrict` | numbers.go:28-31 | Sorting keys that are pairwise distinct produces a strictly ascending sequence. |
| `NumberSet.StrictlyAscendingUnique` | numbers.go:28-31 | Two strictly ascending sequences with the same elements are equal. So the sorted result does not depend on the map's iteration order. |
| `Collect.Received` | numbers.go:79-88 | The number of batches received is at most the number offered and at most `expected`. It is 0 when `expected <= 0`. It equals `expected` when the context never fires. It is at most the cut-off when the context fires. |
| `Collect.CollectNumbers` | numbers.go:77-91 | The result is strictly ascending. Its elements are exactly the integers of the first `Received(expected, ...)` batches: the batches taken before the count reached 0 or the context fired. |
| `Collect.UnionMembership` | numbers.go:81-84 | An integer is in the merged set exactly when some received batch contains it. |
| `Collect.UnionPermutation` | numbers.go:80-84 | Arrival order does not matter: the same batches in any order give the same union. |
| `Collect.UnionRepeated` | numbers.go:84 | Merging is idempotent: receiving the same batches again adds nothing. |
| `Collect.UnionGrows` | numbers.go:85-87 | Nothing received is lost. The union of the first `k` batches is contained in the union of any longer prefix. |
| `Collect.CollectAll` | numbers.go:79-84 | If the context never fires and `expected` batches are offered, every batch is merged, in whatever order they came. |
| `Collect.CollectCut` | numbers.go:85-87 | If the context fires after `k` batches, with `k` at most `expected` and at most the batches offered, exactly those `k` batches are merged. |
| `Collect.CollectNothing` | numbers.go:79 | With `expected == 0` nothing is received and the result is empty, whatever the cut-off. |
| `Collect.CollectExamples` | numbers_test.go:145-179 | [1,3],[2] gives [1,2,3]. [9,1],[1],[5,1,42] gives [1,5,9,42]. [1],[1] gives [1]. |
| `Collect.CollectCancelledExample` | numbers_test.go:181-187 | With `expected = 999`, receiving [1,2] and [0,0] before the context fires gives [0,1,2]. |
| `Fetch.Forward` | numbers.go:95-102 | The getter's numbers are forwarded when there is no error and the status is 200. Any other outcome forwards an empty batch. |
| `Fetch.Forwarded` | numbers.go:103-106 | Every outcome produces exactly one batch, including failed ones. |
| `Fetch.ForwardedUnion` | numbers.go:95-106 | The union of the forwarded batches is exactly the numbers of the sources that succeeded. A failed source contributes nothing. |
| `Handler.HandleRequest` | numbers.go:112-122 | The response numbers are strictly ascending. They are exactly the numbers of the successful URL positions, each with its own getter result, among those whose outcome reached the collector before the budget ran out. The count is `len(urls)`. |
| `Handler.HandleAllInTime` | numbers.go:119-122 | If every fetch finishes within the budget, the response holds the numbers of every successful source, whatever order the fetches finished in. |
| `Handler.HandleNoUrls` | numbers.go:116-122 | With no `u` parameter the response is empty. |
| `Handler.StubOutcomes` | numbers_test.go:215-217 | The in-memory getter's answer for every URL position of a request, one per position. |
| `Handler.StubGet` | numbers_test.go:132-140 | The in-memory getter used for the examples. A configured URL answers its numbers with status 200. Any other URL answers 404. |
| `Handler.HandleTwoSourcesExample` | numbers_test.go:212 | Sources /test1 and /test2 give [1,2,3,4,5,6]. |
| `Handler.HandleDeadlineExample` | numbers_test.go:213 | /test3 to /test6 finish in that order and the budget expires before /test6 arrives. The response is [1,2,11,12,101,102]. |
| `Handler.HandleUnknownSourceExample` | numbers_test.go:210 | A single URL that answers 404 gives an empty response. |

## Left out

- `NumbersGetterHttp.get` (HTTP request, network I/O, reading the body, JSON decoding): foreign calls. A getter is modelled only by its results, the triples `Fetched(numbers, status, err)`. The handler receives one triple per URL position.
- `makeHttpNumbersHandler` and `main`: server bootstrap.
- Query-string parsing, JSON encoding of the response, writing it, and the timing log in the handler: I/O. The handler takes the list of URLs directly and returns the numbers.
- Goroutine fan-out, the unbuffered channel, and the `select` in `fetchNumbers` that races the send against `ctx.Done()`: concurrency. A send that loses to cancellation is a batch the collector never receives. The model represents it by the collector stopping at the cut-off.
- The 500 ms `context.WithTimeout`, the cancellation of the request's own context (for example when the client closes the connection, numbers.go:110-111 and 118), and the latencies of the test stubs: wall-clock time and external events. They are represented only by the arrival order and the `Cutoff`, which stands for either cause of cancellation.
- `log` calls: diagnostics only.
- `SortInts`: the algorithm of Go's `sort.Ints` is not modelled. An insertion sort with the same contract (in place, ascending, a permutation) stands in for it.
- `NumberSet.IntSet.ToArray`: Go returns a nil slice for an empty set, and JSON encodes that as `null`, not `[]`. The model returns the empty sequence, because a `seq<int>` cannot tell nil from empty. The collector-level test compares element by element and accepts either form (numbers_test.go:45-55,176). The handler-level tests compare the decoded response with `reflect.DeepEqual` against a nil slice (numbers_test.go:109,210,249). They depend on the `null` encoding, which this model cannot express.
- `Collect.CollectNumbers`: requires that a collector whose context never fires is offered at least `expected` batches. Otherwise the Go loop blocks for ever, which the model does not represent.
- Map iteration order in `setToArray` is unspecified in Go. The model picks an arbitrary remaining key at each step.
- `makeNumbersHandler` discards the cancel function returned by `context.WithTimeout` (numbers.go:118). Fetches still running when collection ends stop when the 500 ms timeout fires or when the request's own context is cancelled, for example because the client closed the connection (numbers.go:110-111). This is concurrency and is not modelled.

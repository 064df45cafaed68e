/**
 * The Bounded Executor, `eachWithConcurrency`: `min(max(1, c), n)` workers
 * share one cursor; each worker takes the next index, runs the callback on
 * it to completion, and takes the next, until the cursor has run past the
 * list.
 *
 * The interleaving of the workers is the one thing the code does not fix:
 * which worker's callback completes next is decided by the callbacks
 * themselves. It is an input here, `schedule`, the worker chosen at each
 * completion (a choice that names no busy worker falls to the first busy
 * one). The outcome is the log of what the workers did, so that every
 * interleaving can be reasoned about.
 */
module BoundedExecutor {
  import opened Wrappers
  import opened MinMax

  datatype Event =
    | Start(worker: nat, index: nat)   // the worker calls fn(list[index], index)
    | Finish(worker: nat, index: nat)  // that call has completed
    | Stop(worker: nat)                // the worker found the cursor past the end and left the loop

  /** How many workers are started for `n` items at concurrency `c`. */
  function WorkerCount(n: nat, concurrency: int): (k: nat)
    ensures n == 0 ==> k == 0
    ensures n > 0 ==> 1 <= k <= n && k <= Max(1, concurrency)
    ensures n > 0 && 1 <= concurrency <= n ==> k == concurrency
    // more workers than items are never started, and a concurrency below one still starts one
    ensures n > 0 && concurrency >= n ==> k == n
    ensures n > 0 && concurrency <= 1 ==> k == 1
  {
    if n == 0 then 0 else Min(Max(1, concurrency), n)
  }

  /** 0, 1, ..., m - 1. */
  function Upto(m: nat): (r: seq<nat>)
    ensures |r| == m && forall i :: 0 <= i < m ==> r[i] == i
  {
    if m == 0 then [] else Upto(m - 1) + [m - 1]
  }

  /** The indices handed out, in the order the callbacks were started. */
  function Started(ev: seq<Event>): seq<nat> {
    if ev == [] then []
    else Started(ev[..|ev| - 1]) + (if ev[|ev| - 1].Start? then [ev[|ev| - 1].index] else [])
  }

  function Delta(e: Event): int {
    match e
    case Start(_, _) => 1
    case Finish(_, _) => -1
    case Stop(_) => 0
  }

  /** Callbacks started and not yet completed. */
  function InFlight(ev: seq<Event>): int {
    if ev == [] then 0 else InFlight(ev[..|ev| - 1]) + Delta(ev[|ev| - 1])
  }

  /** Callbacks of worker `w` started and not yet completed. */
  function InFlightOf(ev: seq<Event>, w: nat): int {
    if ev == [] then 0
    else InFlightOf(ev[..|ev| - 1], w) + (if ev[|ev| - 1].worker == w then Delta(ev[|ev| - 1]) else 0)
  }

  /** At every point of the log: at most `k` callbacks in flight, at most one per worker. */
  ghost predicate Bounded(ev: seq<Event>, k: nat) {
    forall p :: 0 <= p <= |ev| ==>
      InFlight(ev[..p]) <= k && forall w: nat :: InFlightOf(ev[..p], w) <= 1
  }

  /** Every event of the log comes from one of the first `k` workers. */
  ghost predicate WorkersBelow(ev: seq<Event>, k: nat) {
    forall j :: 0 <= j < |ev| ==> ev[j].worker < k
  }

  function BusyCount(busy: seq<Option<nat>>): (c: nat)
    ensures c <= |busy|
  {
    if busy == [] then 0 else (if busy[0].Some? then 1 else 0) + BusyCount(busy[1..])
  }

  lemma {:induction false} BusyCountUpdate(busy: seq<Option<nat>>, w: nat, x: Option<nat>)
    requires w < |busy|
    ensures BusyCount(busy[w := x])
         == BusyCount(busy) - (if busy[w].Some? then 1 else 0) + (if x.Some? then 1 else 0)
  {
    if w > 0 {
      assert busy[w := x][1..] == busy[1..][w - 1 := x];
      BusyCountUpdate(busy[1..], w - 1, x);
    } else {
      assert busy[w := x][1..] == busy[1..];
    }
  }

  lemma {:induction false} BusyCountAllSome(busy: seq<Option<nat>>)
    requires forall w :: 0 <= w < |busy| ==> busy[w].Some?
    ensures BusyCount(busy) == |busy|
  {
    if busy != [] {
      BusyCountAllSome(busy[1..]);
    }
  }

  /** The first busy worker. */
  function FirstBusy(busy: seq<Option<nat>>): (w: nat)
    requires BusyCount(busy) > 0
    ensures w < |busy| && busy[w].Some?
  {
    if busy[0].Some? then 0 else 1 + FirstBusy(busy[1..])
  }

  /** Appending one event moves the counters by that event only. */
  lemma AppendCounters(ev: seq<Event>, e: Event)
    ensures InFlight(ev + [e]) == InFlight(ev) + Delta(e)
    ensures forall w: nat :: InFlightOf(ev + [e], w) == InFlightOf(ev, w) + (if e.worker == w then Delta(e) else 0)
    ensures Started(ev + [e]) == Started(ev) + (if e.Start? then [e.index] else [])
  {
    var ev' := ev + [e];
    assert ev'[..|ev'| - 1] == ev;
  }

  /** Appending one event that keeps within the bounds: earlier prefixes stay as they were. */
  lemma Append(ev: seq<Event>, e: Event, k: nat)
    requires Bounded(ev, k)
    requires InFlight(ev) + Delta(e) <= k
    requires forall w: nat :: InFlightOf(ev, w) + (if e.worker == w then Delta(e) else 0) <= 1
    ensures Bounded(ev + [e], k)
    ensures InFlight(ev + [e]) == InFlight(ev) + Delta(e)
    ensures forall w: nat :: InFlightOf(ev + [e], w) == InFlightOf(ev, w) + (if e.worker == w then Delta(e) else 0)
    ensures Started(ev + [e]) == Started(ev) + (if e.Start? then [e.index] else [])
  {
    AppendCounters(ev, e);
    var ev' := ev + [e];
    forall p | 0 <= p <= |ev'|
      ensures InFlight(ev'[..p]) <= k && forall w: nat :: InFlightOf(ev'[..p], w) <= 1
    {
      if p <= |ev| {
        assert ev'[..p] == ev[..p];
      } else {
        assert ev'[..p] == ev';
      }
    }
  }

  /** Each worker runs synchronously up to its first await: worker w takes index w. */
  method StartWorkers(k: nat) returns (events: seq<Event>, busy: seq<Option<nat>>)
    ensures |busy| == k && |events| == k
    ensures forall w :: 0 <= w < k ==> busy[w] == Some(w) && events[w] == Start(w, w)
    ensures Started(events) == Upto(k)
    ensures Bounded(events, k) && InFlight(events) == k
    ensures forall w: nat :: InFlightOf(events, w) == (if w < k then 1 else 0)
  {
    events, busy := [], [];
    assert events[..0] == [];
    var cursor := 0;
    while cursor < k
      invariant cursor <= k && |busy| == cursor && |events| == cursor
      invariant forall w :: 0 <= w < cursor ==> busy[w] == Some(w) && events[w] == Start(w, w)
      invariant Started(events) == Upto(cursor)
      invariant Bounded(events, k) && InFlight(events) == cursor
      invariant forall w: nat :: InFlightOf(events, w) == (if w < cursor then 1 else 0)
    {
      Append(events, Start(cursor, cursor), k);
      events := events + [Start(cursor, cursor)];
      busy := busy + [Some(cursor)];
      cursor := cursor + 1;
    }
  }

  method EachWithConcurrency(n: nat, concurrency: int, schedule: seq<nat>) returns (events: seq<Event>)
    // every index 0..n-1 is handed to the callback exactly once, in increasing order
    ensures Started(events) == Upto(n)
    // with an empty list nothing is started
    ensures n == 0 ==> events == []
    // the workers are 0 .. WorkerCount - 1, and the first of them all start at once
    ensures WorkersBelow(events, WorkerCount(n, concurrency))
    ensures forall w :: 0 <= w < WorkerCount(n, concurrency) ==> |events| > w && events[w] == Start(w, w)
    // never more callbacks in flight than workers, never two for one worker
    ensures Bounded(events, WorkerCount(n, concurrency))
    // every callback has completed when the executor returns
    ensures InFlight(events) == 0
    ensures forall w: nat :: InFlightOf(events, w) == 0
  {
    events := [];
    if n == 0 {
      return;
    }
    var k := WorkerCount(n, concurrency);
    var busy: seq<Option<nat>>;
    events, busy := StartWorkers(k);
    RunningAtStart(events, busy, n, k);
    var cursor: nat;
    events, busy, cursor := Drain(events, busy, k, n, k, schedule);
    RunningDone(events, busy, cursor, n, k);
  }

  /** The workers' loops, from the given state until no worker is busy any more. */
  method Drain(events0: seq<Event>, busy0: seq<Option<nat>>, cursor0: nat, n: nat, k: nat, schedule: seq<nat>)
    returns (events: seq<Event>, busy: seq<Option<nat>>, cursor: nat)
    requires Running(events0, busy0, cursor0, n, k)
    ensures Running(events, busy, cursor, n, k) && BusyCount(busy) == 0
  {
    events, busy, cursor := events0, busy0, cursor0;
    var step := 0;
    while BusyCount(busy) > 0
      invariant Running(events, busy, cursor, n, k)
      decreases n + k - cursor
    {
      var pick := if step < |schedule| then schedule[step] else 0;
      var w := if pick < k && busy[pick].Some? then pick else FirstBusy(busy);
      step := step + 1;
      // the callback of worker w completes, then `const index = cursor++`: past the end the worker stops
      var done := Finish(w, busy[w].value);
      var next := if cursor >= n then None else Some(cursor);
      var e := if cursor >= n then Stop(w) else Start(w, cursor);
      StepKeepsRunning(events, busy, cursor, n, k, w, done, e, next);
      events := events + [done] + [e];
      busy := busy[w := next];
      cursor := cursor + 1;
    }
  }

  lemma RunningAtStart(events: seq<Event>, busy: seq<Option<nat>>, n: nat, k: nat)
    requires 1 <= k <= n && |busy| == k && |events| == k
    requires forall w :: 0 <= w < k ==> busy[w] == Some(w) && events[w] == Start(w, w)
    requires Started(events) == Upto(k)
    requires Bounded(events, k) && InFlight(events) == k
    requires forall w: nat :: InFlightOf(events, w) == (if w < k then 1 else 0)
    ensures Running(events, busy, k, n, k)
  {
    BusyCountAllSome(busy);
  }

  /** When no worker is busy any more the cursor has run past the list and every callback has completed. */
  lemma RunningDone(events: seq<Event>, busy: seq<Option<nat>>, cursor: nat, n: nat, k: nat)
    requires Running(events, busy, cursor, n, k) && BusyCount(busy) == 0
    ensures Started(events) == Upto(n)
    ensures WorkersBelow(events, k) && forall w :: 0 <= w < k ==> |events| > w && events[w] == Start(w, w)
    ensures Bounded(events, k)
    ensures InFlight(events) == 0 && forall w: nat :: InFlightOf(events, w) == 0
  {
    BusyCountZero(busy);
  }

  /** What holds of the log while the workers run, with `busy[w]` the index worker w is on. */
  ghost predicate Running(events: seq<Event>, busy: seq<Option<nat>>, cursor: nat, n: nat, k: nat) {
    && CountsOk(busy, cursor, n, k)
    && PrefixOk(events, k)
    && Started(events) == Upto(Min(cursor, n))
    && FlightOk(events, busy, k)
  }

  ghost predicate CountsOk(busy: seq<Option<nat>>, cursor: nat, n: nat, k: nat) {
    && 1 <= k <= n && k <= cursor && |busy| == k
    && cursor + BusyCount(busy) <= n + k
    && (cursor <= n ==> BusyCount(busy) == k)
    && (forall w :: 0 <= w < k && busy[w].Some? ==> busy[w].value < n)
  }

  /** The log opens with every worker starting on its own index, and names no other worker. */
  ghost predicate PrefixOk(events: seq<Event>, k: nat) {
    && |events| >= k
    && (forall w :: 0 <= w < k ==> events[w] == Start(w, w))
    && WorkersBelow(events, k)
  }

  ghost predicate FlightOk(events: seq<Event>, busy: seq<Option<nat>>, k: nat)
    requires |busy| == k
  {
    && Bounded(events, k) && InFlight(events) == BusyCount(busy)
    && (forall w: nat :: InFlightOf(events, w) == (if w < k && busy[w].Some? then 1 else 0))
  }

  /** One completion: worker w finishes its callback and takes the next index or stops. */
  lemma StepKeepsRunning(events: seq<Event>, busy: seq<Option<nat>>, cursor: nat, n: nat, k: nat, w: nat,
                          done: Event, e: Event, next: Option<nat>)
    requires Running(events, busy, cursor, n, k)
    requires w < k && busy[w].Some? && done == Finish(w, busy[w].value)
    requires next == (if cursor >= n then None else Some(cursor))
    requires e == (if cursor >= n then Stop(w) else Start(w, cursor))
    ensures Running(events + [done] + [e], busy[w := next], cursor + 1, n, k)
  {
    StepCounts(busy, cursor, n, k, w);
    StepPrefix(events, k, done, e);
    StepStarted(events, cursor, n, done, e);
    StepFlight(events, busy, k, w, done, e, next);
  }

  lemma StepCounts(busy: seq<Option<nat>>, cursor: nat, n: nat, k: nat, w: nat)
    requires CountsOk(busy, cursor, n, k) && w < k && busy[w].Some?
    ensures CountsOk(busy[w := if cursor >= n then None else Some(cursor)], cursor + 1, n, k)
  {
    BusyCountUpdate(busy, w, if cursor >= n then None else Some(cursor));
  }

  lemma StepPrefix(events: seq<Event>, k: nat, done: Event, e: Event)
    requires PrefixOk(events, k) && done.worker < k && e.worker < k
    ensures PrefixOk(events + [done] + [e], k)
  {
    var ev' := events + [done] + [e];
    assert forall j :: 0 <= j < |events| ==> ev'[j] == events[j];
  }

  lemma StepStarted(events: seq<Event>, cursor: nat, n: nat, done: Event, e: Event)
    requires Started(events) == Upto(Min(cursor, n))
    requires done.Finish?
    requires cursor < n ==> e == Start(e.worker, cursor)
    requires cursor >= n ==> e.Stop?
    ensures Started(events + [done] + [e]) == Upto(Min(cursor + 1, n))
  {
    var ev1 := events + [done];
    assert ev1[..|ev1| - 1] == events;
    var ev' := ev1 + [e];
    assert ev'[..|ev'| - 1] == ev1;
    assert Started(ev1) == Started(events);
    if cursor < n {
      assert Started(ev') == Upto(cursor) + [cursor];
    } else {
      assert Started(ev') == Started(events);
    }
  }

  lemma StepFlight(events: seq<Event>, busy: seq<Option<nat>>, k: nat, w: nat,
                   done: Event, e: Event, next: Option<nat>)
    requires |busy| == k && FlightOk(events, busy, k)
    requires w < k && busy[w].Some? && done == Finish(w, busy[w].value)
    requires e.worker == w && !e.Finish? && (e.Start? <==> next.Some?)
    ensures FlightOk(events + [done] + [e], busy[w := next], k)
  {
    var ev1 := events + [done];
    Append(events, done, k);
    forall v: nat ensures InFlightOf(ev1, v) + (if e.worker == v then Delta(e) else 0) <= 1 {
      assert InFlightOf(ev1, v) == InFlightOf(events, v) + (if w == v then -1 else 0);
    }
    assert InFlight(ev1) + Delta(e) <= k by {
      assert BusyCount(busy) <= k;
    }
    Append(ev1, e, k);
    BusyCountUpdate(busy, w, next);
  }

  lemma {:induction false} BusyCountZero(busy: seq<Option<nat>>)
    requires BusyCount(busy) == 0
    ensures forall w :: 0 <= w < |busy| ==> busy[w].None?
  {
    if busy != [] {
      BusyCountZero(busy[1..]);
      assert forall w :: 1 <= w < |busy| ==> busy[w] == busy[1..][w - 1];
    }
  }
}

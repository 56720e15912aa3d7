/**
 * The sequential asynchronous processor runner of the policy engine
 * (AsyncProcessorRunnerDecorator). It holds a fixed collection of async
 * processors and, for one item, awaits each processor in turn before starting
 * the next. An await is modelled as one atomic step; a processor whose task
 * faults makes the exception propagate out of the loop.
 */
module ProcessorRunners {
  import opened Wrappers

  /** The exception a faulted processor task carries (opaque here). */
  type Exception = string

  /** How one awaited `ProcessAsync(item)` ends: the task ran to completion, or it
      faulted. Either way the processor may already have changed the item, so
      both outcomes carry the item's state afterwards. */
  datatype Step<S> = Done(next: S) | Threw(error: Exception, next: S)

  /** A caller-supplied async processor, seen only through what it does to the item. */
  datatype AsyncProcessor<!S> = AsyncProcessor(processAsync: S -> Step<S>)

  /** What the runner can observe at its await points, processor by processor. */
  datatype Event = Start(index: nat) | Complete(index: nat) | Fault(index: nat)

  /** The processor (by position in the collection) whose exception propagated. */
  datatype Failure = Failure(index: nat, error: Exception)

  /** The result of running a collection over an item: its final state, the
      propagated failure if any, and the events in the order they happened. */
  datatype Execution<S> = Execution(state: S, failure: Option<Failure>, trace: seq<Event>)

  /** The item state and failure without the trace. */
  datatype Outcome<S> = Outcome(state: S, failure: Option<Failure>)

  /** The shared, mutable item the processors work on. */
  class Item<S> {
    var state: S

    constructor (state: S)
      ensures this.state == state
    {
      this.state := state;
    }
  }

  /**
   * Running `ps` in order on state `s`, defined prefix by prefix: the run of
   * `ps` is the run of all but the last processor, followed (unless that run
   * already failed) by one await of the last processor on the state it left.
   */
  function Execute<S>(ps: seq<AsyncProcessor<S>>, s: S): (x: Execution<S>)
    ensures x.failure.Some? ==> x.failure.value.index < |ps|
    decreases |ps|
  {
    if ps == [] then Execution(s, None, [])
    else
      var last := |ps| - 1;
      var before := Execute(ps[..last], s);
      if before.failure.Some? then before
      else match ps[last].processAsync(before.state)
        case Done(t) => Execution(t, None, before.trace + [Start(last), Complete(last)])
        case Threw(e, t) => Execution(t, Some(Failure(last, e)), before.trace + [Start(last), Fault(last)])
  }

  /** The positions of the processors started along a trace, in start order. */
  function Invoked(t: seq<Event>): seq<nat>
  {
    if t == [] then []
    else Invoked(t[..|t| - 1]) + (if t[|t| - 1].Start? then [t[|t| - 1].index] else [])
  }

  /** Processors started but not yet finished at the end of a trace. */
  function InFlight(t: seq<Event>): int
  {
    if t == [] then 0
    else InFlight(t[..|t| - 1]) + (if t[|t| - 1].Start? then 1 else -1)
  }

  /** The positions 0, 1, ..., n - 1 in increasing order. */
  function Range(n: nat): (r: seq<nat>)
    ensures |r| == n
    ensures forall i :: 0 <= i < n ==> r[i] == i
  {
    if n == 0 then [] else Range(n - 1) + [n - 1]
  }

  /** A failure reported by a later part of a collection, renumbered to its place
      in the whole collection. */
  function ShiftFailure(f: Option<Failure>, offset: nat): Option<Failure>
  {
    match f
    case None => None
    case Some(Failure(i, e)) => Some(Failure(i + offset, e))
  }

  /**
   * Independent reference definition: the left-to-right composition of the
   * processors, applying the head first and then the rest to the state it left.
   */
  function Compose<S>(ps: seq<AsyncProcessor<S>>, s: S): Outcome<S>
    decreases |ps|
  {
    if ps == [] then Outcome(s, None)
    else match ps[0].processAsync(s)
      case Threw(e, t) => Outcome(t, Some(Failure(0, e)))
      case Done(t) =>
        var rest := Compose(ps[1..], t);
        Outcome(rest.state, ShiftFailure(rest.failure, 1))
  }

  class AsyncProcessorRunnerDecorator<S, R> {
    /** The inner runner handed to the base decorator; opaque here. */
    const asyncProcessorRunner: R
    /** The configured processors; read-only after construction. */
    const asyncProcessors: seq<AsyncProcessor<S>>

    constructor (asyncProcessorRunner: R, asyncProcessors: seq<AsyncProcessor<S>>)
      ensures this.asyncProcessorRunner == asyncProcessorRunner
      ensures this.asyncProcessors == asyncProcessors
    {
      this.asyncProcessorRunner := asyncProcessorRunner;
      this.asyncProcessors := asyncProcessors;
    }

    /**
     * Awaits each configured processor on the item, in order, and stops at the
     * first one whose task faults, returning its failure. Also returns the
     * events of the run. Only the item changes; the collection is a constant.
     */
    method RunProcessors(item: Item<S>) returns (failure: Option<Failure>, trace: seq<Event>)
      modifies item
      ensures Execution(item.state, failure, trace) == Execute(asyncProcessors, old(item.state))
      ensures asyncProcessors == [] ==> item.state == old(item.state) && failure == None && trace == []
    {
      ghost var s0 := item.state;
      failure, trace := None, [];
      var i := 0;
      while i < |asyncProcessors|
        invariant 0 <= i <= |asyncProcessors|
        invariant Execute(asyncProcessors[..i], s0) == Execution(item.state, None, trace)
      {
        assert asyncProcessors[..i + 1][..i] == asyncProcessors[..i];
        var step := asyncProcessors[i].processAsync(item.state);
        item.state := step.next;
        match step {
          case Done(_) =>
            trace := trace + [Start(i), Complete(i)];
          case Threw(e, _) =>
            trace := trace + [Start(i), Fault(i)];
            failure := Some(Failure(i, e));
            FailureIsFinal(asyncProcessors[..i + 1], asyncProcessors[i + 1..], s0);
            assert asyncProcessors[..i + 1] + asyncProcessors[i + 1..] == asyncProcessors;
            return;
        }
        i := i + 1;
      }
      assert asyncProcessors[..i] == asyncProcessors;
    }
  }

  // ---------------------------------------------------------------------------
  // Properties of a run
  // ---------------------------------------------------------------------------

  /** Once a run has failed, further processors neither run nor change anything. */
  lemma {:induction false} FailureIsFinal<S>(ps: seq<AsyncProcessor<S>>, qs: seq<AsyncProcessor<S>>, s: S)
    requires Execute(ps, s).failure.Some?
    ensures Execute(ps + qs, s) == Execute(ps, s)
    decreases |qs|
  {
    if qs != [] {
      var front := qs[..|qs| - 1];
      assert (ps + qs)[..|ps + qs| - 1] == ps + front;
      FailureIsFinal(ps, front, s);
    } else {
      assert ps + qs == ps;
    }
  }

  lemma InvokedAppend(t: seq<Event>, a: Event, b: Event)
    requires !b.Start?
    ensures Invoked(t + [a, b]) == Invoked(t) + (if a.Start? then [a.index] else [])
  {
    assert (t + [a, b])[..|t| + 1] == t + [a];
    assert (t + [a])[..|t|] == t;
  }

  /**
   * The processors are started in the order of the collection, each exactly
   * once: all of them when none fails, and when one fails, exactly those up to
   * and including the one that failed.
   */
  lemma {:induction false} InvokedInOrder<S>(ps: seq<AsyncProcessor<S>>, s: S)
    ensures Execute(ps, s).failure.None? ==> Invoked(Execute(ps, s).trace) == Range(|ps|)
    ensures Execute(ps, s).failure.Some? ==>
      Invoked(Execute(ps, s).trace) == Range(Execute(ps, s).failure.value.index + 1)
    decreases |ps|
  {
    if ps != [] {
      var last := |ps| - 1;
      var before := Execute(ps[..last], s);
      InvokedInOrder(ps[..last], s);
      if before.failure.None? {
        match ps[last].processAsync(before.state)
        case Done(t) => InvokedAppend(before.trace, Start(last), Complete(last));
        case Threw(e, t) => InvokedAppend(before.trace, Start(last), Fault(last));
      }
    }
  }

  /** After a failure in processor `k`, no later processor is started. */
  lemma NoProcessorAfterFailure<S>(ps: seq<AsyncProcessor<S>>, s: S, j: nat)
    requires Execute(ps, s).failure.Some?
    requires Execute(ps, s).failure.value.index < j
    ensures j !in Invoked(Execute(ps, s).trace)
  {
    InvokedInOrder(ps, s);
  }

  lemma InFlightAppend(t: seq<Event>, a: Event)
    ensures InFlight(t + [a]) == InFlight(t) + (if a.Start? then 1 else -1)
  {
    assert (t + [a])[..|t|] == t;
  }

  /**
   * A processor starts only after the previous one's task has finished: at
   * every point of the run at most one processor is in flight, and when the run
   * ends none is.
   */
  lemma {:induction false} AtMostOneInFlight<S>(ps: seq<AsyncProcessor<S>>, s: S)
    ensures forall j :: 0 <= j <= |Execute(ps, s).trace| ==> 0 <= InFlight(Execute(ps, s).trace[..j]) <= 1
    ensures InFlight(Execute(ps, s).trace) == 0
    decreases |ps|
  {
    if ps != [] {
      var last := |ps| - 1;
      var before := Execute(ps[..last], s);
      AtMostOneInFlight(ps[..last], s);
      if before.failure.None? {
        var t := before.trace;
        var a := Start(last);
        var b := match ps[last].processAsync(before.state)
          case Done(_) => Complete(last)
          case Threw(_, _) => Fault(last);
        var x := Execute(ps, s).trace;
        assert x == t + [a, b];
        assert t + [a, b] == (t + [a]) + [b];
        InFlightAppend(t, a);
        InFlightAppend(t + [a], b);
        forall j | 0 <= j <= |x|
          ensures 0 <= InFlight(x[..j]) <= 1
        {
          if j <= |t| {
            assert x[..j] == t[..j];
          } else if j == |t| + 1 {
            assert x[..j] == t + [a];
          } else {
            assert x[..j] == x;
          }
        }
        assert x[..|x|] == x;
      }
    }
  }

  /** The trace of `n` processors whose tasks all ran to completion, one after
      the other: start 0, complete 0, start 1, complete 1, ... */
  function Pairs(n: nat): (r: seq<Event>)
    ensures |r| == 2 * n
    ensures forall j :: 0 <= j < |r| ==> r[j] == if j % 2 == 0 then Start(j / 2) else Complete(j / 2)
  {
    if n == 0 then [] else Pairs(n - 1) + [Start(n - 1), Complete(n - 1)]
  }

  /**
   * The trace in closed form: with no failure every processor is started and
   * completes before the next one starts; when processor `k` faults, every
   * processor before it has completed normally, then `k` starts and faults.
   */
  lemma {:induction false} TraceShape<S>(ps: seq<AsyncProcessor<S>>, s: S)
    ensures Execute(ps, s).failure.None? ==> Execute(ps, s).trace == Pairs(|ps|)
    ensures Execute(ps, s).failure.Some? ==>
      var k := Execute(ps, s).failure.value.index;
      Execute(ps, s).trace == Pairs(k) + [Start(k), Fault(k)]
    decreases |ps|
  {
    if ps != [] {
      TraceShape(ps[..|ps| - 1], s);
    }
  }

  /**
   * A processor starts only after its predecessor's task has finished: the
   * run starts with processor 0, every completion or fault directly follows
   * the start of the same processor, and every later start directly follows
   * the normal completion of the processor before it.
   */
  lemma {:induction false} OneAtATime<S>(ps: seq<AsyncProcessor<S>>, s: S)
    ensures var t := Execute(ps, s).trace;
      |t| > 0 ==> t[0] == Start(0)
    ensures var t := Execute(ps, s).trace;
      forall j :: 0 <= j < |t| && !t[j].Start? ==> 0 < j && t[j - 1] == Start(t[j].index)
    ensures var t := Execute(ps, s).trace;
      forall j :: 0 < j < |t| && t[j].Start? ==> 0 < t[j].index && t[j - 1] == Complete(t[j].index - 1)
  {
    TraceShape(ps, s);
    var x := Execute(ps, s);
    if x.failure.None? {
      assert x.trace == Pairs(|ps|) + [];
      SequentialShape(|ps|, []);
    } else {
      var k := x.failure.value.index;
      SequentialShape(k, [Start(k), Fault(k)]);
    }
  }

  /** The one-at-a-time ordering of a trace made of completed pairs, possibly
      followed by the start and fault of the next processor. */
  lemma {:induction false} SequentialShape(n: nat, tail: seq<Event>)
    requires tail == [] || tail == [Start(n), Fault(n)]
    ensures var t := Pairs(n) + tail;
      |t| > 0 ==> t[0] == Start(0)
    ensures var t := Pairs(n) + tail;
      forall j :: 0 <= j < |t| && !t[j].Start? ==> 0 < j && t[j - 1] == Start(t[j].index)
    ensures var t := Pairs(n) + tail;
      forall j :: 0 < j < |t| && t[j].Start? ==> 0 < t[j].index && t[j - 1] == Complete(t[j].index - 1)
  {
    var p := Pairs(n);
    var t := p + tail;
    if |t| > 0 {
      if |p| > 0 { assert t[0] == p[0]; } else { assert n == 0; }
    }
    forall j | 0 <= j < |t| && !t[j].Start?
      ensures 0 < j && t[j - 1] == Start(t[j].index)
    {
      if j < |p| {
        assert t[j] == p[j] && j % 2 == 1;
        assert t[j - 1] == p[j - 1];
        assert (j - 1) % 2 == 0 && (j - 1) / 2 == j / 2;
      } else {
        assert j == |p| + 1;
      }
    }
    forall j | 0 < j < |t| && t[j].Start?
      ensures 0 < t[j].index && t[j - 1] == Complete(t[j].index - 1)
    {
      if j < |p| {
        assert t[j] == p[j] && j % 2 == 0;
        assert t[j - 1] == p[j - 1];
        assert (j - 1) % 2 == 1 && (j - 1) / 2 == j / 2 - 1;
      } else {
        assert j == |p| && t[j] == Start(n);
        assert t[j - 1] == p[|p| - 1];
        assert (|p| - 1) % 2 == 1 && (|p| - 1) / 2 == n - 1;
      }
    }
  }

  /** Running `p` first and then `ps` is `p` applied to the item, followed by a
      run of `ps` on the state `p` left, with `ps`'s positions shifted by one. */
  lemma {:induction false} ExecuteFront<S>(p: AsyncProcessor<S>, ps: seq<AsyncProcessor<S>>, s: S)
    ensures p.processAsync(s).Threw? ==>
      Execute([p] + ps, s).state == p.processAsync(s).next &&
      Execute([p] + ps, s).failure == Some(Failure(0, p.processAsync(s).error))
    ensures p.processAsync(s).Done? ==>
      Execute([p] + ps, s).state == Execute(ps, p.processAsync(s).next).state &&
      Execute([p] + ps, s).failure == ShiftFailure(Execute(ps, p.processAsync(s).next).failure, 1)
    decreases |ps|
  {
    if ps == [] {
      assert ([p] + ps)[..0] == [];
    } else {
      var last := |ps| - 1;
      assert ([p] + ps)[..|ps|] == [p] + ps[..last];
      assert ([p] + ps)[|ps|] == ps[last];
      ExecuteFront(p, ps[..last], s);
      if p.processAsync(s).Threw? {
        FailureIsFinal([p] + ps[..last], [ps[last]], s);
        assert [p] + ps[..last] + [ps[last]] == [p] + ps;
      }
    }
  }

  /**
   * The runner computes the left-to-right composition of the processors: each
   * processor sees the state left by its predecessors, and a failure reports
   * the position of the processor that faulted.
   */
  lemma {:induction false} ExecuteIsComposition<S>(ps: seq<AsyncProcessor<S>>, s: S)
    ensures Outcome(Execute(ps, s).state, Execute(ps, s).failure) == Compose(ps, s)
    decreases |ps|
  {
    if ps != [] {
      assert [ps[0]] + ps[1..] == ps;
      ExecuteFront(ps[0], ps[1..], s);
      match ps[0].processAsync(s)
      case Threw(e, t) =>
      case Done(t) => ExecuteIsComposition(ps[1..], t);
    }
  }

  /** A processor that adds one to a counter. */
  function Inc(): AsyncProcessor<int> { AsyncProcessor(x => Done(x + 1)) }

  /** A processor that doubles a counter. */
  function Double(): AsyncProcessor<int> { AsyncProcessor(x => Done(x * 2)) }

  /** Later processors observe earlier ones' changes: increment then double
      takes 1 to (1 + 1) * 2 = 4, not 1 * 2 + 1. */
  lemma IncrementThenDouble()
    ensures Execute([Inc(), Double()], 1) ==
      Execution(4, None, [Start(0), Complete(0), Start(1), Complete(1)])
  {
    assert [Inc(), Double()][..1] == [Inc()];
    assert [Inc()][..0] == [];
  }
}

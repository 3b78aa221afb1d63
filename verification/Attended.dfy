/** Queued frames must have somebody who will send them: the work handler that is scheduled, or a flush. */
module Attended {
  import opened Text
  import opened QueueMachine

  ghost predicate HasFlusher(s: State) {
    exists t :: t in s.threads && Flushing(s, t)
  }

  ghost predicate Tended(s: State) {
    s.queue != [] ==> s.work || HasFlusher(s)
  }

  /** No flush comes to its end with frames in the queue, which it does only when the link is closed to it. */
  ghost predicate EndsEmpty(s: State, steps: seq<Step>, d: Discipline)
    requires Legal(s, steps, d)
    decreases steps
  {
    steps == [] ||
    ((steps[0].FlushEnd? ==> s.queue == []) && EndsEmpty(Apply(s, steps[0]), steps[1..], d))
  }

  lemma StaysFlusher(s: State, s': State, t: nat)
    requires Tended(s) && (s'.queue != [] ==> s.queue != []) && s'.work == s.work
    requires (t in s.threads && Flushing(s, t)) ==> (t in s'.threads && Flushing(s', t))
    requires forall u :: u != t && u in s.threads ==> u in s'.threads && s'.threads[u] == s.threads[u]
    ensures Tended(s')
  {
    if s'.queue != [] && !s'.work {
      var u :| u in s.threads && Flushing(s, u);
      assert u in s'.threads && Flushing(s', u);
    }
  }

  lemma StepKeepsTended(s: State, step: Step)
    requires Enabled(s, step) && Tended(s) && (step.FlushEnd? ==> s.queue == [])
    ensures Tended(Apply(s, step))
  {
    var s' := Apply(s, step);
    match step {
      case PushBegin(t, _) => StaysFlusher(s, s', t);
      case Store(t) => assert s'.work || (t in s'.threads && Flushing(s', t));
      case WorkerBegin => assert WORKER in s'.threads && Flushing(s', WORKER);
      case Pop(t) => assert t in s'.threads && Flushing(s', t);
      case Requeue(_) => assert s'.work;
      case FlushEnd(_) => assert s'.queue == [];
      case ServiceStop =>
      case Disconnected =>
      case _ => StaysFlusher(s, s', 0);
    }
  }

  lemma {:induction false} RunKeepsTended(s: State, steps: seq<Step>, d: Discipline)
    requires Legal(s, steps, d) && Tended(s) && EndsEmpty(s, steps, d)
    ensures Tended(Run(s, steps, d))
    decreases steps
  {
    if steps != [] {
      StepKeepsTended(s, steps[0]);
      RunKeepsTended(Apply(s, steps[0]), steps[1..], d);
    }
  }

  lemma Then(steps: seq<Step>, step: Step, d: Discipline, s: State) returns (longer: seq<Step>, s': State)
    requires Legal(Start, steps, d) && s == Run(Start, steps, d) && Enabled(s, step) && Keeps(s, step, d)
    ensures Legal(Start, longer, d) && s' == Run(Start, longer, d) == Apply(s, step)
  {
    longer, s' := steps + [step], Apply(s, step);
    Extend(Start, steps, step, d);
  }

  /** One frame queued for a subscribed client, the work handler about to send it. */
  lemma OneQueued(d: Discipline) returns (steps: seq<Step>, s: State)
    ensures Legal(Start, steps, d) && s == Run(Start, steps, d)
    ensures s.queue == [Item(0, 1, "a")] && s.flight == [] && !s.work && s.threads == map[WORKER := Working] && s.conn
  {
    steps, s := Then([], ServiceStart, d, Start);
    steps, s := Then(steps, Connected, d, s);
    steps, s := Then(steps, Subscribe(true), d, s);
    assert Open(s) && s.threads == map[] && s.epoch == 1;
    steps, s := Then(steps, PushBegin(1, "a"), d, s);
    steps, s := Then(steps, Store(1), d, s);
    assert s.threads == map[] && s.queue == [Item(0, 1, "a")];
    steps, s := Then(steps, WorkerBegin, d, s);
  }

  /** The client unsubscribes before the handler sends: the flush ends, nobody is left to send the frame,
      and so it stays when the client subscribes again. */
  lemma Forgotten(d: Discipline) returns (steps: seq<Step>, s: State)
    ensures Legal(Start, steps, d) && s == Run(Start, steps, d)
    ensures s.enabled && s.conn && s.queue != [] && !s.work && s.threads == map[] && s.flight == []
  {
    steps, s := OneQueued(d);
    steps, s := Then(steps, Subscribe(false), d, s);
    assert !Open(s) && !Holds(s, WORKER);
    steps, s := Then(steps, FlushEnd(WORKER), d, s);
    assert s.threads == map[];
    steps, s := Then(steps, Subscribe(true), d, s);
  }

  /** In all runs queued frames have somebody who will send them, if and only if no flush comes to its end
      with frames in the queue. */
  lemma TendedExactly(empty: bool)
    ensures (forall steps, d :: Legal(Start, steps, d) && (empty ==> EndsEmpty(Start, steps, d)) ==>
               Tended(Run(Start, steps, d))) <==> empty
  {
    if empty {
      forall steps, d | Legal(Start, steps, d) && EndsEmpty(Start, steps, d)
        ensures Tended(Run(Start, steps, d))
      {
        RunKeepsTended(Start, steps, d);
      }
    } else {
      var d := Discipline(false, false, false);
      var steps, s := Forgotten(d);
      assert !Tended(Run(Start, steps, d));
    }
  }

  /** A flush ends with frames in the queue only when the link is down or the client has unsubscribed. */
  lemma EndsEmptyWhileOpen(s: State, t: nat)
    requires Enabled(s, FlushEnd(t)) && s.queue != []
    ensures !(s.ready && s.conn && s.connected && s.enabled)
  {
  }
}

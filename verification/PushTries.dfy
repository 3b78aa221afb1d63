/** How a push ends among the other threads: after one look at the ring or two. */
module PushTries {
  import opened Text
  import opened QueueMachine

  // ----- who holds a frame

  /** A popped frame is held by a thread that is flushing, and no thread holds two. */
  ghost predicate Manned(s: State) {
    && (forall i :: 0 <= i < |s.flight| ==> Flushing(s, s.flight[i].holder))
    && (forall i, j :: 0 <= i < j < |s.flight| ==> s.flight[i].holder != s.flight[j].holder)
  }

  lemma ThreadKeepsManned(s: State, s': State, t: nat)
    requires Manned(s) && s'.flight == s.flight && !Holds(s, t)
    requires forall u :: u != t && u in s.threads ==> u in s'.threads && s'.threads[u] == s.threads[u]
    ensures Manned(s')
  {
    forall i | 0 <= i < |s'.flight|
      ensures Flushing(s', s'.flight[i].holder)
    {
      assert Flushing(s, s.flight[i].holder);
    }
  }

  lemma PopKeepsManned(s: State, t: nat)
    requires Manned(s) && Enabled(s, Pop(t))
    ensures Manned(Apply(s, Pop(t)))
  {
    var s' := Apply(s, Pop(t));
    forall i | 0 <= i < |s'.flight|
      ensures Flushing(s', s'.flight[i].holder) && (i < |s.flight| ==> s'.flight[i].holder != t)
    {
      if i < |s.flight| {
        assert Flushing(s, s.flight[i].holder);
      }
    }
  }

  /** A frame that is no longer held; the thread that held it may be through. */
  lemma OutcomeKeepsManned(s: State, s': State, k: nat)
    requires Manned(s) && k < |s.flight| && s'.flight == Without(s.flight, k)
    requires forall u :: u != s.flight[k].holder && u in s.threads ==> u in s'.threads && s'.threads[u] == s.threads[u]
    ensures Manned(s')
  {
    forall i | 0 <= i < |s'.flight|
      ensures Flushing(s', s'.flight[i].holder) && s'.flight[i].holder != s.flight[k].holder
    {
      var j := if i < k then i else i + 1;
      assert s'.flight[i] == s.flight[j] && Flushing(s, s.flight[j].holder);
    }
    forall i, j | 0 <= i < j < |s'.flight|
      ensures s'.flight[i].holder != s'.flight[j].holder
    {
      assert s'.flight[i] == s.flight[if i < k then i else i + 1];
      assert s'.flight[j] == s.flight[if j < k then j else j + 1];
    }
  }

  lemma OutcomeStepKeepsManned(s: State, step: Step)
    requires Manned(s) && Enabled(s, step) && (step.SendOk? || step.SendFailed? || step.Requeue?)
    ensures Manned(Apply(s, step))
  {
    OutcomeKeepsManned(s, Apply(s, step), step.i);
  }

  lemma LinkStepKeepsManned(s: State, step: Step)
    requires Manned(s) && Enabled(s, step) && Apply(s, step).threads == s.threads && Apply(s, step).flight == s.flight
    ensures Manned(Apply(s, step))
  {
    forall i | 0 <= i < |s.flight|
      ensures Flushing(Apply(s, step), s.flight[i].holder)
    {
      assert Flushing(s, s.flight[i].holder);
    }
  }

  lemma StepKeepsManned(s: State, step: Step)
    requires Manned(s) && Enabled(s, step)
    ensures Manned(Apply(s, step))
  {
    match step {
      case PushBegin(t, _) => ThreadKeepsManned(s, Apply(s, step), t);
      case Store(t) => ThreadKeepsManned(s, Apply(s, step), t);
      case WorkerBegin => ThreadKeepsManned(s, Apply(s, step), WORKER);
      case FlushEnd(t) => ThreadKeepsManned(s, Apply(s, step), t);
      case Pop(t) => PopKeepsManned(s, t);
      case SendOk(_) => OutcomeStepKeepsManned(s, step);
      case SendFailed(_) => OutcomeStepKeepsManned(s, step);
      case Requeue(_) => OutcomeStepKeepsManned(s, step);
      case _ => LinkStepKeepsManned(s, step);
    }
  }

  lemma {:induction false} RunKeepsManned(s: State, steps: seq<Step>, d: Discipline)
    requires Legal(s, steps, d) && Manned(s)
    ensures Manned(Run(s, steps, d))
    decreases steps
  {
    if steps != [] {
      StepKeepsManned(s, steps[0]);
      RunKeepsManned(Apply(s, steps[0]), steps[1..], d);
    }
  }

  // ----- how often a push looks

  /** How often thread t has looked at the ring since its push began. */
  function Next(n: nat, t: nat, step: Step): nat {
    if step.PushBegin? && step.t == t then 0 else if step == Store(t) then n + 1 else n
  }

  function Looks(n: nat, t: nat, steps: seq<Step>): nat
    decreases steps
  {
    if steps == [] then n else Looks(Next(n, t, steps[0]), t, steps[1..])
  }

  ghost predicate Agrees(s: State, t: nat, n: nat) {
    && n <= 2
    && (t in s.threads ==>
          match s.threads[t]
          case Storing(_, _, again) => n == if again then 1 else 0
          case Inline(_, _, again) => n == if again then 2 else 1
          case Working => t == WORKER)
  }

  lemma StepAgrees(s: State, step: Step, t: nat, n: nat)
    requires Enabled(s, step) && Agrees(s, t, n) && t != WORKER
    ensures Agrees(Apply(s, step), t, Next(n, t, step))
  {
    match step {
      case PushBegin(_, _) =>
      case Store(_) => StoreAgrees(s, step, t, n);
      case FlushEnd(_) => OverAgrees(s, Apply(s, step), step.t, t, n);
      case Requeue(i) => OverAgrees(s, Apply(s, step), s.flight[i].holder, t, n);
      case _ => SameAgrees(s, step, t, n);
    }
  }

  lemma StoreAgrees(s: State, step: Step, t: nat, n: nat)
    requires Enabled(s, step) && step.Store? && Agrees(s, t, n) && t != WORKER
    ensures Agrees(Apply(s, step), t, Next(n, t, step))
  {
  }

  lemma OverAgrees(s: State, s': State, u: nat, t: nat, n: nat)
    requires Agrees(s, t, n) && s'.threads == Over(s.threads, u)
    ensures Agrees(s', t, n)
  {
  }

  lemma SameAgrees(s: State, step: Step, t: nat, n: nat)
    requires Enabled(s, step) && Agrees(s, t, n) && t != WORKER
    requires !step.PushBegin? && !step.Store? && !step.FlushEnd? && !step.Requeue?
    ensures Agrees(Apply(s, step), t, Next(n, t, step))
  {
    assert Next(n, t, step) == n;
    assert t in Apply(s, step).threads ==> t in s.threads && Apply(s, step).threads[t] == s.threads[t];
  }

  lemma {:induction false} RunAgrees(s: State, steps: seq<Step>, d: Discipline, t: nat, n: nat)
    requires Legal(s, steps, d) && Agrees(s, t, n) && t != WORKER
    ensures Agrees(Run(s, steps, d), t, Looks(n, t, steps))
    decreases steps
  {
    if steps != [] {
      StepAgrees(s, steps[0], t, n);
      RunAgrees(Apply(s, steps[0]), steps[1..], d, t, Next(n, t, steps[0]));
    }
  }

  /** In every run a push looks at the ring at most twice. Looking, it is through exactly if it finds fewer
      than eight frames, and then its frame is accepted; otherwise it ends only after its second look, when
      its flush is over. */
  lemma TwoLooks(steps: seq<Step>, d: Discipline, t: nat, step: Step)
    requires Legal(Start, steps, d) && t != WORKER
    requires var s := Run(Start, steps, d); Enabled(s, step) && t in s.threads
    ensures var s, n := Run(Start, steps, d), Looks(0, t, steps);
      var s' := Apply(s, step);
      && n <= 2
      && (step == Store(t) ==>
            && n < 2
            && (t !in s'.threads <==> |s.queue| < 8)
            && (|s.queue| < 8 ==> Data(s'.accepted) == Data(s.accepted) + [s.threads[t].data]))
      && (step != Store(t) && t !in s'.threads ==> n == 2)
  {
    RunAgrees(Start, steps, d, t, 0);
    RunKeepsManned(Start, steps, d);
    var s := Run(Start, steps, d);
    LeavesAfterTwo(s, step, t, Looks(0, t, steps));
    if step == Store(t) && |s.queue| < 8 {
      DataAppend(s.accepted, [Item(|s.accepted|, s.threads[t].epoch, s.threads[t].data)]);
    }
  }

  lemma LeavesAfterTwo(s: State, step: Step, t: nat, n: nat)
    requires Enabled(s, step) && Agrees(s, t, n) && Manned(s) && t in s.threads && t != WORKER
    ensures step != Store(t) && t !in Apply(s, step).threads ==> n == 2
    ensures step == Store(t) ==> n < 2 && (t !in Apply(s, step).threads <==> |s.queue| < 8)
  {
    if step.Requeue? {
      assert Flushing(s, s.flight[step.i].holder);
    }
  }

  // ----- who may push

  /** Whether the client has subscribed since the connection was last torn down. */
  function Subscribed(on: bool, steps: seq<Step>): bool
    decreases steps
  {
    if steps == [] then on
    else Subscribed(if steps[0].Subscribe? then steps[0].on
                    else if steps[0].Disconnected? || steps[0].ServiceStop? then false
                    else on, steps[1..])
  }

  lemma {:induction false} RunSubscribed(s: State, steps: seq<Step>, d: Discipline)
    requires Legal(s, steps, d)
    ensures Run(s, steps, d).enabled == Subscribed(s.enabled, steps)
    decreases steps
  {
    if steps != [] {
      RunSubscribed(Apply(s, steps[0]), steps[1..], d);
    }
  }

  /** In every run a push is let through only if the client has subscribed since the connection was last
      torn down. */
  lemma PushNeedsSubscription(steps: seq<Step>, d: Discipline, t: nat, data: string)
    requires Legal(Start, steps, d) && Enabled(Run(Start, steps, d), PushBegin(t, data))
    ensures Subscribed(false, steps)
  {
    RunSubscribed(Start, steps, d);
  }

  /** And a frame is taken for sending only under the same condition. */
  lemma PopNeedsSubscription(steps: seq<Step>, d: Discipline, t: nat)
    requires Legal(Start, steps, d) && Enabled(Run(Start, steps, d), Pop(t))
    ensures Subscribed(false, steps) && Linked(false, steps)
  {
    RunSubscribed(Start, steps, d);
    RunLinked(Start, steps, d);
  }

  /** Whether there is a connection. */
  function Linked(up: bool, steps: seq<Step>): bool
    decreases steps
  {
    if steps == [] then up
    else Linked(if steps[0].Connected? then true else if steps[0].Disconnected? then false else up, steps[1..])
  }

  lemma {:induction false} RunLinked(s: State, steps: seq<Step>, d: Discipline)
    requires Legal(s, steps, d)
    ensures Run(s, steps, d).conn == Linked(s.conn, steps)
    decreases steps
  {
    if steps != [] {
      RunLinked(Apply(s, steps[0]), steps[1..], d);
    }
  }

  /** In every run a frame goes out only over a connection. */
  lemma SendNeedsConnection(steps: seq<Step>, d: Discipline, i: nat)
    requires Legal(Start, steps, d) && Enabled(Run(Start, steps, d), SendOk(i))
    ensures Linked(false, steps)
  {
    RunLinked(Start, steps, d);
  }
}

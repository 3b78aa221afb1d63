/** The queue under concurrency: any number of producers, the work handler's flush, the inline flushes of
    producers that meet the full ring, and connection callbacks in between. Each locked region of the
    queue is one step; sending happens between a pop and its outcome. */
module QueueMachine {
  import opened Text
  import opened OutQueue

  /** A frame that push took: its number in the order of acceptance and the connection its push was let
      through in. */
  datatype Item = Item(serial: nat, epoch: nat, data: string)

  /** A popped frame whose outcome is open, and the thread that holds it. */
  datatype Held = Held(item: Item, holder: nat)

  /** Where a thread stands. A push past its guards takes the lock at most twice, with an inline flush
      each time it meets the full ring. */
  datatype Pc =
    | Storing(data: string, epoch: nat, again: bool)
    | Inline(data: string, epoch: nat, again: bool)
    | Working

  /** The work queue runs a queue's handler on one thread. */
  const WORKER: nat := 0

  datatype State = State(
    queue: seq<Item>,
    flight: seq<Held>,
    accepted: seq<Item>,
    sent: seq<Item>,
    sentIn: seq<nat>,     // the connection each sent frame went out in
    failed: seq<Item>,    // given up after a permanent error
    squeezed: seq<Item>,  // dropped because the ring was full again at the requeue
    cleared: seq<Item>,
    threads: map<nat, Pc>,
    work: bool,           // the work handler is scheduled
    ready: bool, conn: bool, connected: bool, enabled: bool,
    epoch: nat)

  const Start: State :=
    State([], [], [], [], [], [], [], [], map[], false, false, false, false, false, 0)

  datatype Step =
    | PushBegin(t: nat, data: string)
    | Store(t: nat)
    | WorkerBegin
    | Pop(t: nat)
    | FlushEnd(t: nat)
    | SendOk(i: nat)
    | SendFailed(i: nat)
    | Requeue(i: nat)
    | Subscribe(on: bool)
    | ServiceStart
    | ServiceStop
    | Connected
    | ConnectFailed
    | Disconnected

  predicate Open(s: State) {
    s.ready && s.conn && s.connected && s.enabled
  }

  predicate Flushing(s: State, t: nat) {
    t in s.threads && !s.threads[t].Storing?
  }

  predicate Holds(s: State, t: nat) {
    exists i :: 0 <= i < |s.flight| && s.flight[i].holder == t
  }

  /** With one connection configured, a connection is reported only when none is left. */
  ghost predicate Enabled(s: State, step: Step) {
    match step
    case PushBegin(t, _) => t != WORKER && t !in s.threads && Open(s)
    case Store(t) => t in s.threads && s.threads[t].Storing?
    case WorkerBegin => s.work && WORKER !in s.threads
    case Pop(t) => Flushing(s, t) && !Holds(s, t) && Open(s) && s.queue != []
    case FlushEnd(t) => Flushing(s, t) && !Holds(s, t) && (!Open(s) || s.queue == [])
    case SendOk(i) => i < |s.flight| && s.conn
    case SendFailed(i) => i < |s.flight|
    case Requeue(i) => i < |s.flight|
    case Subscribe(_) => s.conn
    case ServiceStart => true
    case ServiceStop => true
    case Connected => !s.conn
    case ConnectFailed => !s.conn
    case Disconnected => s.conn
  }

  function Without<T>(a: seq<T>, i: nat): seq<T>
    requires i < |a|
  {
    a[..i] + a[i + 1..]
  }

  /** The threads once the flush of t is over: a push goes on to its second attempt or gives up. */
  function Over(threads: map<nat, Pc>, t: nat): map<nat, Pc> {
    if t in threads && threads[t].Inline? && !threads[t].again then
      threads[t := Storing(threads[t].data, threads[t].epoch, true)]
    else threads - {t}
  }

  /** One locked region of push. */
  function Stored(s: State, t: nat): State
    requires t in s.threads && s.threads[t].Storing?
  {
    var pc := s.threads[t];
    var item := Item(|s.accepted|, pc.epoch, pc.data);
    if |s.queue| < DEPTH then
      s.(queue := Put(s.queue, item), accepted := s.accepted + [item], work := true, threads := s.threads - {t})
    else s.(threads := s.threads[t := Inline(pc.data, pc.epoch, pc.again)])
  }

  function Requeueing(s: State, i: nat): State
    requires i < |s.flight|
  {
    var x := s.flight[i].item;
    s.(flight := Without(s.flight, i), queue := Requeued(s.queue, x),
       squeezed := if |s.queue| < DEPTH then s.squeezed else s.squeezed + [x],
       work := true, threads := Over(s.threads, s.flight[i].holder))
  }

  function Closed(s: State): State {
    s.(connected := false, enabled := false, cleared := s.cleared + s.queue, queue := [])
  }

  ghost function Apply(s: State, step: Step): State
    requires Enabled(s, step)
  {
    match step
    case PushBegin(t, data) => s.(threads := s.threads[t := Storing(data, s.epoch, false)])
    case Store(t) => Stored(s, t)
    case WorkerBegin => s.(work := false, threads := s.threads[WORKER := Working])
    case Pop(t) => s.(queue := s.queue[1..], flight := s.flight + [Held(s.queue[0], t)])
    case FlushEnd(t) => s.(threads := Over(s.threads, t))
    case SendOk(i) =>
      s.(flight := Without(s.flight, i), sent := s.sent + [s.flight[i].item], sentIn := s.sentIn + [s.epoch])
    case SendFailed(i) => s.(flight := Without(s.flight, i), failed := s.failed + [s.flight[i].item])
    case Requeue(i) => Requeueing(s, i)
    case Subscribe(on) => s.(enabled := on)
    case ServiceStart => s.(ready := true)
    case ServiceStop => Closed(s)
    case Connected => s.(conn := true, connected := true, epoch := s.epoch + 1)
    case ConnectFailed => s.(connected := false)
    case Disconnected => Closed(s).(conn := false)
  }

  /** What a run keeps to; each may be asked for or not. */
  datatype Discipline = Discipline(
    oneHeld: bool,  // a flusher pops only while no other holds a frame
    apart: bool,    // the connection is not torn down between a pop and its outcome
    whole: bool)    // nor between the guards of a push and its end

  ghost predicate TearsDown(step: Step) {
    step.ServiceStop? || step.Disconnected?
  }

  ghost predicate NoPush(s: State) {
    forall t :: t in s.threads ==> s.threads[t].Working?
  }

  ghost predicate Keeps(s: State, step: Step, d: Discipline) {
    && (d.oneHeld && step.Pop? ==> s.flight == [])
    && (d.apart && TearsDown(step) ==> s.flight == [])
    && (d.whole && TearsDown(step) ==> NoPush(s))
  }

  ghost predicate Legal(s: State, steps: seq<Step>, d: Discipline)
    decreases steps
  {
    steps == [] ||
    (Enabled(s, steps[0]) && Keeps(s, steps[0], d) && Legal(Apply(s, steps[0]), steps[1..], d))
  }

  ghost function Run(s: State, steps: seq<Step>, d: Discipline): State
    requires Legal(s, steps, d)
    decreases steps
  {
    if steps == [] then s else Run(Apply(s, steps[0]), steps[1..], d)
  }

  function Items(flight: seq<Held>): (items: seq<Item>)
    ensures |items| == |flight| && forall i :: 0 <= i < |flight| ==> items[i] == flight[i].item
  {
    seq(|flight|, i requires 0 <= i < |flight| => flight[i].item)
  }

  lemma ItemsWithout(flight: seq<Held>, i: nat)
    requires i < |flight|
    ensures Items(Without(flight, i)) == Without(Items(flight), i)
  {
  }

  lemma ItemsMore(flight: seq<Held>, h: Held)
    ensures Items(flight + [h]) == Items(flight) + [h.item]
  {
  }

  // ----- the ring underneath

  function Data(items: seq<Item>): (texts: seq<string>)
    ensures |texts| == |items|
  {
    seq(|items|, i requires 0 <= i < |items| => items[i].data)
  }

  lemma DataAppend(a: seq<Item>, b: seq<Item>)
    ensures Data(a + b) == Data(a) + Data(b)
  {
  }

  /** On the texts of the queue the machine's steps are the ring's operations, and no other step touches
      it: what the methods of the ring are proved to do to its contents. */
  lemma StepsAreRingOperations(s: State, step: Step)
    requires Enabled(s, step)
    ensures var q, q' := Data(s.queue), Data(Apply(s, step).queue);
      match step
      case Store(t) => q' == Put(q, s.threads[t].data)
      case Pop(_) => q == [s.queue[0].data] + q'
      case Requeue(i) => q' == Requeued(q, s.flight[i].item.data)
      case ServiceStop => q' == []
      case Disconnected => q' == []
      case _ => q' == q
  {
    match step {
      case Store(t) => DataPut(s.queue, Item(|s.accepted|, s.threads[t].epoch, s.threads[t].data));
      case Pop(_) => DataTail(s.queue);
      case Requeue(i) => DataRequeued(s.queue, s.flight[i].item);
      case ServiceStop =>
      case Disconnected =>
      case _ =>
    }
  }

  lemma DataPut(q: seq<Item>, x: Item)
    ensures Data(Put(q, x)) == Put(Data(q), x.data)
  {
    assert Data(q + [x]) == Data(q) + [x.data];
  }

  lemma DataRequeued(q: seq<Item>, x: Item)
    ensures Data(Requeued(q, x)) == Requeued(Data(q), x.data)
  {
    assert Data([x] + q) == [x.data] + Data(q);
  }

  lemma DataTail(q: seq<Item>)
    requires q != []
    ensures Data(q) == [q[0].data] + Data(q[1..])
  {
  }

  // ----- nothing appears from nowhere, nothing gets lost unrecorded

  function Occurs(a: seq<Item>, x: Item): nat {
    multiset(a)[x]
  }

  /** x occurs as often in the log of accepted frames as in all the other places together. */
  ghost predicate Counted(s: State, x: Item) {
    Occurs(s.accepted, x) ==
      Occurs(s.sent, x) + Occurs(s.failed, x) + Occurs(s.squeezed, x) + Occurs(s.cleared, x)
      + Occurs(Items(s.flight), x) + Occurs(s.queue, x)
  }

  ghost predicate Conserved(s: State) {
    forall x :: Counted(s, x)
  }

  lemma OccursAppend(a: seq<Item>, b: seq<Item>, x: Item)
    ensures Occurs(a + b, x) == Occurs(a, x) + Occurs(b, x)
  {
  }

  lemma OccursWithout(a: seq<Item>, i: nat, x: Item)
    requires i < |a|
    ensures Occurs(a, x) == Occurs(Without(a, i), x) + Occurs([a[i]], x)
  {
    assert a == a[..i] + ([a[i]] + a[i + 1..]);
    OccursAppend(a[..i], [a[i]] + a[i + 1..], x);
    OccursAppend([a[i]], a[i + 1..], x);
    OccursAppend(a[..i], a[i + 1..], x);
  }

  lemma TakenCounts(flight: seq<Held>, i: nat, x: Item)
    requires i < |flight|
    ensures Occurs(Items(flight), x) == Occurs(Items(Without(flight, i)), x) + Occurs([flight[i].item], x)
  {
    ItemsWithout(flight, i);
    OccursWithout(Items(flight), i, x);
  }

  lemma StoreCounts(s: State, t: nat, x: Item)
    requires t in s.threads && s.threads[t].Storing? && Counted(s, x)
    ensures Counted(Stored(s, t), x)
  {
    var item := Item(|s.accepted|, s.threads[t].epoch, s.threads[t].data);
    OccursAppend(s.accepted, [item], x);
    if |s.queue| < DEPTH {
      OccursAppend(s.queue, [item], x);
      assert Stored(s, t).queue == s.queue + [item] && Stored(s, t).accepted == s.accepted + [item];
    }
  }

  lemma PopCounts(s: State, t: nat, x: Item)
    requires Enabled(s, Pop(t)) && Counted(s, x)
    ensures Counted(Apply(s, Pop(t)), x)
  {
    var h := Held(s.queue[0], t);
    assert Without(s.queue, 0) == s.queue[1..];
    OccursWithout(s.queue, 0, x);
    ItemsMore(s.flight, h);
    OccursAppend(Items(s.flight), [h.item], x);
  }

  lemma OutcomeCounts(s: State, step: Step, x: Item)
    requires Enabled(s, step) && (step.SendOk? || step.SendFailed?) && Counted(s, x)
    ensures Counted(Apply(s, step), x)
  {
    TakenCounts(s.flight, step.i, x);
    OccursAppend(if step.SendOk? then s.sent else s.failed, [s.flight[step.i].item], x);
  }

  lemma RequeueCounts(s: State, i: nat, x: Item)
    requires i < |s.flight| && Counted(s, x)
    ensures Counted(Requeueing(s, i), x)
  {
    TakenCounts(s.flight, i, x);
    OccursAppend([s.flight[i].item], s.queue, x);
    OccursAppend(s.squeezed, [s.flight[i].item], x);
  }

  lemma ClosedCounts(s: State, x: Item)
    requires Counted(s, x)
    ensures Counted(Closed(s), x)
  {
    OccursAppend(s.cleared, s.queue, x);
  }

  lemma StepCounts(s: State, step: Step, x: Item)
    requires Enabled(s, step) && Counted(s, x)
    ensures Counted(Apply(s, step), x)
  {
    match step {
      case Store(t) => StoreCounts(s, t, x);
      case Pop(t) => PopCounts(s, t, x);
      case SendOk(_) => OutcomeCounts(s, step, x);
      case SendFailed(_) => OutcomeCounts(s, step, x);
      case Requeue(i) => RequeueCounts(s, i, x);
      case ServiceStop => ClosedCounts(s, x);
      case Disconnected => ClosedCounts(s, x);
      case _ =>
    }
  }

  /** The log numbers its frames. */
  ghost predicate Numbered(s: State) {
    && (forall i :: 0 <= i < |s.accepted| ==> s.accepted[i].serial == i)
    && |s.queue| <= DEPTH
  }

  lemma StepConserves(s: State, step: Step)
    requires Enabled(s, step) && Conserved(s) && Numbered(s)
    ensures Conserved(Apply(s, step)) && Numbered(Apply(s, step))
  {
    forall x
      ensures Counted(Apply(s, step), x)
    {
      StepCounts(s, step, x);
    }
  }

  lemma {:induction false} RunConserves(s: State, steps: seq<Step>, d: Discipline)
    requires Legal(s, steps, d) && Conserved(s) && Numbered(s)
    ensures Conserved(Run(s, steps, d)) && Numbered(Run(s, steps, d))
    decreases steps
  {
    if steps != [] {
      StepConserves(s, steps[0]);
      RunConserves(Apply(s, steps[0]), steps[1..], d);
    }
  }

  /** For every run with any number of flushers: every accepted frame is in exactly one place, and the
      ring never holds more than eight. */
  lemma EveryFrameAccountedFor(steps: seq<Step>, d: Discipline)
    requires Legal(Start, steps, d)
    ensures var s := Run(Start, steps, d);
      && multiset(s.accepted) == multiset(s.sent + s.failed + s.squeezed + s.cleared + Items(s.flight) + s.queue)
      && |s.queue| <= DEPTH
  {
    RunConserves(Start, steps, d);
    var s := Run(Start, steps, d);
    var places := s.sent + s.failed + s.squeezed + s.cleared + Items(s.flight) + s.queue;
    forall x
      ensures multiset(s.accepted)[x] == multiset(places)[x]
    {
      assert Counted(s, x);
      OccursAppend(s.sent + s.failed + s.squeezed + s.cleared + Items(s.flight), s.queue, x);
      OccursAppend(s.sent + s.failed + s.squeezed + s.cleared, Items(s.flight), x);
      OccursAppend(s.sent + s.failed + s.squeezed, s.cleared, x);
      OccursAppend(s.sent + s.failed, s.squeezed, x);
      OccursAppend(s.sent, s.failed, x);
    }
  }

  // ----- order

  /** Serial numbers rise from first to last. */
  ghost predicate Rising(a: seq<Item>) {
    forall i, j :: 0 <= i < j < |a| ==> a[i].serial < a[j].serial
  }

  /** Frames of the log, oldest first. */
  ghost predicate InLine(line: seq<Item>, accepted: seq<Item>) {
    Rising(line) && forall x :: x in line ==> x.serial < |accepted| && accepted[x.serial] == x
  }

  lemma InLineWithout(a: seq<Item>, x: Item, b: seq<Item>, accepted: seq<Item>)
    requires InLine(a + [x] + b, accepted)
    ensures InLine(a + b, accepted)
  {
    var all, rest := a + [x] + b, a + b;
    forall i, j | 0 <= i < j < |rest|
      ensures rest[i].serial < rest[j].serial
    {
      var k, l := if i < |a| then i else i + 1, if j < |a| then j else j + 1;
      assert rest[i] == all[k] && rest[j] == all[l];
    }
    assert forall y :: y in rest ==> y in all;
  }

  lemma InLinePrefix(a: seq<Item>, b: seq<Item>, accepted: seq<Item>)
    requires InLine(a + b, accepted)
    ensures InLine(a, accepted)
  {
    assert forall i :: 0 <= i < |a| ==> a[i] == (a + b)[i];
    assert forall x :: x in a ==> x in a + b;
  }

  lemma InLineNext(line: seq<Item>, accepted: seq<Item>, x: Item)
    requires InLine(line, accepted) && x.serial == |accepted|
    ensures InLine(line + [x], accepted + [x])
  {
    assert forall i :: 0 <= i < |line| ==> line[i] in line;
  }

  /** What went out, what is in flight and what is queued, in this order. */
  function Line(s: State): seq<Item> {
    s.sent + Items(s.flight) + s.queue
  }

  ghost predicate Ordered(s: State) {
    |s.flight| <= 1 && |s.queue| <= DEPTH && InLine(Line(s), s.accepted)
  }

  lemma StoreKeepsOrder(s: State, t: nat)
    requires t in s.threads && s.threads[t].Storing? && Ordered(s)
    ensures Ordered(Stored(s, t))
  {
    var item := Item(|s.accepted|, s.threads[t].epoch, s.threads[t].data);
    if |s.queue| < DEPTH {
      InLineNext(Line(s), s.accepted, item);
      Assoc(s.sent + Items(s.flight), s.queue, [item]);
    }
  }

  lemma PopKeepsOrder(s: State, t: nat)
    requires Enabled(s, Pop(t)) && s.flight == [] && Ordered(s)
    ensures Ordered(Apply(s, Pop(t)))
  {
    assert Line(Apply(s, Pop(t))) == Line(s);
  }

  lemma OneFlies(s: State, i: nat)
    requires i < |s.flight| && Ordered(s)
    ensures Line(s) == s.sent + [s.flight[i].item] + s.queue && Without(s.flight, i) == []
  {
    assert Items(s.flight) == [s.flight[i].item];
  }

  lemma OutcomeKeepsOrder(s: State, step: Step)
    requires Enabled(s, step) && (step.SendOk? || step.SendFailed?) && Ordered(s)
    ensures Ordered(Apply(s, step))
  {
    OneFlies(s, step.i);
    InLineWithout(s.sent, s.flight[step.i].item, s.queue, s.accepted);
    assert Line(Apply(s, step)) == (if step.SendOk? then Line(s) else s.sent + s.queue);
  }

  lemma RequeueKeepsOrder(s: State, i: nat)
    requires i < |s.flight| && Ordered(s)
    ensures Ordered(Requeueing(s, i))
  {
    OneFlies(s, i);
    InLineWithout(s.sent, s.flight[i].item, s.queue, s.accepted);
    assert Line(Requeueing(s, i)) == (if |s.queue| < DEPTH then Line(s) else s.sent + s.queue);
  }

  lemma ClosedKeepsOrder(s: State)
    requires Ordered(s)
    ensures Ordered(Closed(s))
  {
    InLinePrefix(s.sent + Items(s.flight), s.queue, s.accepted);
    assert Line(Closed(s)) == s.sent + Items(s.flight);
  }

  /** The steps that touch no frame. */
  predicate Elsewhere(step: Step) {
    || step.PushBegin? || step.WorkerBegin? || step.FlushEnd? || step.Subscribe? || step.ServiceStart?
    || step.Connected? || step.ConnectFailed?
  }

  lemma SameLine(s: State, t: State)
    requires Ordered(s) && t.sent == s.sent && t.flight == s.flight && t.queue == s.queue && t.accepted == s.accepted
    ensures Ordered(t)
  {
  }

  lemma OtherKeepsOrder(s: State, step: Step)
    requires Enabled(s, step) && Elsewhere(step) && Ordered(s)
    ensures Ordered(Apply(s, step))
  {
    SameLine(s, Apply(s, step));
  }

  lemma StepKeepsOrder(s: State, step: Step, d: Discipline)
    requires Enabled(s, step) && Keeps(s, step, d) && d.oneHeld && Ordered(s)
    ensures Ordered(Apply(s, step))
  {
    match step {
      case Store(t) => StoreKeepsOrder(s, t);
      case Pop(t) => PopKeepsOrder(s, t);
      case SendOk(_) => OutcomeKeepsOrder(s, step);
      case SendFailed(_) => OutcomeKeepsOrder(s, step);
      case Requeue(i) => RequeueKeepsOrder(s, i);
      case ServiceStop => ClosedKeepsOrder(s);
      case Disconnected => ClosedKeepsOrder(s);
      case _ => OtherKeepsOrder(s, step);
    }
  }

  lemma {:induction false} RunKeepsOrder(s: State, steps: seq<Step>, d: Discipline)
    requires Legal(s, steps, d) && d.oneHeld && Ordered(s)
    ensures Ordered(Run(s, steps, d))
    decreases steps
  {
    if steps != [] {
      StepKeepsOrder(s, steps[0], d);
      RunKeepsOrder(Apply(s, steps[0]), steps[1..], d);
    }
  }

  /** Items of the log with rising serial numbers are a subsequence of the log. */
  lemma {:induction false} RisingIsSubsequence(a: seq<Item>, log: seq<Item>, from: nat)
    requires from <= |log| && Rising(a)
    requires forall x :: x in a ==> from <= x.serial < |log| && log[x.serial] == x
    ensures Subsequence(Data(a), Data(log)[from..])
    decreases |log| - from
  {
    if a != [] {
      assert a[0] in a;
      DataFrom(log, from);
      if a[0].serial == from {
        forall x | x in a[1..]
          ensures from + 1 <= x.serial < |log| && log[x.serial] == x
        {
          var i :| 0 <= i < |a[1..]| && a[1..][i] == x;
          assert a[i + 1] in a;
        }
        RisingIsSubsequence(a[1..], log, from + 1);
        DataFrom(a, 0);
      } else {
        forall x | x in a
          ensures from + 1 <= x.serial
        {
          var i :| 0 <= i < |a| && a[i] == x;
        }
        RisingIsSubsequence(a, log, from + 1);
      }
    }
  }

  lemma DataFrom(items: seq<Item>, from: nat)
    requires from < |items|
    ensures Data(items)[from..] == [items[from].data] + Data(items)[from + 1..]
    ensures from == 0 ==> Data(items) == [items[0].data] + Data(items[1..])
  {
  }

  /** If no flusher pops while another holds a frame, then with any number of producers what went out is
      what was accepted, in order, with some frames left out; even when a producer takes the place of a
      popped frame before it is requeued. */
  lemma SentInOrder(steps: seq<Step>, d: Discipline)
    requires Legal(Start, steps, d) && d.oneHeld
    ensures var s := Run(Start, steps, d);
      && Rising(s.sent)
      && Subsequence(Data(s.sent), Data(s.accepted))
  {
    RunKeepsOrder(Start, steps, d);
    var s := Run(Start, steps, d);
    Assoc(s.sent, Items(s.flight), s.queue);
    InLinePrefix(s.sent, Items(s.flight) + s.queue, s.accepted);
    RisingIsSubsequence(s.sent, s.accepted, 0);
    assert Data(s.accepted)[0..] == Data(s.accepted);
  }

  // ----- order as long as no push meets the full ring

  ghost predicate NeverFull(s: State, steps: seq<Step>, d: Discipline)
    requires Legal(s, steps, d)
    decreases steps
  {
    steps == [] ||
    (!(steps[0].Store? && |s.queue| >= DEPTH) && NeverFull(Apply(s, steps[0]), steps[1..], d))
  }

  /** The work handler is the only flusher. */
  ghost predicate WorkerAlone(s: State) {
    && (forall t :: t in s.threads && t != WORKER ==> s.threads[t].Storing?)
    && (forall h :: h in s.flight ==> h.holder == WORKER)
  }

  lemma WorkerHoldsAll(s: State)
    requires WorkerAlone(s)
    ensures s.flight == [] || Holds(s, WORKER)
  {
    if s.flight != [] {
      assert s.flight[0] in s.flight;
    }
  }

  lemma StepKeepsAlone(s: State, step: Step)
    requires Enabled(s, step) && WorkerAlone(s) && !(step.Store? && |s.queue| >= DEPTH)
    ensures WorkerAlone(Apply(s, step))
    ensures step.Pop? ==> s.flight == []
  {
    if step.Pop? {
      WorkerHoldsAll(s);
    } else if step.SendOk? || step.SendFailed? || step.Requeue? {
      assert forall h :: h in Without(s.flight, step.i) ==> h in s.flight;
    }
  }

  lemma {:induction false} AloneKeepsOrder(s: State, steps: seq<Step>, d: Discipline)
    requires Legal(s, steps, d) && NeverFull(s, steps, d) && WorkerAlone(s) && Ordered(s)
    ensures Ordered(Run(s, steps, d))
    decreases steps
  {
    if steps != [] {
      StepKeepsAlone(s, steps[0]);
      StepKeepsOrder(s, steps[0], Discipline(true, false, false));
      AloneKeepsOrder(Apply(s, steps[0]), steps[1..], d);
    }
  }

  /** Whatever the disciplines: as long as no push meets the full ring, frames go out in order. */
  lemma OrderUnlessFull(steps: seq<Step>, d: Discipline)
    requires Legal(Start, steps, d) && NeverFull(Start, steps, d)
    ensures Rising(Run(Start, steps, d).sent)
  {
    AloneKeepsOrder(Start, steps, d);
    var s := Run(Start, steps, d);
    Assoc(s.sent, Items(s.flight), s.queue);
    InLinePrefix(s.sent, Items(s.flight) + s.queue, s.accepted);
  }

  // ----- connections

  /** What is queued, in flight or being pushed belongs to the present connection; what went out went out
      in its own. */
  ghost predicate Fresh(s: State) {
    && (s.connected ==> s.conn)
    && (s.queue != [] || s.flight != [] || !NoPush(s) ==> s.connected)
    && (forall x :: x in s.queue ==> x.epoch == s.epoch)
    && (forall h :: h in s.flight ==> h.item.epoch == s.epoch)
    && (forall t :: t in s.threads && !s.threads[t].Working? ==> s.threads[t].epoch == s.epoch)
    && InOwnConnection(s)
  }

  ghost predicate InOwnConnection(s: State) {
    |s.sentIn| == |s.sent| && forall i :: 0 <= i < |s.sent| ==> s.sent[i].epoch == s.sentIn[i]
  }

  lemma StoreKeepsFresh(s: State, t: nat)
    requires t in s.threads && s.threads[t].Storing? && Fresh(s)
    ensures Fresh(Stored(s, t))
  {
    assert !NoPush(s);
  }

  lemma OverKeepsFresh(s: State, t: nat)
    requires Fresh(s)
    ensures Fresh(s.(threads := Over(s.threads, t)))
  {
    if NoPush(s) {
      assert forall u :: u in Over(s.threads, t) ==> Over(s.threads, t)[u] == s.threads[u];
    }
  }

  lemma OutcomeKeepsFresh(s: State, step: Step)
    requires Enabled(s, step) && (step.SendOk? || step.SendFailed?) && Fresh(s)
    ensures Fresh(Apply(s, step))
  {
    assert s.flight[step.i] in s.flight;
    assert forall h :: h in Without(s.flight, step.i) ==> h in s.flight;
  }

  lemma RequeueKeepsFresh(s: State, i: nat)
    requires i < |s.flight| && Fresh(s)
    ensures Fresh(Requeueing(s, i))
  {
    assert s.flight[i] in s.flight;
    assert forall h :: h in Without(s.flight, i) ==> h in s.flight;
    var r := Requeueing(s, i).(threads := s.threads);
    assert forall x :: x in r.queue ==> x in s.queue || x == s.flight[i].item;
    OverKeepsFresh(r, s.flight[i].holder);
  }

  lemma PopKeepsFresh(s: State, t: nat)
    requires Enabled(s, Pop(t)) && Fresh(s)
    ensures Fresh(Apply(s, Pop(t)))
  {
    assert s.queue[0] in s.queue && forall x :: x in s.queue[1..] ==> x in s.queue;
  }

  lemma OtherKeepsFresh(s: State, step: Step)
    requires Enabled(s, step) && Fresh(s) && Elsewhere(step) && !step.FlushEnd?
    ensures Fresh(Apply(s, step))
  {
  }

  lemma ClosedKeepsFresh(s: State, step: Step)
    requires Enabled(s, step) && TearsDown(step) && s.flight == [] && NoPush(s) && Fresh(s)
    ensures Fresh(Apply(s, step))
  {
  }

  lemma StepKeepsFresh(s: State, step: Step, d: Discipline)
    requires Enabled(s, step) && Keeps(s, step, d) && d.apart && d.whole && Fresh(s)
    ensures Fresh(Apply(s, step))
  {
    match step {
      case Store(t) => StoreKeepsFresh(s, t);
      case Pop(t) => PopKeepsFresh(s, t);
      case FlushEnd(t) => OverKeepsFresh(s, t);
      case SendOk(_) => OutcomeKeepsFresh(s, step);
      case SendFailed(_) => OutcomeKeepsFresh(s, step);
      case Requeue(i) => RequeueKeepsFresh(s, i);
      case ServiceStop => ClosedKeepsFresh(s, step);
      case Disconnected => ClosedKeepsFresh(s, step);
      case _ => OtherKeepsFresh(s, step);
    }
  }

  lemma {:induction false} RunKeepsFresh(s: State, steps: seq<Step>, d: Discipline)
    requires Legal(s, steps, d) && d.apart && d.whole && Fresh(s)
    ensures Fresh(Run(s, steps, d))
    decreases steps
  {
    if steps != [] {
      StepKeepsFresh(s, steps[0], d);
      RunKeepsFresh(Apply(s, steps[0]), steps[1..], d);
    }
  }

  /** If the connection is torn down only while no frame is in flight and no push is under way, a queued
      frame implies a connection, and every frame went out in the connection it was pushed in. */
  lemma NothingCrossesConnections(steps: seq<Step>, d: Discipline)
    requires Legal(Start, steps, d) && d.apart && d.whole
    ensures var s := Run(Start, steps, d);
      (s.queue != [] ==> s.connected) && InOwnConnection(s)
  {
    RunKeepsFresh(Start, steps, d);
  }

  // ----- the disciplines are needed

  lemma {:induction false} Extend(s: State, steps: seq<Step>, step: Step, d: Discipline)
    requires Legal(s, steps, d) && Enabled(Run(s, steps, d), step) && Keeps(Run(s, steps, d), step, d)
    ensures Legal(s, steps + [step], d)
    ensures Run(s, steps + [step], d) == Apply(Run(s, steps, d), step)
    decreases steps
  {
    if steps == [] {
      assert [] + [step] == [step];
      assert [step][1..] == [];
    } else {
      assert (steps + [step])[1..] == steps[1..] + [step];
      Extend(Apply(s, steps[0]), steps[1..], step, d);
    }
  }

  /** A run built step by step. */
  lemma Reach(steps: seq<Step>, step: Step, d: Discipline, s: State) returns (longer: seq<Step>, s': State)
    requires Legal(Start, steps, d) && Run(Start, steps, d) == s && Enabled(s, step) && Keeps(s, step, d)
    ensures Legal(Start, longer, d) && s' == Run(Start, longer, d) == Apply(s, step)
    ensures longer == steps + [step]
  {
    longer, s' := steps + [step], Apply(s, step);
    Extend(Start, steps, step, d);
  }

  const Fresh1: State := Start.(ready := true, conn := true, connected := true, enabled := true, epoch := 1)

  lemma OpenLink(d: Discipline) returns (steps: seq<Step>, s: State)
    ensures Legal(Start, steps, d) && s == Run(Start, steps, d) == Fresh1
  {
    steps, s := Reach([], ServiceStart, d, Start);
    steps, s := Reach(steps, Connected, d, s);
    steps, s := Reach(steps, Subscribe(true), d, s);
  }

  /** The frames of n pushes on the open link. */
  function Pushed(n: nat): (items: seq<Item>)
    requires n <= 1000
    ensures |items| == n
  {
    seq(n, i requires 0 <= i < n => Item(i, 1, Pad3(i)))
  }

  lemma PushOne(d: Discipline, steps: seq<Step>, s: State, data: string) returns (longer: seq<Step>, s': State)
    requires Legal(Start, steps, d) && s == Run(Start, steps, d) && Open(s) && 1 !in s.threads
    requires |s.queue| < DEPTH
    ensures Legal(Start, longer, d) && s' == Run(Start, longer, d)
    ensures var item := Item(|s.accepted|, s.epoch, data);
      s' == s.(queue := s.queue + [item], accepted := s.accepted + [item], work := true)
  {
    longer, s' := Reach(steps, PushBegin(1, data), d, s);
    longer, s' := Reach(longer, Store(1), d, s');
    assert s.threads[1 := Storing(data, s.epoch, false)] - {1} == s.threads;
  }

  lemma {:induction false} Fill(d: Discipline, n: nat) returns (steps: seq<Step>, s: State)
    requires n <= DEPTH
    ensures Legal(Start, steps, d)
    ensures s == Run(Start, steps, d) == Fresh1.(queue := Pushed(n), accepted := Pushed(n), work := n > 0)
    decreases n
  {
    if n == 0 {
      steps, s := OpenLink(d);
      assert Pushed(0) == [];
    } else {
      steps, s := Fill(d, n - 1);
      steps, s := PushOne(d, steps, s, Pad3(n - 1));
      assert Pushed(n) == Pushed(n - 1) + [Item(n - 1, 1, Pad3(n - 1))];
    }
  }

  /** The worker holds the first frame, a push has refilled the ring, and the next push flushes inline. */
  lemma TwoAtWork(d: Discipline) returns (steps: seq<Step>, s: State)
    requires !d.oneHeld
    ensures Legal(Start, steps, d) && s == Run(Start, steps, d)
    ensures s.conn && |s.flight| == 2
  {
    steps, s := Fill(d, DEPTH);
    steps, s := Reach(steps, WorkerBegin, d, s);
    steps, s := Reach(steps, Pop(WORKER), d, s);
    steps, s := PushOne(d, steps, s, "x");
    steps, s := Reach(steps, PushBegin(1, "y"), d, s);
    steps, s := Reach(steps, Store(1), d, s);
    assert |s.queue| == DEPTH && s.threads[1].Inline?;
    steps, s := Reach(steps, Pop(1), d, s);
  }

  lemma AtMostOnce(s: State, x: Item)
    requires Numbered(s)
    ensures Occurs(s.accepted, x) <= 1
    ensures Occurs(s.accepted, x) == 1 ==> x.serial < |s.accepted| && s.accepted[x.serial] == x
  {
    if x in s.accepted {
      var k :| 0 <= k < |s.accepted| && s.accepted[k] == x;
      OccursWithout(s.accepted, k, x);
      assert x !in Without(s.accepted, k);
    }
  }

  lemma DistinctInFlight(s: State)
    requires Conserved(s) && Numbered(s) && |s.flight| >= 2
    ensures s.flight[0].item.serial != s.flight[1].item.serial
  {
    var line, x, y := Items(s.flight), s.flight[0].item, s.flight[1].item;
    assert line[0] == x && line[1] == y;
    OccursWithout(line, 0, x);
    OccursWithout(line, 1, y);
    assert Without(line, 0)[0] == y;
    assert Counted(s, x) && Counted(s, y);
    AtMostOnce(s, x);
    AtMostOnce(s, y);
  }

  /** Whenever two frames are in flight over a connection, two successful sends put them out in the wrong
      order. */
  lemma TwoInFlightInvert(steps: seq<Step>, d: Discipline) returns (longer: seq<Step>)
    requires Legal(Start, steps, d) && Run(Start, steps, d).conn && |Run(Start, steps, d).flight| >= 2
    ensures steps <= longer && Legal(Start, longer, d) && !Rising(Run(Start, longer, d).sent)
    ensures Run(Start, longer, d).accepted == Run(Start, steps, d).accepted
  {
    var s := Run(Start, steps, d);
    RunConserves(Start, steps, d);
    DistinctInFlight(s);
    var first := if s.flight[0].item.serial < s.flight[1].item.serial then 1 else 0;
    var t;
    longer, t := SendTwo(steps, d, s, first);
    var n := |s.sent|;
    assert t.sent[n].serial > t.sent[n + 1].serial;
  }

  lemma SendTwo(steps: seq<Step>, d: Discipline, s: State, first: nat) returns (longer: seq<Step>, t: State)
    requires Legal(Start, steps, d) && s == Run(Start, steps, d) && s.conn && |s.flight| >= 2 && first < 2
    ensures steps <= longer && Legal(Start, longer, d) && t == Run(Start, longer, d)
    ensures t.accepted == s.accepted
    ensures t.sent == s.sent + [s.flight[first].item, s.flight[1 - first].item]
  {
    longer, t := Reach(steps, SendOk(first), d, s);
    assert t.flight == Without(s.flight, first) && t.flight[0] == s.flight[1 - first];
    var u := t;
    longer, t := Reach(longer, SendOk(0), d, u);
    Assoc(s.sent, [s.flight[first].item], [u.flight[0].item]);
  }

  /** Frames go out in order in all runs exactly if no flusher pops while another holds a frame. */
  lemma OrderExactly(d: Discipline)
    ensures (forall steps :: Legal(Start, steps, d) ==> Rising(Run(Start, steps, d).sent)) <==> d.oneHeld
  {
    if d.oneHeld {
      forall steps | Legal(Start, steps, d)
        ensures Rising(Run(Start, steps, d).sent)
      {
        SentInOrder(steps, d);
      }
    } else {
      var steps, s := TwoAtWork(d);
      var longer := TwoInFlightInvert(steps, d);
    }
  }

  /** A frame accepted in the first connection and queued while there is none goes out in the second. */
  lemma GoesOutNext(d: Discipline, steps: seq<Step>, s: State)
    requires Legal(Start, steps, d) && s == Run(Start, steps, d)
    requires s.ready && !s.conn && s.work && s.threads == map[] && s.flight == [] && s.sent == [] && s.sentIn == []
    requires s.epoch == 1 && |s.queue| == 1 && s.queue[0].epoch == 1
    ensures exists longer :: Legal(Start, longer, d) && !InOwnConnection(Run(Start, longer, d))
  {
    var longer, s' := Reach(steps, Connected, d, s);
    longer, s' := Reach(longer, Subscribe(true), d, s');
    longer, s' := Reach(longer, WorkerBegin, d, s');
    longer, s' := Reach(longer, Pop(WORKER), d, s');
    longer, s' := Reach(longer, SendOk(0), d, s');
    assert s'.sentIn[0] == 2 && s'.sent[0].epoch == 1;
  }

  lemma WorkerHolds(d: Discipline) returns (steps: seq<Step>, s: State)
    ensures Legal(Start, steps, d) && s == Run(Start, steps, d)
    ensures var x := Item(0, 1, "a");
      s == Fresh1.(accepted := [x], flight := [Held(x, WORKER)], threads := map[WORKER := Working])
  {
    steps, s := OpenLink(d);
    steps, s := PushOne(d, steps, s, "a");
    steps, s := Reach(steps, WorkerBegin, d, s);
    steps, s := Reach(steps, Pop(WORKER), d, s);
  }

  /** Torn down between a pop and its requeue. */
  lemma DisconnectBeforeRequeue(d: Discipline)
    requires !d.apart
    ensures exists steps :: Legal(Start, steps, d) && !InOwnConnection(Run(Start, steps, d))
  {
    var steps, s := WorkerHolds(d);
    var x := s.flight[0].item;
    steps, s := Reach(steps, Disconnected, d, s);
    steps, s := Reach(steps, Requeue(0), d, s);
    assert s.queue == [x] && s.threads == map[] && s.flight == [];
    GoesOutNext(d, steps, s);
  }

  /** Torn down between the guards of a push and its locked region. */
  lemma DisconnectInsidePush(d: Discipline)
    requires !d.whole
    ensures exists steps :: Legal(Start, steps, d) && !InOwnConnection(Run(Start, steps, d))
  {
    var steps, s := OpenLink(d);
    steps, s := Reach(steps, PushBegin(1, "a"), d, s);
    steps, s := Reach(steps, Disconnected, d, s);
    steps, s := Reach(steps, Store(1), d, s);
    assert s.threads == map[];
    GoesOutNext(d, steps, s);
  }

  /** Every frame goes out in the connection it was pushed in, in all runs, exactly if the connection is
      torn down neither between a pop and its outcome nor inside a push. */
  lemma CrossingExactly(d: Discipline)
    ensures (forall steps :: Legal(Start, steps, d) ==> InOwnConnection(Run(Start, steps, d))) <==>
            d.apart && d.whole
  {
    if d.apart && d.whole {
      forall steps | Legal(Start, steps, d)
        ensures InOwnConnection(Run(Start, steps, d))
      {
        NothingCrossesConnections(steps, d);
      }
    } else if !d.apart {
      DisconnectBeforeRequeue(d);
    } else {
      DisconnectInsidePush(d);
    }
  }
}

/** Wi-Fi power around scans: command threads, the scan event handler, the delayed auto-off work and the
    connection worker, interleaved. */
module ScanPower {
  import opened Text

  const BUSY_RETRY_COUNT: nat := 10

  /** Where a command thread stands inside a scan start. */
  datatype Pc =
    | Checked                        // no scan was going on
    | Marked                         // auto-power decided
    | Requested                      // scan requested
    | Powered                        // Wi-Fi and its services requested
    | Attempt(n: nat)                // about to ask the driver for the n-th time
    | Asking(n: nat)                 // scan marked as running, driver asked
    | Refused(n: nat, busy: bool)    // scan marked as failed

  datatype State = State(
    wifi: bool,        // Wi-Fi requested
    auto: bool,        // requested by a scan only
    requested: bool,   // scan requested
    running: bool,     // scan running
    pending: bool,     // auto-off work scheduled
    connected: bool,   // associated
    doneSeen: bool,    // the event handler is past its locked region
    pc: map<nat, Pc>)  // the threads inside a scan start

  const Init: State := State(false, false, false, false, false, false, false, map[])

  datatype Step =
    | Begin(t: nat)
    | Mark(t: nat)
    | Request(t: nat)
    | Power(t: nat)
    | EarlyError(t: nat)
    | Prepare(t: nat)
    | AlreadyRunning(t: nat)
    | Start(t: nat)
    | Granted(t: nat)
    | Refuse(t: nat, busy: bool)
    | AfterRefusal(t: nat)
    | DoneEvent
    | AfterDone
    | AutoOff
    | WifiOn
    | WifiOff
    | WorkerFails
    | Associated
    | Disassociated

  ghost predicate At(s: State, t: nat, pc: Pc) {
    t in s.pc && s.pc[t] == pc
  }

  ghost predicate Enabled(s: State, step: Step) {
    match step
    case Begin(t) => t !in s.pc && !s.requested && !s.running
    case Mark(t) => At(s, t, Checked)
    case Request(t) => At(s, t, Marked)
    case Power(t) => At(s, t, Requested)
    case EarlyError(t) => At(s, t, Powered)
    case Prepare(t) => At(s, t, Powered)
    case AlreadyRunning(t) => t in s.pc && s.pc[t].Attempt? && s.running
    case Start(t) => t in s.pc && s.pc[t].Attempt?
    case Granted(t) => t in s.pc && s.pc[t].Asking?
    case Refuse(t, _) => t in s.pc && s.pc[t].Asking?
    case AfterRefusal(t) => t in s.pc && s.pc[t].Refused?
    case DoneEvent => !s.doneSeen
    case AfterDone => s.doneSeen
    case AutoOff => s.pending
    case _ => true
  }

  function Off(s: State): State {
    s.(wifi := false, auto := false, requested := false)
  }

  function Goto(s: State, t: nat, pc: Pc): State {
    s.(pc := s.pc[t := pc])
  }

  function Leave(s: State, t: nat): State {
    s.(pc := s.pc - {t})
  }

  ghost function Apply(s: State, step: Step): State
    requires Enabled(s, step)
  {
    match step
    case Begin(t) => Goto(s, t, Checked)
    case Mark(t) => Goto(s.(auto := s.auto || !s.wifi), t, Marked)
    case Request(t) => Goto(s.(requested := true), t, Requested)
    case Power(t) => Goto(s.(wifi := true), t, Powered)
    case EarlyError(t) => Leave(s.(requested := false), t)
    case Prepare(t) => Goto(s, t, Attempt(0))
    case AlreadyRunning(t) => Leave(s.(requested := false), t)
    case Start(t) => Goto(s.(running := true, requested := false), t, Asking(s.pc[t].n))
    case Granted(t) => Leave(s, t)
    case Refuse(t, busy) => Goto(s.(requested := false, running := false), t, Refused(s.pc[t].n, busy))
    case AfterRefusal(t) =>
      var s' := s.(pending := s.pending || s.auto);
      if s.pc[t].busy && s.pc[t].n < BUSY_RETRY_COUNT then Goto(s', t, Attempt(s.pc[t].n + 1)) else Leave(s', t)
    case DoneEvent => s.(requested := false, running := false, doneSeen := true)
    case AfterDone => s.(pending := s.pending || s.auto, doneSeen := false)
    case AutoOff =>
      var s' := s.(pending := false);
      if OffTakesEffect(s) then Off(s') else s'
    case WifiOn => s.(wifi := true)
    case WifiOff => Off(s)
    case WorkerFails => s.(wifi := false)
    case Associated => s.(connected := true)
    case Disassociated => s.(connected := false)
  }

  // ----- runs

  /** What a run keeps to; each may be asked for or not. */
  datatype Discipline = Discipline(
    noEarlyError: bool,   // no scan start takes its early error returns
    offUnassociated: bool,// the auto-off work never fires while associated
    keepOn: bool,         // nobody switches Wi-Fi off and the worker's preparation does not fail
    offOutside: bool)     // the auto-off work does not switch Wi-Fi off while a thread works on a scan start

  /** The auto-off work would switch Wi-Fi off. */
  predicate OffTakesEffect(s: State) {
    s.auto && !s.running && !s.requested && !s.connected
  }

  /** A thread that has powered Wi-Fi up and is not through with asking for its scan. */
  predicate AtWork(pc: Pc) {
    pc.Powered? || pc.Attempt? || pc.Asking? || pc.Refused?
  }

  ghost predicate Idle(s: State) {
    forall t :: t in s.pc ==> !AtWork(s.pc[t])
  }

  ghost predicate Keeps(s: State, step: Step, d: Discipline) {
    && (d.noEarlyError ==> !step.EarlyError?)
    && (d.offUnassociated && step.AutoOff? ==> !s.connected)
    && (d.keepOn ==> !step.WifiOff? && !step.WorkerFails?)
    && (d.offOutside && step.AutoOff? && OffTakesEffect(s) ==> Idle(s))
  }

  ghost predicate Legal(s: State, steps: seq<Step>, d: Discipline)
    decreases steps
  {
    steps == [] ||
    (Enabled(s, steps[0]) && Keeps(s, steps[0], d) && Legal(Apply(s, steps[0]), steps[1..], d))
  }

  ghost function Run(s: State, steps: seq<Step>, d: Discipline): State
    requires Legal(s, steps, d)
    decreases steps
  {
    if steps == [] then s else Run(Apply(s, steps[0]), steps[1..], d)
  }

  /** The thread a step belongs to, if it is a thread's. */
  function Mover(step: Step): Option<nat> {
    match step
    case Begin(t) => Some(t)
    case Mark(t) => Some(t)
    case Request(t) => Some(t)
    case Power(t) => Some(t)
    case EarlyError(t) => Some(t)
    case Prepare(t) => Some(t)
    case AlreadyRunning(t) => Some(t)
    case Start(t) => Some(t)
    case Granted(t) => Some(t)
    case Refuse(t, _) => Some(t)
    case AfterRefusal(t) => Some(t)
    case _ => None
  }

  // ----- auto-power is never leaked

  /** A thread that will yet mark a scan as running, or look at the auto-power flag. */
  ghost predicate WillCare(pc: Pc) {
    !pc.Checked? && !pc.Asking?
  }

  ghost predicate WillDropRequest(pc: Pc) {
    pc.Requested? || pc.Powered? || pc.Attempt?
  }

  /** Auto-power always has somebody to look after it. */
  ghost predicate AutoCaredFor(s: State) {
    s.auto ==> s.requested || s.running || s.pending || s.doneSeen || exists t :: t in s.pc && WillCare(s.pc[t])
  }

  /** So has a requested scan. */
  ghost predicate RequestCaredFor(s: State) {
    s.requested ==> exists t :: t in s.pc && WillDropRequest(s.pc[t])
  }

  ghost predicate LookedAfter(s: State) {
    AutoCaredFor(s) && RequestCaredFor(s)
  }

  /** A step that moves one thread only leaves the others' care in place. */
  lemma CareMoves(s: State, s': State, t: nat)
    requires AutoCaredFor(s) && s'.auto == s.auto
    requires s.auto && (s.requested || s.running || s.pending || s.doneSeen) ==>
               s'.requested || s'.running || s'.pending || s'.doneSeen || (t in s'.pc && WillCare(s'.pc[t]))
    requires forall u :: u in s.pc && u != t ==> u in s'.pc && s'.pc[u] == s.pc[u]
    requires s.auto && t in s.pc && WillCare(s.pc[t]) ==>
               s'.requested || s'.running || s'.pending || s'.doneSeen || (t in s'.pc && WillCare(s'.pc[t]))
    ensures AutoCaredFor(s')
  {
    if s.auto && exists u :: u in s.pc && WillCare(s.pc[u]) {
      var u :| u in s.pc && WillCare(s.pc[u]);
      assert u != t ==> u in s'.pc && WillCare(s'.pc[u]);
    }
  }

  lemma StartingKeepsAuto(s: State, step: Step, t: nat)
    requires Enabled(s, step) && Mover(step) == Some(t) && LookedAfter(s)
    requires step.Begin? || step.Request? || step.Power? || step.Prepare?
    ensures AutoCaredFor(Apply(s, step))
  {
    CareMoves(s, Apply(s, step), t);
  }

  lemma AskingKeepsAuto(s: State, step: Step, t: nat)
    requires Enabled(s, step) && Mover(step) == Some(t) && LookedAfter(s)
    requires step.AlreadyRunning? || step.Start? || step.Granted?
    ensures AutoCaredFor(Apply(s, step))
  {
    CareMoves(s, Apply(s, step), t);
  }

  lemma RefuseKeepsAuto(s: State, t: nat, busy: bool)
    requires Enabled(s, Refuse(t, busy)) && LookedAfter(s)
    ensures AutoCaredFor(Apply(s, Refuse(t, busy)))
  {
    CareMoves(s, Apply(s, Refuse(t, busy)), t);
  }

  lemma AfterRefusalKeepsAuto(s: State, t: nat)
    requires Enabled(s, AfterRefusal(t)) && LookedAfter(s)
    ensures AutoCaredFor(Apply(s, AfterRefusal(t)))
  {
    CareMoves(s, Apply(s, AfterRefusal(t)), t);
  }

  lemma MarkKeepsAuto(s: State, t: nat)
    requires Enabled(s, Mark(t))
    ensures AutoCaredFor(Apply(s, Mark(t)))
  {
    assert t in Apply(s, Mark(t)).pc;
  }

  lemma EventKeepsAuto(s: State, step: Step, d: Discipline)
    requires Enabled(s, step) && Keeps(s, step, d) && d.offUnassociated && LookedAfter(s)
    requires step.DoneEvent? || step.AfterDone? || step.AutoOff?
    ensures AutoCaredFor(Apply(s, step))
  {
  }

  lemma SwitchKeepsAuto(s: State, step: Step)
    requires Enabled(s, step) && LookedAfter(s)
    requires step.WifiOn? || step.WifiOff? || step.WorkerFails? || step.Associated? || step.Disassociated?
    ensures AutoCaredFor(Apply(s, step))
  {
  }

  lemma StepKeepsAuto(s: State, step: Step, d: Discipline)
    requires Enabled(s, step) && Keeps(s, step, d) && d.noEarlyError && d.offUnassociated && LookedAfter(s)
    ensures AutoCaredFor(Apply(s, step))
  {
    match step {
      case Begin(t) => StartingKeepsAuto(s, step, t);
      case Mark(t) => MarkKeepsAuto(s, t);
      case Request(t) => StartingKeepsAuto(s, step, t);
      case Power(t) => StartingKeepsAuto(s, step, t);
      case Prepare(t) => StartingKeepsAuto(s, step, t);
      case AlreadyRunning(t) => AskingKeepsAuto(s, step, t);
      case Start(t) => AskingKeepsAuto(s, step, t);
      case Granted(t) => AskingKeepsAuto(s, step, t);
      case Refuse(t, busy) => RefuseKeepsAuto(s, t, busy);
      case AfterRefusal(t) => AfterRefusalKeepsAuto(s, t);
      case DoneEvent => EventKeepsAuto(s, step, d);
      case AfterDone => EventKeepsAuto(s, step, d);
      case AutoOff => EventKeepsAuto(s, step, d);
      case _ => SwitchKeepsAuto(s, step);
    }
  }

  /** A thread that moves keeps its own request in hand, or gives it up. */
  lemma RequestMoves(s: State, s': State, t: nat)
    requires RequestCaredFor(s)
    requires s'.requested ==> s.requested || (t in s'.pc && WillDropRequest(s'.pc[t]))
    requires forall u :: u in s.pc && u != t ==> u in s'.pc && s'.pc[u] == s.pc[u]
    requires s'.requested && t in s.pc && WillDropRequest(s.pc[t]) ==> t in s'.pc && WillDropRequest(s'.pc[t])
    ensures RequestCaredFor(s')
  {
    if s'.requested && s.requested {
      var u :| u in s.pc && WillDropRequest(s.pc[u]);
      assert u in s'.pc && WillDropRequest(s'.pc[u]);
    }
  }

  lemma StartingKeepsRequest(s: State, step: Step, t: nat)
    requires Enabled(s, step) && Mover(step) == Some(t) && RequestCaredFor(s)
    requires step.Begin? || step.Mark? || step.Request? || step.Power? || step.EarlyError? || step.Prepare?
    ensures RequestCaredFor(Apply(s, step))
  {
    RequestMoves(s, Apply(s, step), t);
  }

  lemma AskingKeepsRequest(s: State, step: Step, t: nat)
    requires Enabled(s, step) && Mover(step) == Some(t) && RequestCaredFor(s)
    requires step.AlreadyRunning? || step.Start? || step.Granted? || step.Refuse? || step.AfterRefusal?
    ensures RequestCaredFor(Apply(s, step))
  {
    RequestMoves(s, Apply(s, step), t);
  }

  lemma NobodyMoves(s: State, s': State)
    requires RequestCaredFor(s) && s'.pc == s.pc && (s'.requested ==> s.requested)
    ensures RequestCaredFor(s')
  {
  }

  lemma EventKeepsRequest(s: State, step: Step)
    requires Enabled(s, step) && RequestCaredFor(s) && (step.DoneEvent? || step.AfterDone? || step.AutoOff?)
    ensures RequestCaredFor(Apply(s, step))
  {
    NobodyMoves(s, Apply(s, step));
  }

  lemma SwitchKeepsRequest(s: State, step: Step)
    requires Enabled(s, step) && RequestCaredFor(s)
    requires step.WifiOn? || step.WifiOff? || step.WorkerFails? || step.Associated? || step.Disassociated?
    ensures RequestCaredFor(Apply(s, step))
  {
    NobodyMoves(s, Apply(s, step));
  }

  lemma StepKeepsRequest(s: State, step: Step)
    requires Enabled(s, step) && RequestCaredFor(s)
    ensures RequestCaredFor(Apply(s, step))
  {
    if step.DoneEvent? || step.AfterDone? || step.AutoOff? {
      EventKeepsRequest(s, step);
    } else if Mover(step).None? {
      SwitchKeepsRequest(s, step);
    } else if step.AlreadyRunning? || step.Start? || step.Granted? || step.Refuse? || step.AfterRefusal? {
      AskingKeepsRequest(s, step, Mover(step).value);
    } else {
      StartingKeepsRequest(s, step, Mover(step).value);
    }
  }

  lemma {:induction false} RunKeepsCare(s: State, steps: seq<Step>, d: Discipline)
    requires Legal(s, steps, d) && d.noEarlyError && d.offUnassociated && LookedAfter(s)
    ensures LookedAfter(Run(s, steps, d))
    decreases steps
  {
    if steps != [] {
      StepKeepsAuto(s, steps[0], d);
      StepKeepsRequest(s, steps[0]);
      RunKeepsCare(Apply(s, steps[0]), steps[1..], d);
    }
  }

  /** Auto-power is never leaked: over all runs without early error returns and without an auto-off
      while associated, auto-power on means that a scan is running, or its end is being handled, or the
      auto-off is pending, or a thread is inside a scan start; so once all threads are through and the
      handler is idle, only a running scan or a pending auto-off is left. */
  lemma AutoPowerNotLeaked(steps: seq<Step>, d: Discipline)
    requires Legal(Init, steps, d) && d.noEarlyError && d.offUnassociated
    ensures var s := Run(Init, steps, d);
      && (s.auto ==> s.requested || s.running || s.pending || s.doneSeen || s.pc != map[])
      && (s.auto && s.pc == map[] && !s.doneSeen ==> !s.requested && (s.running || s.pending))
  {
    RunKeepsCare(Init, steps, d);
    var s := Run(Init, steps, d);
    if s.pc == map[] {
      assert forall t :: t !in s.pc;
    }
  }

  /** Nobody looks after auto-power. */
  ghost predicate Leaked(s: State) {
    s.auto && s.pc == map[] && !s.doneSeen && !s.requested && !s.running && !s.pending
  }

  // ----- Wi-Fi that was asked for survives scanning

  lemma {:induction false} WifiSurvivesScans(s: State, steps: seq<Step>, d: Discipline)
    requires Legal(s, steps, d) && d.keepOn && s.wifi && !s.auto
    ensures Run(s, steps, d).wifi && !Run(s, steps, d).auto
    decreases steps
  {
    if steps != [] {
      WifiSurvivesScans(Apply(s, steps[0]), steps[1..], d);
    }
  }

  // ----- a thread at work finds Wi-Fi on

  ghost predicate WifiAtWork(s: State) {
    s.wifi || Idle(s)
  }

  lemma ThreadKeepsWifi(s: State, step: Step, t: nat)
    requires Enabled(s, step) && Mover(step) == Some(t) && WifiAtWork(s)
    ensures WifiAtWork(Apply(s, step))
  {
    var s' := Apply(s, step);
    if !s'.wifi {
      assert t in s.pc ==> !AtWork(s.pc[t]);
      assert t in s'.pc ==> !AtWork(s'.pc[t]);
      assert forall u :: u in s'.pc && u != t ==> s'.pc[u] == s.pc[u];
    }
  }

  lemma {:induction false} RunKeepsWifi(s: State, steps: seq<Step>, d: Discipline)
    requires Legal(s, steps, d) && d.keepOn && d.offOutside && WifiAtWork(s)
    ensures WifiAtWork(Run(s, steps, d))
    decreases steps
  {
    if steps != [] {
      if Mover(steps[0]).Some? {
        ThreadKeepsWifi(s, steps[0], Mover(steps[0]).value);
      } else {
        assert Apply(s, steps[0]).pc == s.pc;
      }
      RunKeepsWifi(Apply(s, steps[0]), steps[1..], d);
    }
  }

  // ----- runs built step by step

  lemma {:induction false} Extend(s: State, steps: seq<Step>, step: Step, d: Discipline)
    requires Legal(s, steps, d) && Enabled(Run(s, steps, d), step) && Keeps(Run(s, steps, d), step, d)
    ensures Legal(s, steps + [step], d)
    ensures Run(s, steps + [step], d) == Apply(Run(s, steps, d), step)
    decreases steps
  {
    if steps == [] {
      assert [] + [step] == [step];
      assert [step][1..] == [];
    } else {
      assert (steps + [step])[1..] == steps[1..] + [step];
      Extend(Apply(s, steps[0]), steps[1..], step, d);
    }
  }

  lemma Reach(from: State, steps: seq<Step>, step: Step, d: Discipline, s: State)
      returns (longer: seq<Step>, s': State)
    requires Legal(from, steps, d) && Run(from, steps, d) == s && Enabled(s, step) && Keeps(s, step, d)
    ensures Legal(from, longer, d) && s' == Run(from, longer, d) == Apply(s, step)
    ensures longer == steps + [step]
  {
    longer, s' := steps + [step], Apply(s, step);
    Extend(from, steps, step, d);
  }

  lemma PoweredUp(d: Discipline) returns (steps: seq<Step>, s: State)
    ensures Legal(Init, steps, d)
    ensures s == Run(Init, steps, d) == Init.(wifi := true, auto := true, requested := true, pc := map[0 := Powered])
  {
    steps, s := Reach(Init, [], Begin(0), d, Init);
    steps, s := Reach(Init, steps, Mark(0), d, s);
    steps, s := Reach(Init, steps, Request(0), d, s);
    steps, s := Reach(Init, steps, Power(0), d, s);
  }

  lemma ScanGranted(d: Discipline) returns (steps: seq<Step>, s: State)
    ensures Legal(Init, steps, d)
    ensures s == Run(Init, steps, d) == Init.(wifi := true, auto := true, running := true)
  {
    steps, s := PoweredUp(d);
    steps, s := Reach(Init, steps, Prepare(0), d, s);
    steps, s := Reach(Init, steps, Start(0), d, s);
    steps, s := Reach(Init, steps, Granted(0), d, s);
    assert s.pc == map[];
  }

  lemma ScanDone(d: Discipline) returns (steps: seq<Step>, s: State)
    ensures Legal(Init, steps, d)
    ensures s == Run(Init, steps, d) == Init.(wifi := true, auto := true, pending := true)
  {
    steps, s := ScanGranted(d);
    steps, s := Reach(Init, steps, DoneEvent, d, s);
    steps, s := Reach(Init, steps, AfterDone, d, s);
  }

  // ----- when the laws hold

  /** An early error return leaves Wi-Fi powered for nobody. */
  lemma EarlyErrorLeaks(d: Discipline) returns (steps: seq<Step>)
    requires !d.noEarlyError
    ensures Legal(Init, steps, d) && Leaked(Run(Init, steps, d)) && Run(Init, steps, d).wifi
  {
    var s;
    steps, s := PoweredUp(d);
    steps, s := Reach(Init, steps, EarlyError(0), d, s);
    assert s.pc == map[];
  }

  /** So does an auto-off that fires during an association which goes away later. */
  lemma AssociationLeaks(d: Discipline) returns (steps: seq<Step>)
    requires !d.offUnassociated
    ensures Legal(Init, steps, d) && Leaked(Run(Init, steps, d)) && Run(Init, steps, d).wifi
    ensures !Run(Init, steps, d).connected
  {
    var s;
    steps, s := ScanDone(d);
    steps, s := Reach(Init, steps, Associated, d, s);
    steps, s := Reach(Init, steps, AutoOff, d, s);
    steps, s := Reach(Init, steps, Disassociated, d, s);
  }

  /** Auto-power is never leaked, in any run, exactly if no scan start takes its early error returns and
      the auto-off does not fire during an association. */
  lemma LeakExactly(d: Discipline)
    ensures (forall steps :: Legal(Init, steps, d) ==> !Leaked(Run(Init, steps, d))) <==>
            d.noEarlyError && d.offUnassociated
  {
    if d.noEarlyError && d.offUnassociated {
      forall steps | Legal(Init, steps, d)
        ensures !Leaked(Run(Init, steps, d))
      {
        AutoPowerNotLeaked(steps, d);
      }
    } else if !d.noEarlyError {
      var steps := EarlyErrorLeaks(d);
    } else {
      var steps := AssociationLeaks(d);
    }
  }

  const Careful: Discipline := Discipline(true, true, true, false)

  /** From any state with auto-power on, Wi-Fi is lost to the end of a scan. */
  lemma AutoPowerIsLost(s: State) returns (steps: seq<Step>)
    requires s.auto
    ensures Legal(s, steps, Careful) && !Run(s, steps, Careful).wifi
  {
    var t := s;
    steps := [];
    if s.doneSeen {
      steps, t := Reach(s, steps, AfterDone, Careful, t);
    }
    steps, t := Reach(s, steps, Disassociated, Careful, t);
    steps, t := Reach(s, steps, DoneEvent, Careful, t);
    steps, t := Reach(s, steps, AfterDone, Careful, t);
    steps, t := Reach(s, steps, AutoOff, Careful, t);
  }

  /** Wi-Fi that is on stays on, as far as nobody switches it off and the worker does not fail, exactly if
      auto-power is off. */
  lemma WifiStaysExactly(s: State)
    requires s.wifi
    ensures (forall steps, d: Discipline :: d.keepOn && Legal(s, steps, d) ==> Run(s, steps, d).wifi) <==> !s.auto
  {
    if s.auto {
      var steps := AutoPowerIsLost(s);
    } else {
      forall steps, d: Discipline | d.keepOn && Legal(s, steps, d)
        ensures Run(s, steps, d).wifi
      {
        WifiSurvivesScans(s, steps, d);
      }
    }
  }

  /** In particular switching Wi-Fi on while auto-power is on does not keep it on: that switch leaves the
      flag as it is. */
  lemma WifiOnDuringScanIsLost(s: State)
    ensures (forall steps, d: Discipline :: d.keepOn && Legal(Apply(s, WifiOn), steps, d) ==>
               Run(Apply(s, WifiOn), steps, d).wifi) <==> !s.auto
  {
    WifiStaysExactly(Apply(s, WifiOn));
  }

  /** The auto-off of a refused attempt fires before the next attempt of the same scan start, which then
      asks the driver with Wi-Fi no longer requested. */
  lemma RetryWithWifiOff(d: Discipline) returns (steps: seq<Step>)
    requires !d.offOutside
    ensures Legal(Init, steps, d)
    ensures At(Run(Init, steps, d), 0, Asking(1)) && Run(Init, steps, d).running && !Run(Init, steps, d).wifi
  {
    var s;
    steps, s := PoweredUp(d);
    steps, s := Reach(Init, steps, Prepare(0), d, s);
    steps, s := Reach(Init, steps, Start(0), d, s);
    steps, s := Reach(Init, steps, Refuse(0, true), d, s);
    steps, s := Reach(Init, steps, AfterRefusal(0), d, s);
    assert s.pending && OffTakesEffect(s);
    steps, s := Reach(Init, steps, AutoOff, d, s);
    steps, s := Reach(Init, steps, Start(0), d, s);
  }

  lemma SwitchedOffAtWork(d: Discipline) returns (steps: seq<Step>)
    requires !d.keepOn
    ensures Legal(Init, steps, d) && !WifiAtWork(Run(Init, steps, d))
  {
    var s;
    steps, s := PoweredUp(d);
    steps, s := Reach(Init, steps, WifiOff, d, s);
    assert 0 in s.pc;
  }

  /** At the step itself: the auto-off takes Wi-Fi from a thread at work exactly if it takes effect while
      there is one. */
  lemma AutoOffExactly(s: State)
    requires Enabled(s, AutoOff) && s.wifi
    ensures WifiAtWork(Apply(s, AutoOff)) <==> !OffTakesEffect(s) || Idle(s)
  {
    assert Apply(s, AutoOff).pc == s.pc;
  }

  /** A thread at work on a scan start finds Wi-Fi requested, in all runs, exactly if nobody switches it off,
      the worker does not fail, and the auto-off work does not take effect while a thread is at work. */
  lemma WifiAtWorkExactly(d: Discipline)
    ensures (forall steps :: Legal(Init, steps, d) ==> WifiAtWork(Run(Init, steps, d))) <==> d.keepOn && d.offOutside
  {
    if d.keepOn && d.offOutside {
      forall steps | Legal(Init, steps, d)
        ensures WifiAtWork(Run(Init, steps, d))
      {
        RunKeepsWifi(Init, steps, d);
      }
    } else if !d.keepOn {
      var steps := SwitchedOffAtWork(d);
    } else {
      var steps := RetryWithWifiOff(d);
      assert 0 in Run(Init, steps, d).pc;
    }
  }
}

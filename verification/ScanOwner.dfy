/** Whose Wi-Fi it is: Wi-Fi on without anybody having asked for it must have something under way that
    will end it. */
module ScanOwner {
  import opened Text
  import opened ScanPower

  /** A thread that has looked whether Wi-Fi is requested and not yet requested it. */
  predicate Deciding(pc: Pc) {
    pc.Marked? || pc.Requested?
  }

  ghost predicate NobodyDecides(s: State) {
    forall t :: t in s.pc ==> !Deciding(s.pc[t])
  }

  /** The step ends the request for Wi-Fi. */
  predicate Drops(s: State, step: Step) {
    step.WifiOff? || step.WorkerFails? || (step.AutoOff? && OffTakesEffect(s))
  }

  /** Whether somebody has switched Wi-Fi on since it was last dropped. */
  function AskedNext(asked: bool, s: State, step: Step): bool {
    if step.WifiOn? then true else if Drops(s, step) then false else asked
  }

  ghost function Asked(asked: bool, s: State, steps: seq<Step>, d: Discipline): bool
    requires Legal(s, steps, d)
    decreases steps
  {
    if steps == [] then asked else Asked(AskedNext(asked, s, steps[0]), Apply(s, steps[0]), steps[1..], d)
  }

  /** Nothing drops Wi-Fi between a scan start's look at it and its request for it. */
  ghost predicate DropsOutside(s: State, steps: seq<Step>, d: Discipline)
    requires Legal(s, steps, d)
    decreases steps
  {
    steps == [] ||
    ((Drops(s, steps[0]) ==> NobodyDecides(s)) && DropsOutside(Apply(s, steps[0]), steps[1..], d))
  }

  // ----- Wi-Fi is somebody's

  /** Wi-Fi that is requested, or about to be, was asked for or is held by auto-power. */
  ghost predicate Owned(s: State, asked: bool) {
    && (s.wifi ==> asked || s.auto)
    && (asked ==> s.wifi)
    && (NobodyDecides(s) || asked || s.auto)
  }

  lemma NobodyElse(s: State, s': State, t: nat)
    requires NobodyDecides(s) && (t in s'.pc ==> !Deciding(s'.pc[t]))
    requires forall u :: u in s'.pc && u != t ==> u in s.pc && s'.pc[u] == s.pc[u]
    ensures NobodyDecides(s')
  {
  }

  lemma MarkKeepsOwned(s: State, t: nat, asked: bool)
    requires Enabled(s, Mark(t)) && Owned(s, asked)
    ensures Owned(Apply(s, Mark(t)), asked)
  {
  }

  lemma DecidedKeepsOwned(s: State, step: Step, t: nat, asked: bool)
    requires Enabled(s, step) && Mover(step) == Some(t) && (step.Request? || step.Power?) && Owned(s, asked)
    ensures Owned(Apply(s, step), asked)
  {
    assert !NobodyDecides(s);
  }

  lemma StartingKeepsOwned(s: State, step: Step, t: nat, asked: bool)
    requires Enabled(s, step) && Mover(step) == Some(t) && Owned(s, asked)
    requires step.Begin? || step.EarlyError? || step.Prepare? || step.AlreadyRunning?
    ensures Owned(Apply(s, step), asked)
  {
    if NobodyDecides(s) {
      NobodyElse(s, Apply(s, step), t);
    }
  }

  lemma AskingKeepsOwned(s: State, step: Step, t: nat, asked: bool)
    requires Enabled(s, step) && Mover(step) == Some(t) && (step.Start? || step.Granted?) && Owned(s, asked)
    ensures Owned(Apply(s, step), asked)
  {
    if NobodyDecides(s) {
      NobodyElse(s, Apply(s, step), t);
    }
  }

  lemma RefuseKeepsOwned(s: State, t: nat, busy: bool, asked: bool)
    requires Enabled(s, Refuse(t, busy)) && Owned(s, asked)
    ensures Owned(Apply(s, Refuse(t, busy)), asked)
  {
    if NobodyDecides(s) {
      NobodyElse(s, Apply(s, Refuse(t, busy)), t);
    }
  }

  lemma LeaveKeepsOwned(s: State, t: nat, pending: bool, asked: bool)
    requires Owned(s, asked)
    ensures Owned(Leave(s.(pending := pending), t), asked)
  {
    if NobodyDecides(s) {
      NobodyElse(s, Leave(s.(pending := pending), t), t);
    }
  }

  lemma RetryKeepsOwned(s: State, t: nat, n: nat, pending: bool, asked: bool)
    requires t in s.pc && s.pc[t].Refused? && Owned(s, asked)
    ensures Owned(Goto(s.(pending := pending), t, Attempt(n)), asked)
  {
    if NobodyDecides(s) {
      NobodyElse(s, Goto(s.(pending := pending), t, Attempt(n)), t);
    }
  }

  lemma AfterRefusalKeepsOwned(s: State, t: nat, asked: bool)
    requires Enabled(s, AfterRefusal(t)) && Owned(s, asked)
    ensures Owned(Apply(s, AfterRefusal(t)), asked)
  {
    LeaveKeepsOwned(s, t, s.pending || s.auto, asked);
    RetryKeepsOwned(s, t, s.pc[t].n + 1, s.pending || s.auto, asked);
  }

  lemma EventKeepsOwned(s: State, step: Step, asked: bool)
    requires Enabled(s, step) && (Drops(s, step) ==> NobodyDecides(s)) && Owned(s, asked)
    requires step.DoneEvent? || step.AfterDone? || step.AutoOff?
    ensures Owned(Apply(s, step), AskedNext(asked, s, step))
  {
    assert Apply(s, step).pc == s.pc;
  }

  lemma SwitchKeepsOwned(s: State, step: Step, asked: bool)
    requires Enabled(s, step) && (Drops(s, step) ==> NobodyDecides(s)) && Owned(s, asked)
    requires step.WifiOn? || step.WifiOff? || step.WorkerFails? || step.Associated? || step.Disassociated?
    ensures Owned(Apply(s, step), AskedNext(asked, s, step))
  {
    assert Apply(s, step).pc == s.pc;
  }

  lemma StepKeepsOwned(s: State, step: Step, asked: bool)
    requires Enabled(s, step) && (Drops(s, step) ==> NobodyDecides(s)) && Owned(s, asked)
    ensures Owned(Apply(s, step), AskedNext(asked, s, step))
  {
    match step {
      case Mark(t) => MarkKeepsOwned(s, t, asked);
      case Request(t) => DecidedKeepsOwned(s, step, t, asked);
      case Power(t) => DecidedKeepsOwned(s, step, t, asked);
      case Begin(t) => StartingKeepsOwned(s, step, t, asked);
      case EarlyError(t) => StartingKeepsOwned(s, step, t, asked);
      case Prepare(t) => StartingKeepsOwned(s, step, t, asked);
      case AlreadyRunning(t) => StartingKeepsOwned(s, step, t, asked);
      case Start(t) => AskingKeepsOwned(s, step, t, asked);
      case Granted(t) => AskingKeepsOwned(s, step, t, asked);
      case Refuse(t, busy) => RefuseKeepsOwned(s, t, busy, asked);
      case AfterRefusal(t) => AfterRefusalKeepsOwned(s, t, asked);
      case DoneEvent => EventKeepsOwned(s, step, asked);
      case AfterDone => EventKeepsOwned(s, step, asked);
      case AutoOff => EventKeepsOwned(s, step, asked);
      case _ => SwitchKeepsOwned(s, step, asked);
    }
  }

  lemma {:induction false} RunKeepsOwned(s: State, steps: seq<Step>, d: Discipline, asked: bool)
    requires Legal(s, steps, d) && DropsOutside(s, steps, d) && Owned(s, asked)
    ensures Owned(Run(s, steps, d), Asked(asked, s, steps, d))
    decreases steps
  {
    if steps != [] {
      StepKeepsOwned(s, steps[0], asked);
      RunKeepsOwned(Apply(s, steps[0]), steps[1..], d, AskedNext(asked, s, steps[0]));
    }
  }

  // ----- when it is

  /** Wi-Fi is on, nobody asked for it, and nothing is under way that would end it. */
  ghost predicate ForNobody(s: State, asked: bool) {
    s.wifi && !asked && s.pc == map[] && !s.doneSeen && !s.requested && !s.running && !s.pending
  }

  /** A run from the start, its end, and what is known of it. */
  ghost predicate Reached(steps: seq<Step>, d: Discipline, s: State, asked: bool, outside: bool) {
    && Legal(Init, steps, d) && s == Run(Init, steps, d)
    && asked == Asked(false, Init, steps, d)
    && (outside ==> DropsOutside(Init, steps, d))
  }

  lemma {:induction false} ExtendMore(s: State, steps: seq<Step>, step: Step, d: Discipline, asked: bool)
    requires Legal(s, steps, d) && Enabled(Run(s, steps, d), step) && Keeps(Run(s, steps, d), step, d)
    ensures Legal(s, steps + [step], d)
    ensures Asked(asked, s, steps + [step], d) == AskedNext(Asked(asked, s, steps, d), Run(s, steps, d), step)
    ensures DropsOutside(s, steps, d) && (Drops(Run(s, steps, d), step) ==> NobodyDecides(Run(s, steps, d))) ==>
              DropsOutside(s, steps + [step], d)
    decreases steps
  {
    Extend(s, steps, step, d);
    if steps == [] {
      assert [] + [step] == [step];
      assert [step][1..] == [];
    } else {
      assert (steps + [step])[0] == steps[0] && (steps + [step])[1..] == steps[1..] + [step];
      ExtendMore(Apply(s, steps[0]), steps[1..], step, d, AskedNext(asked, s, steps[0]));
    }
  }

  /** One more step, nobody's switch. */
  lemma Next(steps: seq<Step>, step: Step, d: Discipline, s: State, outside: bool)
      returns (longer: seq<Step>, s': State)
    requires Reached(steps, d, s, false, outside) && Enabled(s, step) && Keeps(s, step, d) && !step.WifiOn?
    requires outside && Drops(s, step) ==> NobodyDecides(s)
    ensures s' == Apply(s, step) && Reached(longer, d, s', false, outside)
  {
    longer, s' := steps + [step], Apply(s, step);
    Extend(Init, steps, step, d);
    ExtendMore(Init, steps, step, d, false);
  }

  lemma Power0(d: Discipline, outside: bool) returns (steps: seq<Step>, s: State)
    ensures Reached(steps, d, s, false, outside)
    ensures s == Init.(wifi := true, auto := true, requested := true, pc := map[0 := Powered])
  {
    steps, s := Next([], Begin(0), d, Init, outside);
    steps, s := Next(steps, Mark(0), d, s, outside);
    steps, s := Next(steps, Request(0), d, s, outside);
    steps, s := Next(steps, Power(0), d, s, outside);
  }

  lemma Grant(d: Discipline, before: seq<Step>, b: State, outside: bool) returns (steps: seq<Step>, s: State)
    requires Reached(before, d, b, false, outside) && b.pc == map[0 := Powered]
    ensures Reached(steps, d, s, false, outside)
    ensures s == b.(requested := false, running := true, pc := map[])
  {
    steps, s := Next(before, Prepare(0), d, b, outside);
    assert s.pc == map[0 := Attempt(0)];
    steps, s := Next(steps, Start(0), d, s, outside);
    assert s.pc == map[0 := Asking(0)];
    steps, s := Next(steps, Granted(0), d, s, outside);
    assert s.pc == map[];
  }

  /** The rest of a scan that the driver grants. */
  lemma Scan(d: Discipline, before: seq<Step>, b: State, outside: bool) returns (steps: seq<Step>, s: State)
    requires Reached(before, d, b, false, outside) && b.pc == map[0 := Powered] && !b.doneSeen
    ensures Reached(steps, d, s, false, outside)
    ensures s == b.(requested := false, running := false, pc := map[], pending := b.pending || b.auto)
  {
    steps, s := Grant(d, before, b, outside);
    steps, s := Next(steps, DoneEvent, d, s, outside);
    steps, s := Next(steps, AfterDone, d, s, outside);
  }

  lemma EarlyErrorForNobody(d: Discipline, outside: bool) returns (steps: seq<Step>, s: State)
    requires !d.noEarlyError
    ensures Reached(steps, d, s, false, outside) && ForNobody(s, false)
  {
    steps, s := Power0(d, outside);
    steps, s := Next(steps, EarlyError(0), d, s, outside);
    assert s.pc == map[];
  }

  lemma AssociationForNobody(d: Discipline, outside: bool) returns (steps: seq<Step>, s: State)
    requires !d.offUnassociated
    ensures Reached(steps, d, s, false, outside) && ForNobody(s, false)
  {
    steps, s := Power0(d, outside);
    steps, s := Scan(d, steps, s, outside);
    steps, s := Next(steps, Associated, d, s, outside);
    steps, s := Next(steps, AutoOff, d, s, outside);
    steps, s := Next(steps, Disassociated, d, s, outside);
  }

  /** A scan start has found Wi-Fi on, and then the auto-off of the scan before takes it away. */
  lemma DroppedWhileDeciding(d: Discipline) returns (steps: seq<Step>, s: State)
    ensures Reached(steps, d, s, false, false) && s == Init.(pc := map[0 := Marked])
  {
    steps, s := Power0(d, false);
    steps, s := Scan(d, steps, s, false);
    steps, s := Next(steps, Begin(0), d, s, false);
    steps, s := Next(steps, Mark(0), d, s, false);
    assert OffTakesEffect(s) && s.pc == map[0 := Marked];
    steps, s := Next(steps, AutoOff, d, s, false);
  }

  /** The start requests Wi-Fi again, and nothing will end it. */
  lemma DropForNobody(d: Discipline) returns (steps: seq<Step>, s: State)
    ensures Reached(steps, d, s, false, false) && ForNobody(s, false) && !s.auto
  {
    steps, s := DroppedWhileDeciding(d);
    steps, s := Next(steps, Request(0), d, s, false);
    steps, s := Next(steps, Power(0), d, s, false);
    assert s == Init.(wifi := true, requested := true, pc := map[0 := Powered]);
    steps, s := Scan(d, steps, s, false);
  }

  /** Wi-Fi is never left on for nobody, in any run, exactly if no scan start takes its early error
      returns, the auto-off does not fire during an association, and nothing drops Wi-Fi between a scan
      start's look at it and its request for it. */
  lemma ForNobodyExactly(d: Discipline, outside: bool)
    ensures (forall steps, s, asked :: Reached(steps, d, s, asked, outside) ==> !ForNobody(s, asked)) <==>
            d.noEarlyError && d.offUnassociated && outside
  {
    if d.noEarlyError && d.offUnassociated && outside {
      forall steps, s, asked | Reached(steps, d, s, asked, outside)
        ensures !ForNobody(s, asked)
      {
        AutoPowerNotLeaked(steps, d);
        RunKeepsOwned(Init, steps, d, false);
      }
    } else if !d.noEarlyError {
      var steps, s := EarlyErrorForNobody(d, outside);
    } else if !d.offUnassociated {
      var steps, s := AssociationForNobody(d, outside);
    } else {
      var steps, s := DropForNobody(d);
    }
  }
}

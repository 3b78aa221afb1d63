/** What protects a scan that is requested or running: no other begins beside it, and Wi-Fi stays on for it. */
module ScanGuards {
  import opened Text
  import opened ScanPower

  // ----- no second scan

  /** A step that can end a requested or running scan. */
  predicate EndsScan(step: Step) {
    step.EarlyError? || step.Refuse? || step.DoneEvent? || step.WifiOff?
  }

  lemma StepKeepsScan(s: State, step: Step)
    requires Enabled(s, step) && (s.requested || s.running) && !EndsScan(step)
    ensures !step.Begin?
    ensures Apply(s, step).requested || Apply(s, step).running
    ensures s.running ==> Apply(s, step).running
  {
  }

  /** From a state with a scan requested or running no scan start gets past its test before an early error,
      a refusal, the end of the scan, or Wi-Fi is switched off; an auto-off in between has no effect. */
  lemma {:induction false} NoSecondScan(s: State, steps: seq<Step>, d: Discipline)
    requires Legal(s, steps, d) && (s.requested || s.running)
    requires forall step :: step in steps ==> !EndsScan(step)
    ensures forall step :: step in steps ==> !step.Begin?
    ensures Run(s, steps, d).requested || Run(s, steps, d).running
    ensures s.running ==> Run(s, steps, d).running
    decreases steps
  {
    if steps != [] {
      assert steps[0] in steps && forall step :: step in steps[1..] ==> step in steps;
      StepKeepsScan(s, steps[0]);
      NoSecondScan(Apply(s, steps[0]), steps[1..], d);
      assert forall step :: step in steps ==> step == steps[0] || step in steps[1..];
    }
  }

  // ----- a requested scan has its Wi-Fi

  ghost predicate AboutToPower(s: State) {
    exists t :: t in s.pc && s.pc[t].Requested?
  }

  ghost predicate Provided(s: State) {
    s.requested ==> s.wifi || AboutToPower(s)
  }

  lemma StepKeepsProvided(s: State, step: Step)
    requires Enabled(s, step) && Provided(s) && !step.WorkerFails?
    ensures Provided(Apply(s, step))
  {
    var s' := Apply(s, step);
    if s'.requested && !s'.wifi {
      if step.Request? {
        assert step.t in s'.pc && s'.pc[step.t].Requested?;
      } else {
        assert s.requested && !s.wifi;
        var t :| t in s.pc && s.pc[t].Requested?;
        assert t in s'.pc && s'.pc[t].Requested?;
      }
    }
  }

  lemma {:induction false} RunKeepsProvided(s: State, steps: seq<Step>, d: Discipline)
    requires Legal(s, steps, d) && Provided(s) && WorkerFails !in steps
    ensures Provided(Run(s, steps, d))
    decreases steps
  {
    if steps != [] {
      assert steps[0] in steps && forall step :: step in steps[1..] ==> step in steps;
      StepKeepsProvided(s, steps[0]);
      RunKeepsProvided(Apply(s, steps[0]), steps[1..], d);
    }
  }

  lemma FailsWhileRequested(d: Discipline) returns (steps: seq<Step>)
    requires !d.keepOn
    ensures Legal(Init, steps, d) && !Provided(Run(Init, steps, d))
  {
    var s;
    steps, s := PoweredUp(d);
    assert s.requested && s.pc == map[0 := Powered];
    steps, s := Reach(Init, steps, WorkerFails, d, s);
    assert !AboutToPower(s);
  }

  /** A requested scan has Wi-Fi requested, or a thread about to request it, in all runs, if and only if the
      worker's preparation does not fail. */
  lemma ProvidedExactly(d: Discipline, prepared: bool)
    requires !d.keepOn
    ensures (forall steps :: Legal(Init, steps, d) && (prepared ==> WorkerFails !in steps) ==>
               Provided(Run(Init, steps, d))) <==> prepared
  {
    if prepared {
      forall steps | Legal(Init, steps, d) && WorkerFails !in steps
        ensures Provided(Run(Init, steps, d))
      {
        RunKeepsProvided(Init, steps, d);
      }
    } else {
      var steps := FailsWhileRequested(d);
    }
  }

  // ----- a running scan has its Wi-Fi

  ghost predicate RunsOnWifi(s: State) {
    WifiAtWork(s) && (s.running ==> s.wifi)
  }

  lemma StepRunsOnWifi(s: State, step: Step, d: Discipline)
    requires Enabled(s, step) && Keeps(s, step, d) && d.keepOn && d.offOutside && RunsOnWifi(s)
    ensures RunsOnWifi(Apply(s, step))
  {
    if Mover(step).Some? {
      ThreadKeepsWifi(s, step, Mover(step).value);
    } else {
      assert Apply(s, step).pc == s.pc;
    }
  }

  lemma {:induction false} RunRunsOnWifi(s: State, steps: seq<Step>, d: Discipline)
    requires Legal(s, steps, d) && d.keepOn && d.offOutside && RunsOnWifi(s)
    ensures RunsOnWifi(Run(s, steps, d))
    decreases steps
  {
    if steps != [] {
      StepRunsOnWifi(s, steps[0], d);
      RunRunsOnWifi(Apply(s, steps[0]), steps[1..], d);
    }
  }

  lemma SwitchedOffWhileRunning(d: Discipline) returns (steps: seq<Step>)
    requires !d.keepOn
    ensures Legal(Init, steps, d) && Run(Init, steps, d).running && !Run(Init, steps, d).wifi
  {
    var s;
    steps, s := PoweredUp(d);
    steps, s := Reach(Init, steps, Prepare(0), d, s);
    steps, s := Reach(Init, steps, Start(0), d, s);
    steps, s := Reach(Init, steps, WifiOff, d, s);
  }

  /** A running scan has Wi-Fi requested, in all runs, under the same conditions as a thread at work. */
  lemma RunningHasWifiExactly(d: Discipline)
    ensures (forall steps :: Legal(Init, steps, d) ==> (Run(Init, steps, d).running ==> Run(Init, steps, d).wifi)) <==>
            d.keepOn && d.offOutside
  {
    if d.keepOn && d.offOutside {
      forall steps | Legal(Init, steps, d)
        ensures Run(Init, steps, d).running ==> Run(Init, steps, d).wifi
      {
        RunRunsOnWifi(Init, steps, d);
      }
    } else if !d.keepOn {
      var steps := SwitchedOffWhileRunning(d);
    } else {
      var steps := RetryWithWifiOff(d);
      assert Run(Init, steps, d).running;
    }
  }

  // ----- how auto-power ends

  lemma AutoStays(s: State, step: Step)
    requires Enabled(s, step) && s.auto && !step.WifiOff? && !step.AutoOff?
    ensures Apply(s, step).auto
  {
    if step.AfterRefusal? || step.Refuse? || step.Start? || step.Granted? {
      AutoStaysAsking(s, step);
    }
  }

  lemma AutoStaysAsking(s: State, step: Step)
    requires Enabled(s, step) && s.auto && (step.AfterRefusal? || step.Refuse? || step.Start? || step.Granted?)
    ensures Apply(s, step).auto
  {
  }

  /** Auto-power ends exactly when Wi-Fi is switched off, or the auto-off fires with no scan requested or
      running and no association; then Wi-Fi is off and nothing is requested any more. */
  lemma AutoEndsExactly(s: State, step: Step)
    requires Enabled(s, step) && s.auto
    ensures !Apply(s, step).auto <==>
            step == WifiOff || (step == AutoOff && !s.running && !s.requested && !s.connected)
    ensures !Apply(s, step).auto ==> !Apply(s, step).wifi && !Apply(s, step).requested
  {
    if !step.WifiOff? && !step.AutoOff? {
      AutoStays(s, step);
    }
  }
}

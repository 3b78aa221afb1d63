/** How often a scan start asks the driver, and what a whole scan leaves behind. */
module ScanAttempts {
  import opened Text
  import opened ScanPower

  /** How often thread t has asked since it last began a scan start, and the refusals it met: for each
      whether the driver was busy. */
  datatype Tries = Tries(asked: nat, busy: seq<bool>)

  function Next(k: Tries, t: nat, step: Step): Tries {
    if step == Begin(t) then Tries(0, [])
    else if step == Start(t) then k.(asked := k.asked + 1)
    else if step.Refuse? && step.t == t then k.(busy := k.busy + [step.busy])
    else k
  }

  function Tried(k: Tries, t: nat, steps: seq<Step>): Tries
    decreases steps
  {
    if steps == [] then k else Tried(Next(k, t, steps[0]), t, steps[1..])
  }

  /** The first n refusals are busy ones. */
  predicate BusyFirst(busy: seq<bool>, n: nat) {
    n <= |busy| && forall i :: 0 <= i < n ==> busy[i]
  }

  /** What the place of a thread says about its tries. */
  ghost predicate Agrees(s: State, t: nat, k: Tries) {
    && k.asked <= 11 && |k.busy| <= k.asked
    && (forall i :: 0 <= i < |k.busy| - 1 ==> k.busy[i])
    && (t in s.pc ==>
          match s.pc[t]
          case Attempt(n) => n <= 10 && k.asked == n == |k.busy| && BusyFirst(k.busy, n)
          case Asking(n) => n <= 10 && k.asked == n + 1 && |k.busy| == n && BusyFirst(k.busy, n)
          case Refused(n, b) => n <= 10 && k.asked == |k.busy| == n + 1 && BusyFirst(k.busy, n) && k.busy[n] == b
          case _ => k == Tries(0, []))
  }

  lemma OthersAgree(s: State, s': State, t: nat, k: Tries)
    requires Agrees(s, t, k) && (t in s'.pc ==> t in s.pc && s'.pc[t] == s.pc[t])
    ensures Agrees(s', t, k)
  {
  }

  lemma OwnStart(s: State, t: nat, k: Tries)
    requires Enabled(s, Start(t)) && Agrees(s, t, k)
    ensures Agrees(Apply(s, Start(t)), t, k.(asked := k.asked + 1))
  {
  }

  lemma OwnRefuse(s: State, t: nat, busy: bool, k: Tries)
    requires Enabled(s, Refuse(t, busy)) && Agrees(s, t, k)
    ensures Agrees(Apply(s, Refuse(t, busy)), t, k.(busy := k.busy + [busy]))
  {
  }

  /** After a refusal another attempt follows exactly if the driver was busy and there were fewer than
      eleven attempts. */
  lemma OwnRetry(s: State, t: nat, k: Tries)
    requires Enabled(s, AfterRefusal(t)) && Agrees(s, t, k)
    ensures Agrees(Apply(s, AfterRefusal(t)), t, k)
    ensures k.busy != [] && (t in Apply(s, AfterRefusal(t)).pc <==> k.busy[|k.busy| - 1] && k.asked < 11)
  {
  }

  lemma OwnOther(s: State, step: Step, t: nat, k: Tries)
    requires Enabled(s, step) && Mover(step) == Some(t) && Agrees(s, t, k)
    requires !step.Start? && !step.Refuse? && !step.AfterRefusal? && !step.Begin?
    ensures Agrees(Apply(s, step), t, k)
  {
  }

  lemma ForeignStep(s: State, step: Step, t: nat)
    requires Enabled(s, step) && Mover(step) != Some(t)
    ensures t in Apply(s, step).pc ==> t in s.pc && Apply(s, step).pc[t] == s.pc[t]
  {
    if Mover(step).None? {
      assert Apply(s, step).pc == s.pc;
    } else {
      MovesOne(s, step, Mover(step).value, t);
    }
  }

  lemma MovesOne(s: State, step: Step, u: nat, t: nat)
    requires Enabled(s, step) && Mover(step) == Some(u) && t != u
    ensures t in Apply(s, step).pc ==> t in s.pc && Apply(s, step).pc[t] == s.pc[t]
  {
  }

  lemma ForeignTries(step: Step, t: nat, k: Tries)
    requires Mover(step) != Some(t)
    ensures Next(k, t, step) == k
  {
  }

  lemma StepAgrees(s: State, step: Step, t: nat, k: Tries)
    requires Enabled(s, step) && Agrees(s, t, k)
    ensures Agrees(Apply(s, step), t, Next(k, t, step))
  {
    if Mover(step) != Some(t) {
      ForeignStep(s, step, t);
      ForeignTries(step, t, k);
      OthersAgree(s, Apply(s, step), t, k);
    } else {
      match step {
        case Start(_) => OwnStart(s, t, k);
        case Refuse(_, busy) => OwnRefuse(s, t, busy, k);
        case AfterRefusal(_) => OwnRetry(s, t, k);
        case Begin(_) =>
        case _ => OwnOther(s, step, t, k);
      }
    }
  }

  lemma {:induction false} RunAgrees(s: State, steps: seq<Step>, d: Discipline, t: nat, k: Tries)
    requires Legal(s, steps, d) && Agrees(s, t, k)
    ensures Agrees(Run(s, steps, d), t, Tried(k, t, steps))
    decreases steps
  {
    if steps != [] {
      StepAgrees(s, steps[0], t, k);
      RunAgrees(Apply(s, steps[0]), steps[1..], d, t, Next(k, t, steps[0]));
    }
  }

  /** In every run a scan start asks the driver eleven times at most, and all refusals but the last were
      busy ones; after a refusal it asks again exactly if the driver was busy and it has asked fewer than
      eleven times. */
  lemma AttemptsExactly(steps: seq<Step>, d: Discipline, t: nat)
    requires Legal(Init, steps, d)
    ensures var k, s := Tried(Tries(0, []), t, steps), Run(Init, steps, d);
      && k.asked <= 11
      && (forall i :: 0 <= i < |k.busy| - 1 ==> k.busy[i])
      && (Enabled(s, AfterRefusal(t)) ==>
            k.busy != [] && (t in Apply(s, AfterRefusal(t)).pc <==> k.busy[|k.busy| - 1] && k.asked < 11))
  {
    RunAgrees(Init, steps, d, t, Tries(0, []));
    var s := Run(Init, steps, d);
    if Enabled(s, AfterRefusal(t)) {
      OwnRetry(s, t, Tried(Tries(0, []), t, steps));
    }
  }

  // ----- a whole scan

  /** Nothing is going on. */
  ghost predicate Quiet(s: State) {
    s.pc == map[] && !s.requested && !s.running && !s.pending && !s.doneSeen && !s.connected && !s.auto
  }

  lemma UpToAttempt(s: State, d: Discipline, t: nat) returns (steps: seq<Step>, s': State)
    requires Quiet(s)
    ensures Legal(s, steps, d) && s' == Run(s, steps, d)
    ensures s' == s.(wifi := true, auto := !s.wifi, requested := true, pc := map[t := Attempt(0)])
  {
    steps, s' := Reach(s, [], Begin(t), d, s);
    steps, s' := Reach(s, steps, Mark(t), d, s');
    steps, s' := Reach(s, steps, Request(t), d, s');
    steps, s' := Reach(s, steps, Power(t), d, s');
    steps, s' := Reach(s, steps, Prepare(t), d, s');
    assert s'.pc == map[t := Attempt(0)];
  }

  lemma Asks(s: State, before: seq<Step>, d: Discipline, b: State, t: nat, n: nat)
      returns (steps: seq<Step>, s': State)
    requires Legal(s, before, d) && Run(s, before, d) == b && b.pc == map[t := Attempt(n)]
    ensures Legal(s, steps, d) && s' == Run(s, steps, d)
    ensures s' == b.(running := true, requested := false, pc := map[t := Asking(n)])
  {
    steps, s' := Reach(s, before, Start(t), d, b);
    assert b.pc[t := Asking(n)] == map[t := Asking(n)];
  }

  lemma IsRefused(s: State, before: seq<Step>, d: Discipline, b: State, t: nat, n: nat, busy: bool)
      returns (steps: seq<Step>, s': State)
    requires Legal(s, before, d) && Run(s, before, d) == b && b.pc == map[t := Asking(n)]
    ensures Legal(s, steps, d) && s' == Run(s, steps, d)
    ensures s' == b.(requested := false, running := false, pc := map[t := Refused(n, busy)])
  {
    steps, s' := Reach(s, before, Refuse(t, busy), d, b);
    assert b.pc[t := Refused(n, busy)] == map[t := Refused(n, busy)];
  }

  lemma RefusedAttempt(s: State, before: seq<Step>, d: Discipline, b: State, t: nat, n: nat, busy: bool)
      returns (steps: seq<Step>, s': State)
    requires Legal(s, before, d) && Run(s, before, d) == b && b.pc == map[t := Attempt(n)]
    ensures Legal(s, steps, d) && s' == Run(s, steps, d)
    ensures s' == b.(requested := false, running := false, pending := b.pending || b.auto,
                     pc := if busy && n < 10 then map[t := Attempt(n + 1)] else map[])
  {
    var c;
    steps, c := Asks(s, before, d, b, t, n);
    steps, c := IsRefused(s, steps, d, c, t, n, busy);
    AfterOne(c, t, n, busy);
    steps, s' := Reach(s, steps, AfterRefusal(t), d, c);
  }

  lemma AfterOne(s: State, t: nat, n: nat, busy: bool)
    requires s.pc == map[t := Refused(n, busy)]
    ensures Enabled(s, AfterRefusal(t))
    ensures Apply(s, AfterRefusal(t)) ==
            s.(pending := s.pending || s.auto, pc := if busy && n < 10 then map[t := Attempt(n + 1)] else map[])
  {
    assert s.pc - {t} == map[] && s.pc[t := Attempt(n + 1)] == map[t := Attempt(n + 1)];
  }

  /** Busy refusals one after the other. */
  lemma {:induction false} BusyAttempts(s: State, before: seq<Step>, d: Discipline, b: State, t: nat, n: nat)
      returns (steps: seq<Step>, s': State)
    requires Legal(s, before, d) && Run(s, before, d) == b && b.pc == map[t := Attempt(0)] && n <= 10
    ensures Legal(s, steps, d) && s' == Run(s, steps, d)
    ensures if n == 0 then s' == b
            else s' == b.(requested := false, running := false, pending := b.pending || b.auto,
                          pc := map[t := Attempt(n)])
    decreases n
  {
    if n == 0 {
      steps, s' := before, b;
    } else {
      var c;
      steps, c := BusyAttempts(s, before, d, b, t, n - 1);
      assert c.pc == map[t := Attempt(n - 1)];
      steps, s' := RefusedAttempt(s, steps, d, c, t, n - 1, true);
    }
  }

  lemma GrantedAttempt(s: State, before: seq<Step>, d: Discipline, b: State, t: nat, n: nat)
      returns (steps: seq<Step>, s': State)
    requires Legal(s, before, d) && Run(s, before, d) == b && b.pc == map[t := Attempt(n)] && !b.doneSeen
    ensures Legal(s, steps, d) && s' == Run(s, steps, d)
    ensures s' == b.(requested := false, running := false, pending := b.pending || b.auto, pc := map[])
  {
    var c;
    steps, c := Asks(s, before, d, b, t, n);
    steps, c := Reach(s, steps, Granted(t), d, c);
    assert c.pc == map[];
    steps, s' := ScanEnds(s, steps, d, c);
  }

  lemma ScanEnds(s: State, before: seq<Step>, d: Discipline, b: State) returns (steps: seq<Step>, s': State)
    requires Legal(s, before, d) && Run(s, before, d) == b && !b.doneSeen
    ensures Legal(s, steps, d) && s' == Run(s, steps, d)
    ensures s' == b.(requested := false, running := false, pending := b.pending || b.auto)
  {
    steps, s' := Reach(s, before, DoneEvent, d, b);
    steps, s' := Reach(s, steps, AfterDone, d, s');
  }

  /** A scan leaves Wi-Fi as it was: with nothing else going on, after any number of busy refusals up to ten
      and then the scan and its end, or a last refusal, and the auto-off if one is pending, everything is as
      before. */
  lemma ScanLeavesNoTrace(s: State, d: Discipline, t: nat, n: nat, granted: bool, busy: bool)
      returns (steps: seq<Step>)
    requires Quiet(s) && n <= 10 && (!granted && busy ==> n == 10)
    ensures Legal(s, steps, d) && Run(s, steps, d) == s
  {
    var b, c;
    steps, b := UpToAttempt(s, d, t);
    steps, c := BusyAttempts(s, steps, d, b, t, n);
    assert c.pc == map[t := Attempt(n)] && !c.doneSeen;
    if granted {
      steps, c := GrantedAttempt(s, steps, d, c, t, n);
    } else {
      steps, c := RefusedAttempt(s, steps, d, c, t, n, busy);
    }
    assert c == s.(wifi := true, auto := !s.wifi, pending := !s.wifi);
    if c.pending {
      assert Idle(c);
      steps, c := Reach(s, steps, AutoOff, d, c);
    }
  }
}

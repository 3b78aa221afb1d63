/** Writes and handler steps interleaved: which accepted commands are executed and which are overwritten. */
module CommandRuns {
  import opened Text
  import opened CommandWrite

  ghost predicate Legal(p: Port, events: seq<Event>)
    requires Terminated(p)
    decreases events
  {
    if events == [] then true
    else
      StepTerminates(p, events[0]);
      Enabled(p, events[0]) && Legal(Apply(p, events[0]), events[1..])
  }

  /** The event is a write that is accepted. */
  ghost predicate Takes(p: Port, e: Event)
    requires Terminated(p)
  {
    e.Fragment? && Write(p, e.buf, e.offset).1.Accepted?
  }

  /** The handler begins before another write is accepted. */
  ghost predicate BeginsFirst(p: Port, events: seq<Event>)
    requires Terminated(p)
    decreases events
  {
    if events == [] then false
    else
      StepTerminates(p, events[0]);
      events[0].HandlerBegins? || (!Takes(p, events[0]) && BeginsFirst(Apply(p, events[0]), events[1..]))
  }

  /** Of the accepted writes those that the handler takes before the next one, in order, with the command
      each of them made. */
  ghost function Executed(p: Port, events: seq<Event>): seq<string>
    requires Terminated(p)
    decreases events
  {
    if events == [] then []
    else
      StepTerminates(p, events[0]);
      var q := Apply(p, events[0]);
      (if Takes(p, events[0]) && BeginsFirst(q, events[1..]) then [CStr(q.work)] else []) + Executed(q, events[1..])
  }

  /** The command that waits for the handler, if it is taken before it is overwritten. */
  ghost function Waiting(p: Port, events: seq<Event>): seq<string>
    requires Terminated(p)
  {
    if p.scheduled && BeginsFirst(p, events) then [CStr(p.work)] else []
  }

  /** What a step does to the commands begun. */
  lemma StepBegins(p: Port, e: Event)
    requires Terminated(p) && Enabled(p, e)
    ensures var q := Apply(p, e);
      && q.begun == p.begun + (if e.HandlerBegins? then [CStr(p.work)] else [])
      && (Takes(p, e) ==> q.scheduled)
      && (e.HandlerBegins? ==> !q.scheduled)
      && (!Takes(p, e) && !e.HandlerBegins? ==> q.scheduled == p.scheduled && q.work == p.work)
  {
  }

  /** In every interleaving an accepted command is executed once if the handler begins before the next
      write is accepted, and overwritten if not; nothing else is executed, and the order is kept. */
  lemma {:induction false} ExecutedOrOverwritten(p: Port, events: seq<Event>)
    requires Terminated(p) && Legal(p, events)
    ensures Run(p, events).begun == p.begun + (Waiting(p, events) + Executed(p, events))
    decreases events
  {
    if events != [] {
      var e, rest := events[0], events[1..];
      StepTerminates(p, e);
      StepBegins(p, e);
      var q := Apply(p, e);
      ExecutedOrOverwritten(q, rest);
      WaitingMoves(p, events, q, rest);
      var now := if e.HandlerBegins? then [CStr(p.work)] else [];
      Assoc(p.begun, now, Waiting(q, rest) + Executed(q, rest));
    }
  }

  lemma WaitingMoves(p: Port, events: seq<Event>, q: Port, rest: seq<Event>)
    requires Terminated(p) && events != [] && rest == events[1..] && Enabled(p, events[0])
    requires q == Apply(p, events[0]) && Terminated(q)
    ensures var now := if events[0].HandlerBegins? then [CStr(p.work)] else [];
      Waiting(p, events) + Executed(p, events) == now + (Waiting(q, rest) + Executed(q, rest))
  {
    StepBegins(p, events[0]);
    var later := Executed(q, rest);
    assert [] + later == later;
  }

  // ----- one command after the other

  /** Each command is written as one fragment and handled before the next one. */
  function OneByOne(commands: seq<string>): seq<Event> {
    if commands == [] then []
    else [Fragment(commands[0], 0), HandlerBegins, HandlerEnds] + OneByOne(commands[1..])
  }

  function CStrs(commands: seq<string>): seq<string> {
    if commands == [] then [] else [CStr(commands[0])] + CStrs(commands[1..])
  }

  /** Nothing is being handled and nothing waits. */
  predicate Idle(p: Port) {
    !p.busy && !p.scheduled && !p.running
  }

  lemma OneHandled(p: Port, command: string) returns (q: Port)
    requires Terminated(p) && Idle(p) && |command| < 255
    ensures Terminated(q) && Idle(q) && q.begun == p.begun + [CStr(command)]
    ensures forall more ::
      var events := [Fragment(command, 0), HandlerBegins, HandlerEnds] + more;
      Run(p, events) == Run(q, more) && (Legal(q, more) ==> Legal(p, events))
  {
    FirstFragment(p, command);
    var a := Write(p, command, 0).0;
    var b := Begin(a);
    StepTerminates(p, Fragment(command, 0));
    StepTerminates(a, HandlerBegins);
    StepTerminates(b, HandlerEnds);
    q := Finish(b);
    WriteLeaves(p, command);
    forall more
      ensures var events := [Fragment(command, 0), HandlerBegins, HandlerEnds] + more;
        Run(p, events) == Run(q, more) && (Legal(q, more) ==> Legal(p, events))
    {
      ThreeSteps(p, a, b, q, command, more);
    }
  }

  lemma WriteLeaves(p: Port, command: string)
    requires Terminated(p) && Idle(p) && |command| < 255
    ensures var a := Write(p, command, 0).0; !a.running && CStr(a.work) == CStr(command) && a.begun == p.begun
  {
    FirstFragment(p, command);
  }

  lemma ThreeSteps(p: Port, a: Port, b: Port, q: Port, command: string, more: seq<Event>)
    requires Terminated(p) && Terminated(a) && Terminated(b) && Terminated(q)
    requires a == Write(p, command, 0).0 && b == Begin(a) && q == Finish(b) && a.scheduled && !a.running
    ensures var events := [Fragment(command, 0), HandlerBegins, HandlerEnds] + more;
      Run(p, events) == Run(q, more) && (Legal(q, more) ==> Legal(p, events))
  {
    var behind := [HandlerBegins, HandlerEnds] + more;
    var events := [Fragment(command, 0), HandlerBegins, HandlerEnds] + more;
    assert events[1..] == behind && behind[1..] == [HandlerEnds] + more && ([HandlerEnds] + more)[1..] == more;
    assert Run(b, [HandlerEnds] + more) == Run(q, more);
    assert Run(a, behind) == Run(b, [HandlerEnds] + more);
  }

  /** Commands that fit, each handled before the next one is written, are all executed, once and in order,
      and leave the port as ready as it was. */
  lemma {:induction false} AllCommandsRun(p: Port, commands: seq<string>)
    requires Terminated(p) && Idle(p) && forall c :: c in commands ==> |c| < 255
    ensures Legal(p, OneByOne(commands))
    ensures var q := Run(p, OneByOne(commands)); Idle(q) && q.begun == p.begun + CStrs(commands)
    decreases commands
  {
    if commands != [] {
      assert commands[0] in commands && forall c :: c in commands[1..] ==> c in commands;
      var q := OneHandled(p, commands[0]);
      AllCommandsRun(q, commands[1..]);
      assert OneByOne(commands) == [Fragment(commands[0], 0), HandlerBegins, HandlerEnds] + OneByOne(commands[1..]);
      Assoc(p.begun, [CStr(commands[0])], CStrs(commands[1..]));
    }
  }

  // ----- one command in fragments, the handler in between

  /** The writes among the events lie one behind the other from the offset on, none of them is empty, and
      the last one fits. */
  predicate Contiguous(events: seq<Event>, offset: nat)
    decreases events
  {
    if events == [] then offset < CMD_TEXT_MAX
    else match events[0]
      case Fragment(buf, o) => buf != "" && o == offset && Contiguous(events[1..], offset + |buf|)
      case _ => Contiguous(events[1..], offset)
  }

  lemma {:induction false} ContiguousFits(events: seq<Event>, offset: nat)
    requires Contiguous(events, offset)
    ensures offset < CMD_TEXT_MAX
    decreases events
  {
    if events != [] {
      ContiguousFits(events[1..], if events[0].Fragment? then offset + |events[0].buf| else offset);
    }
  }

  /** What is executed if whenever the handler begins it takes the text that has arrived by then. */
  function Parts(done: string, events: seq<Event>): seq<string>
    decreases events
  {
    if events == [] then []
    else match events[0]
      case Fragment(buf, _) => Parts(done + buf, events[1..])
      case HandlerBegins => [CStr(done)] + Parts(done, events[1..])
      case HandlerEnds => Parts(done, events[1..])
  }

  /** The whole text that arrives. */
  function Arriving(done: string, events: seq<Event>): string
    decreases events
  {
    if events == [] then done
    else Arriving(if events[0].Fragment? then done + events[0].buf else done, events[1..])
  }

  /** The text done has arrived, and what waits for the handler, if anything does, is that text. */
  ghost predicate Arrived(p: Port, done: string) {
    && Terminated(p) && done != "" && |done| < CMD_TEXT_MAX && p.cmd[..|done|] == done
    && (p.scheduled ==> CStr(p.work) == CStr(done))
  }

  lemma EventArrives(p: Port, done: string, events: seq<Event>, upTo: string)
    requires Arrived(p, done) && events != [] && Contiguous(events, |done|) && Enabled(p, events[0])
    requires upTo == if events[0].Fragment? then done + events[0].buf else done
    ensures Arrived(Apply(p, events[0]), upTo) && Contiguous(events[1..], |upTo|)
    ensures events[0].Fragment? ==> Takes(p, events[0])
  {
    var e := events[0];
    if e.Fragment? {
      ContiguousFits(events[1..], |upTo|);
      WriteArrives(p, done, e.buf);
    } else {
      HandlerArrives(p, done, e);
    }
  }

  lemma HandlerArrives(p: Port, done: string, e: Event)
    requires Arrived(p, done) && Enabled(p, e) && !e.Fragment?
    ensures Arrived(Apply(p, e), done)
  {
    StepTerminates(p, e);
  }

  lemma WriteArrives(p: Port, done: string, buf: string)
    requires Arrived(p, done) && |done| + |buf| < CMD_TEXT_MAX
    ensures Arrived(Write(p, buf, |done|).0, done + buf) && Write(p, buf, |done|).1.Accepted?
  {
    WriteExtends(p, done, buf);
  }

  /** Every fragment is accepted. */
  ghost predicate AllTaken(p: Port, events: seq<Event>)
    requires Terminated(p)
    decreases events
  {
    if events == [] then true
    else
      StepTerminates(p, events[0]);
      (events[0].Fragment? ==> Takes(p, events[0])) && AllTaken(Apply(p, events[0]), events[1..])
  }

  lemma {:induction false} PartsRun(p: Port, done: string, events: seq<Event>)
    requires Arrived(p, done) && Contiguous(events, |done|) && Legal(p, events)
    ensures AllTaken(p, events)
    ensures Run(p, events).begun == p.begun + Parts(done, events)
    ensures Arrived(Run(p, events), Arriving(done, events))
    decreases events
  {
    if events != [] {
      var e := events[0];
      var upTo := if e.Fragment? then done + e.buf else done;
      EventArrives(p, done, events, upTo);
      StepBegins(p, e);
      PartsRun(Apply(p, e), upTo, events[1..]);
      if e.HandlerBegins? {
        Assoc(p.begun, [CStr(done)], Parts(done, events[1..]));
      }
    }
  }

  /** A command in non-empty fragments whose first finds no command being handled, with handler steps
      anywhere between them: all fragments are accepted, and the handler executes what has arrived each
      time it begins. So a part of the command is executed by itself, and the whole if the handler begins
      behind the last fragment. */
  lemma FragmentsInterleaved(p: Port, buf: string, events: seq<Event>)
    requires Terminated(p) && !p.busy && buf != "" && Contiguous(events, |buf|)
    requires Legal(p, [Fragment(buf, 0)] + events)
    ensures AllTaken(p, [Fragment(buf, 0)] + events)
    ensures var q := Run(p, [Fragment(buf, 0)] + events);
      q.begun == p.begun + Parts(buf, events) && (q.scheduled ==> CStr(q.work) == CStr(Arriving(buf, events)))
  {
    var all := [Fragment(buf, 0)] + events;
    assert all[0] == Fragment(buf, 0) && all[1..] == events;
    ContiguousFits(events, |buf|);
    FirstFragment(p, buf);
    PartsRun(Apply(p, all[0]), buf, events);
  }
}

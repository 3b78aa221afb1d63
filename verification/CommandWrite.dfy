/** Commands written over Bluetooth: fragments collect in one buffer until the debounced handler runs. */
module CommandWrite {
  import opened Text

  const CMD_TEXT_MAX: nat := 255

  /** What the write callback answers: the length, or one of two attribute errors. */
  datatype Answer = Accepted(len: nat) | TooLong | StillRunning

  function Nuls(n: nat): (s: string)
    ensures |s| == n && forall i :: 0 <= i < n ==> s[i] == NUL
  {
    seq(n, _ => NUL)
  }

  /** Both buffers, the busy flag, whether the handler is scheduled, the command it is running and the
      commands it has begun, in order. */
  datatype Port = Port(cmd: string, work: string, busy: bool, scheduled: bool, running: bool, begun: seq<string>)

  const Boot: Port := Port(Nuls(CMD_TEXT_MAX), Nuls(CMD_TEXT_MAX), false, false, false, [])

  /** The last byte of either buffer is never anything but NUL. */
  ghost predicate Terminated(p: Port) {
    && |p.cmd| == |p.work| == CMD_TEXT_MAX
    && p.cmd[CMD_TEXT_MAX - 1] == NUL && p.work[CMD_TEXT_MAX - 1] == NUL
    && forall c :: c in p.begun ==> NulFree(c) && |c| < CMD_TEXT_MAX
  }

  /** The command buffer after a fragment. */
  function Placed(cmd: string, buf: string, offset: nat): (r: string)
    requires |cmd| == CMD_TEXT_MAX && offset + |buf| < CMD_TEXT_MAX
    ensures |r| == CMD_TEXT_MAX
  {
    cmd[..offset] + buf + [NUL] + cmd[offset + |buf| + 1..]
  }

  /** A bounded copy of a C string, padded with NULs. */
  function Copied(s: string): (r: string)
    requires |s| == CMD_TEXT_MAX && s[CMD_TEXT_MAX - 1] == NUL
    ensures |r| == CMD_TEXT_MAX
  {
    CStrEnds(s);
    CStr(s) + Nuls(CMD_TEXT_MAX - |CStr(s)|)
  }

  lemma CopiedIs(s: string, copy: string, text: string)
    requires |s| == |copy| == CMD_TEXT_MAX && s[CMD_TEXT_MAX - 1] == NUL && text == CStr(s)
    requires forall k :: 0 <= k < CMD_TEXT_MAX ==> copy[k] == if k < |text| then text[k] else NUL
    ensures copy == Copied(s) && copy[CMD_TEXT_MAX - 1] == NUL
  {
    CStrEnds(s);
    var rest := Nuls(CMD_TEXT_MAX - |text|);
    forall k | 0 <= k < CMD_TEXT_MAX
      ensures copy[k] == (text + rest)[k]
    {
      assert k >= |text| ==> (text + rest)[k] == rest[k - |text|];
    }
  }

  lemma PlacedEnds(cmd: string, buf: string, offset: nat)
    requires |cmd| == CMD_TEXT_MAX && offset + |buf| < CMD_TEXT_MAX && cmd[CMD_TEXT_MAX - 1] == NUL
    ensures Placed(cmd, buf, offset)[CMD_TEXT_MAX - 1] == NUL
  {
  }

  function Write(p: Port, buf: string, offset: nat): (Port, Answer)
    requires Terminated(p)
  {
    if offset + |buf| >= CMD_TEXT_MAX then (p, TooLong)
    else
      var base := if offset == 0 then Nuls(CMD_TEXT_MAX) else p.cmd;
      var cmd := Placed(base, buf, offset);
      if p.busy && offset == 0 then (p.(cmd := cmd), StillRunning)
      else
        PlacedEnds(base, buf, offset);
        (p.(cmd := cmd, work := Copied(cmd), busy := true, scheduled := true), Accepted(|buf|))
  }

  /** The handler starts: it takes its own copy of the command and executes that. */
  function Begin(p: Port): Port {
    p.(scheduled := false, running := true, begun := p.begun + [CStr(p.work)])
  }

  function Finish(p: Port): Port {
    p.(busy := false, running := false)
  }

  // ----- every sequence of events

  datatype Event = Fragment(buf: string, offset: nat) | HandlerBegins | HandlerEnds

  ghost predicate Enabled(p: Port, e: Event) {
    match e
    case Fragment(_, _) => true
    case HandlerBegins => p.scheduled && !p.running
    case HandlerEnds => p.running
  }

  ghost function Apply(p: Port, e: Event): Port
    requires Terminated(p)
  {
    match e
    case Fragment(buf, offset) => Write(p, buf, offset).0
    case HandlerBegins => Begin(p)
    case HandlerEnds => Finish(p)
  }

  lemma StepTerminates(p: Port, e: Event)
    requires Terminated(p)
    ensures Terminated(Apply(p, e))
  {
    match e
    case Fragment(buf, offset) =>
      if offset + |buf| < CMD_TEXT_MAX {
        var base := if offset == 0 then Nuls(CMD_TEXT_MAX) else p.cmd;
        PlacedEnds(base, buf, offset);
      }
    case HandlerBegins => CStrEnds(p.work);
    case HandlerEnds =>
  }

  ghost function Run(p: Port, events: seq<Event>): Port
    requires Terminated(p)
    decreases events
  {
    if events == [] then p
    else
      StepTerminates(p, events[0]);
      Run(Apply(p, events[0]), events[1..])
  }

  /** Whatever is written and whenever the handler runs, both buffers stay terminated and every command
      that is executed is a C string of at most 254 bytes. */
  lemma {:induction false} AlwaysTerminated(p: Port, events: seq<Event>)
    requires Terminated(p)
    ensures Terminated(Run(p, events))
    decreases events
  {
    if events != [] {
      StepTerminates(p, events[0]);
      AlwaysTerminated(Apply(p, events[0]), events[1..]);
    }
  }

  // ----- the callbacks' own form

  /** The static command buffers and flags. */
  class Buffers {
    const cmdBuf: array<char>
    const workBuf: array<char>
    var busy: bool
    var scheduled: bool
    var running: bool
    /** The commands whose execution has begun, in order. */
    var begun: seq<string>

    function State(): Port
      reads this, cmdBuf, workBuf
    {
      Port(cmdBuf[..], workBuf[..], busy, scheduled, running, begun)
    }

    ghost predicate Valid()
      reads this, cmdBuf, workBuf
    {
      cmdBuf != workBuf && Terminated(State())
    }

    constructor ()
      ensures Valid() && State() == Boot && fresh(cmdBuf) && fresh(workBuf)
    {
      cmdBuf := new char[CMD_TEXT_MAX](_ => NUL);
      workBuf := new char[CMD_TEXT_MAX](_ => NUL);
      busy, scheduled, running, begun := false, false, false, [];
    }

    /** The write callback. */
    method WriteFragment(buf: string, offset: nat) returns (answer: Answer)
      requires Valid()
      modifies this`busy, this`scheduled, cmdBuf, workBuf
      ensures Valid() && (State(), answer) == Write(old(State()), buf, offset)
    {
      StepTerminates(State(), Fragment(buf, offset));
      if offset + |buf| >= CMD_TEXT_MAX {
        return TooLong;
      }
      Place(buf, offset);
      if busy {
        if offset == 0 {
          return StillRunning;
        }
      } else {
        busy := true;
      }
      CopyToWork();
      scheduled := true;
      return Accepted(|buf|);
    }

    /** Puts a fragment and a NUL behind it into the command buffer, cleared first for a fragment at 0. */
    method Place(buf: string, offset: nat)
      requires Valid() && offset + |buf| < CMD_TEXT_MAX
      modifies cmdBuf
      ensures Valid()
      ensures cmdBuf[..] == Placed(if offset == 0 then Nuls(CMD_TEXT_MAX) else old(cmdBuf[..]), buf, offset)
    {
      if offset == 0 {
        forall i | 0 <= i < cmdBuf.Length {
          cmdBuf[i] := NUL;
        }
      }
      ghost var base := cmdBuf[..];
      assert offset == 0 ==> base == Nuls(CMD_TEXT_MAX);
      forall i | 0 <= i < |buf| {
        cmdBuf[offset + i] := buf[i];
      }
      cmdBuf[offset + |buf|] := NUL;
      assert cmdBuf[..] == Placed(base, buf, offset);
    }

    /** The bounded copy of the command for the handler. */
    method CopyToWork()
      requires Valid()
      modifies workBuf
      ensures Valid() && workBuf[..] == Copied(cmdBuf[..])
    {
      ghost var cmd := cmdBuf[..];
      var text := CStr(cmdBuf[..]);
      CStrEnds(cmd);
      forall k | 0 <= k < CMD_TEXT_MAX {
        workBuf[k] := if k < |text| then text[k] else NUL;
      }
      assert cmdBuf[..] == cmd;
      CopiedIs(cmd, workBuf[..], text);
    }

    /** The handler takes the command. */
    method HandlerBegin()
      requires Valid()
      modifies this`scheduled, this`running, this`begun
      ensures Valid() && State() == Begin(old(State()))
    {
      StepTerminates(State(), HandlerBegins);
      var cmd := CStr(workBuf[..]);
      scheduled, running, begun := false, true, begun + [cmd];
    }

    /** The handler is through with the command. */
    method HandlerEnd()
      requires Valid()
      modifies this`busy, this`running
      ensures Valid() && State() == Finish(old(State()))
    {
      busy, running := false, false;
    }
  }

  // ----- one command in fragments

  /** Fragments written one behind the other, and whether all of them were accepted. */
  function WriteAll(p: Port, fragments: seq<string>, offset: nat): (Port, bool)
    requires Terminated(p)
    decreases fragments
  {
    if fragments == [] then (p, true)
    else
      StepTerminates(p, Fragment(fragments[0], offset));
      var (q, answer) := Write(p, fragments[0], offset);
      var (r, rest) := WriteAll(q, fragments[1..], offset + |fragments[0]|);
      (r, answer.Accepted? && rest)
  }

  lemma {:induction false} CStrCut(s: string, n: nat)
    requires n < |s| && s[n] == NUL
    ensures CStr(s) == CStr(s[..n])
  {
    if n > 0 && s[0] != NUL {
      CStrCut(s[1..], n - 1);
      assert s[..n][1..] == s[1..][..n - 1];
    }
  }

  /** The text done has arrived so far and is what the handler would execute. */
  ghost predicate Holds(p: Port, done: string) {
    && Terminated(p) && p.busy && p.scheduled
    && |done| < CMD_TEXT_MAX && p.cmd[..|done|] == done && CStr(p.work) == CStr(done)
  }

  lemma CopiedReads(cmd: string)
    requires |cmd| == CMD_TEXT_MAX && cmd[CMD_TEXT_MAX - 1] == NUL
    ensures CStr(Copied(cmd)) == CStr(cmd)
  {
    CStrEnds(cmd);
    CStrOf(CStr(cmd), Nuls(CMD_TEXT_MAX - |CStr(cmd)|));
  }

  lemma PlacedReads(cmd: string, buf: string, offset: nat)
    requires |cmd| == CMD_TEXT_MAX && offset + |buf| < CMD_TEXT_MAX
    ensures var r := Placed(cmd, buf, offset);
      r[..offset + |buf|] == cmd[..offset] + buf && r[offset + |buf|] == NUL
  {
  }

  /** An accepted fragment behind the text that has arrived makes the two one text. */
  lemma WriteExtends(p: Port, done: string, buf: string)
    requires Terminated(p) && |done| + |buf| < CMD_TEXT_MAX && p.cmd[..|done|] == done
    requires p.busy ==> done != ""
    ensures var (q, answer) := Write(p, buf, |done|);
      answer.Accepted? && Holds(q, done + buf) && q.begun == p.begun
  {
    var base := if done == "" then Nuls(CMD_TEXT_MAX) else p.cmd;
    StepTerminates(p, Fragment(buf, |done|));
    PlacedEnds(base, buf, |done|);
    CopiedReads(Placed(base, buf, |done|));
    PlacedReads(base, buf, |done|);
    CStrCut(Placed(base, buf, |done|), |done| + |buf|);
  }

  lemma WriteAllStep(p: Port, fragments: seq<string>, offset: nat, q: Port, answer: Answer)
    requires Terminated(p) && fragments != [] && (q, answer) == Write(p, fragments[0], offset)
    ensures Terminated(q)
    ensures var (r, rest) := WriteAll(q, fragments[1..], offset + |fragments[0]|);
      WriteAll(p, fragments, offset) == (r, answer.Accepted? && rest)
  {
    StepTerminates(p, Fragment(fragments[0], offset));
  }

  /** What the fragments that follow add to the text done. */
  ghost predicate Extended(p: Port, done: string, more: string, q: Port, ok: bool) {
    && (ok <==> |done| + |more| < CMD_TEXT_MAX)
    && (ok ==> Holds(q, done + more) && q.begun == p.begun)
  }

  lemma ExtendedMore(p: Port, q: Port, done: string, buf: string, more: string, r: Port, ok: bool)
    requires Extended(q, done + buf, more, r, ok) && q.begun == p.begun
    ensures Extended(p, done, buf + more, r, ok)
  {
    Assoc(done, buf, more);
  }

  lemma {:induction false} FragmentsExtend(p: Port, done: string, fragments: seq<string>)
    requires Holds(p, done) && (done != "" || fragments == [])
    ensures var (q, ok) := WriteAll(p, fragments, |done|); Extended(p, done, Flatten(fragments), q, ok)
    decreases fragments
  {
    if fragments == [] {
      assert done + "" == done;
    } else {
      var (q, answer) := Write(p, fragments[0], |done|);
      WriteAllStep(p, fragments, |done|, q, answer);
      if |done| + |fragments[0]| < CMD_TEXT_MAX {
        WriteExtends(p, done, fragments[0]);
        var upTo := done + fragments[0];
        assert |upTo| == |done| + |fragments[0]|;
        FragmentsExtend(q, upTo, fragments[1..]);
        var (r, ok) := WriteAll(q, fragments[1..], |upTo|);
        ExtendedMore(p, q, done, fragments[0], Flatten(fragments[1..]), r, ok);
      }
    }
  }

  /** Fragments written one behind the other from offset 0 are all accepted exactly if no command is
      being handled, the whole fits, and no second fragment comes at offset 0; and then the handler
      executes their concatenation, as a C string, once. */
  lemma FragmentsReassemble(p: Port, fragments: seq<string>)
    requires Terminated(p) && fragments != []
    ensures var (q, ok) := WriteAll(p, fragments, 0);
      && (ok <==> !p.busy && |Flatten(fragments)| < 255 && (|fragments| == 1 || fragments[0] != ""))
      && (ok ==> q.scheduled && Begin(q).begun == p.begun + [CStr(Flatten(fragments))] && !Begin(q).scheduled)
  {
    var (q, answer) := Write(p, fragments[0], 0);
    WriteAllStep(p, fragments, 0, q, answer);
    if !p.busy && |fragments[0]| < CMD_TEXT_MAX {
      FirstFragment(p, fragments[0]);
      if fragments[0] == "" && |fragments| > 1 {
        var (r, second) := Write(q, fragments[1], 0);
        WriteAllStep(q, fragments[1..], 0, r, second);
      } else {
        FragmentsExtend(q, fragments[0], fragments[1..]);
      }
    }
  }

  lemma FirstFragment(p: Port, buf: string)
    requires Terminated(p) && !p.busy && |buf| < CMD_TEXT_MAX
    ensures Write(p, buf, 0).1.Accepted? && Holds(Write(p, buf, 0).0, buf) && Write(p, buf, 0).0.begun == p.begun
  {
    assert p.cmd[..0] == "";
    WriteExtends(p, "", buf);
    assert "" + buf == buf;
  }

  // ----- what a refusal leaves behind

  /** How many fragments, written from the offset on, lie within the buffer. */
  function Fitting(fragments: seq<string>, offset: nat): (n: nat)
    ensures n <= |fragments|
    decreases fragments
  {
    if fragments == [] || offset + |fragments[0]| >= CMD_TEXT_MAX then 0
    else 1 + Fitting(fragments[1..], offset + |fragments[0]|)
  }

  /** The handler is scheduled and will execute the text. */
  ghost predicate WillRun(p: Port, q: Port, text: string) {
    q.scheduled && Begin(q).begun == p.begun + [CStr(text)]
  }

  /** As far as the handler is concerned nothing was written. */
  ghost predicate Unnoticed(p: Port, q: Port) {
    q.scheduled == p.scheduled && q.busy == p.busy && q.work == p.work && q.begun == p.begun
  }

  lemma {:induction false} BeyondEnd(p: Port, fragments: seq<string>, offset: nat)
    requires Terminated(p) && offset >= CMD_TEXT_MAX
    ensures WriteAll(p, fragments, offset).0 == p
    decreases fragments
  {
    if fragments != [] {
      BeyondEnd(p, fragments[1..], offset + |fragments[0]|);
    }
  }

  /** The first fragment does not fit, and so none of the others does. */
  lemma FirstRefused(p: Port, fragments: seq<string>, offset: nat)
    requires Terminated(p) && fragments != [] && offset + |fragments[0]| >= CMD_TEXT_MAX
    ensures WriteAll(p, fragments, offset).0 == p && Fitting(fragments, offset) == 0
  {
    BeyondEnd(p, fragments[1..], offset + |fragments[0]|);
  }

  lemma FittingMore(fragments: seq<string>, offset: nat, next: nat)
    requires fragments != [] && next == offset + |fragments[0]| < CMD_TEXT_MAX
    ensures Fitting(fragments, offset) == 1 + Fitting(fragments[1..], next)
  {
  }

  /** The first fragment is accepted behind the text that has arrived. */
  lemma FirstAccepted(p: Port, done: string, fragments: seq<string>) returns (q: Port)
    requires Terminated(p) && fragments != [] && |done| + |fragments[0]| < CMD_TEXT_MAX && p.cmd[..|done|] == done
    requires p.busy ==> done != ""
    ensures var upTo := done + fragments[0];
      && Holds(q, upTo) && q.begun == p.begun
      && WriteAll(p, fragments, |done|).0 == WriteAll(q, fragments[1..], |upTo|).0
      && Fitting(fragments, |done|) == 1 + Fitting(fragments[1..], |upTo|)
  {
    var upTo := done + fragments[0];
    var (r, answer) := Write(p, fragments[0], |done|);
    q := r;
    WriteAllStep(p, fragments, |done|, q, answer);
    FittingMore(fragments, |done|, |upTo|);
    WriteExtends(p, done, fragments[0]);
  }

  /** The first fragment is turned away, but lies in the command buffer. */
  lemma FirstTurnedAway(p: Port, fragments: seq<string>) returns (q: Port)
    requires Terminated(p) && p.busy && fragments != [] && |fragments[0]| < CMD_TEXT_MAX
    ensures Terminated(q) && q.busy && Unnoticed(p, q) && q.cmd[..|fragments[0]|] == fragments[0]
    ensures WriteAll(p, fragments, 0).0 == WriteAll(q, fragments[1..], |fragments[0]|).0
    ensures Fitting(fragments, 0) == 1 + Fitting(fragments[1..], |fragments[0]|)
  {
    TurnedAway(p, fragments[0]);
    var (r, answer) := Write(p, fragments[0], 0);
    q := r;
    WriteAllStep(p, fragments, 0, q, answer);
    FittingMore(fragments, 0, |fragments[0]|);
  }

  lemma TurnedAway(p: Port, buf: string)
    requires Terminated(p) && p.busy && |buf| < CMD_TEXT_MAX
    ensures var (q, answer) := Write(p, buf, 0);
      answer == StillRunning && Terminated(q) && q.busy && Unnoticed(p, q) && q.cmd[..|buf|] == buf
  {
    StepTerminates(p, Fragment(buf, 0));
    PlacedReads(Nuls(CMD_TEXT_MAX), buf, 0);
    assert Nuls(CMD_TEXT_MAX)[..0] + buf == buf;
  }

  lemma FlattenTake(fragments: seq<string>, n: nat)
    requires 0 < n <= |fragments|
    ensures Flatten(fragments[..n]) == fragments[0] + Flatten(fragments[1..][..n - 1])
  {
    assert fragments[..n][1..] == fragments[1..][..n - 1];
  }

  /** Behind text that has arrived every fragment that fits is accepted. */
  ghost predicate Taken(p: Port, done: string, fragments: seq<string>, n: nat, q: Port)
    requires n <= |fragments|
  {
    && (n == 0 ==> q == p)
    && (n > 0 ==> Holds(q, done + Flatten(fragments[..n])) && q.begun == p.begun)
  }

  lemma TakenMore(p: Port, first: Port, done: string, fragments: seq<string>, n: nat, q: Port)
    requires 0 < n <= |fragments| && first.begun == p.begun
    requires Holds(first, done + fragments[0]) && Taken(first, done + fragments[0], fragments[1..], n - 1, q)
    ensures Taken(p, done, fragments, n, q)
  {
    var rest := Flatten(fragments[1..][..n - 1]);
    FlattenTake(fragments, n);
    Assoc(done, fragments[0], rest);
    if n == 1 {
      assert rest == "" && done + fragments[0] + "" == done + fragments[0];
    }
  }

  lemma {:induction false} WrittenBehind(p: Port, done: string, fragments: seq<string>)
    requires Terminated(p) && done != "" && |done| < CMD_TEXT_MAX && p.cmd[..|done|] == done
    ensures Taken(p, done, fragments, Fitting(fragments, |done|), WriteAll(p, fragments, |done|).0)
    decreases fragments
  {
    if fragments != [] {
      if |done| + |fragments[0]| < CMD_TEXT_MAX {
        var q := FirstAccepted(p, done, fragments);
        var upTo, rest := done + fragments[0], fragments[1..];
        var n, r := Fitting(fragments, |done|), WriteAll(p, fragments, |done|).0;
        WrittenBehind(q, upTo, rest);
        assert Taken(q, upTo, rest, n - 1, r);
        TakenMore(p, q, done, fragments, n, r);
      } else {
        FirstRefused(p, fragments, |done|);
      }
    }
  }

  /** Some text lies in front of the last fragment that fits: that fragment is not at offset 0. */
  ghost predicate Behind(fragments: seq<string>, n: nat)
    requires n <= |fragments|
  {
    n > 0 && Flatten(fragments[..n - 1]) != ""
  }

  lemma BehindTail(fragments: seq<string>, n: nat)
    requires 0 < n <= |fragments|
    ensures Behind(fragments, n) <==> n > 1 && (fragments[0] != "" || Behind(fragments[1..], n - 1))
    ensures fragments[0] == "" ==> Flatten(fragments[..n]) == Flatten(fragments[1..][..n - 1])
  {
    FlattenTake(fragments, n);
    if n > 1 {
      FlattenTake(fragments, n - 1);
    }
    assert forall t: string :: "" + t == t;
  }

  /** Fragments of a command that comes while another is being handled. */
  ghost predicate Late(p: Port, fragments: seq<string>, n: nat, q: Port)
    requires n <= |fragments|
  {
    if Behind(fragments, n) then Holds(q, Flatten(fragments[..n])) && q.begun == p.begun
    else Unnoticed(p, q)
  }

  lemma {:induction false} WrittenLate(p: Port, fragments: seq<string>)
    requires Terminated(p) && p.busy
    ensures Late(p, fragments, Fitting(fragments, 0), WriteAll(p, fragments, 0).0)
    decreases fragments
  {
    if fragments != [] {
      if |fragments[0]| < CMD_TEXT_MAX {
        var q := FirstTurnedAway(p, fragments);
        BehindTail(fragments, Fitting(fragments, 0));
        FlattenTake(fragments, Fitting(fragments, 0));
        if fragments[0] == "" {
          WrittenLate(q, fragments[1..]);
        } else {
          WrittenBehind(q, fragments[0], fragments[1..]);
        }
      } else {
        FirstRefused(p, fragments, 0);
      }
    }
  }

  /** For any fragments written one behind the other, accepted or not: exactly when a command is executed,
      and which. Let n be the number of fragments that fit. Some fragment is accepted if and only if one
      fits and either no command is being handled or the last that fits is not at offset 0; then all the
      text of the first n is executed, but only the first fragment if the last one that fits is at
      offset 0; else nothing of what was written is. */
  lemma WhatRuns(p: Port, fragments: seq<string>)
    requires Terminated(p)
    ensures var n, q := Fitting(fragments, 0), WriteAll(p, fragments, 0).0;
      if n > 0 && (!p.busy || Behind(fragments, n)) then
        WillRun(p, q, Flatten(fragments[..if Behind(fragments, n) then n else 1]))
      else
        Unnoticed(p, q)
  {
    if p.busy {
      WrittenLate(p, fragments);
    } else if fragments != [] && |fragments[0]| < CMD_TEXT_MAX {
      assert p.cmd[..0] == "" && "" + fragments[0] == fragments[0];
      var q := FirstAccepted(p, "", fragments);
      FirstThenRest(p, q, fragments);
    } else if fragments != [] {
      FirstRefused(p, fragments, 0);
    }
  }

  lemma FirstThenRest(p: Port, first: Port, fragments: seq<string>)
    requires fragments != [] && |fragments[0]| < CMD_TEXT_MAX && Holds(first, fragments[0]) && first.begun == p.begun
    ensures var n := 1 + Fitting(fragments[1..], |fragments[0]|);
      var q := WriteAll(first, fragments[1..], |fragments[0]|).0;
      WillRun(p, q, Flatten(fragments[..if Behind(fragments, n) then n else 1]))
  {
    var n := 1 + Fitting(fragments[1..], |fragments[0]|);
    BehindTail(fragments, n);
    FlattenTake(fragments, 1);
    FlattenTake(fragments, n);
    assert Flatten(fragments[1..][..0]) == "" && fragments[0] + "" == fragments[0];
    if fragments[0] == "" {
      WrittenLate(first, fragments[1..]);
    } else {
      WrittenBehind(first, fragments[0], fragments[1..]);
    }
  }

  /** Of a command that turns out too long something is executed exactly if its first fragment fits, and
      it is what was accepted of it. */
  lemma TooLongStillRuns(p: Port, fragments: seq<string>)
    requires Terminated(p) && !p.busy && |Flatten(fragments)| >= CMD_TEXT_MAX
    ensures var n, (q, ok) := Fitting(fragments, 0), WriteAll(p, fragments, 0);
      && !ok
      && if |fragments[0]| < CMD_TEXT_MAX then
           WillRun(p, q, Flatten(fragments[..if Behind(fragments, n) then n else 1]))
         else
           Unnoticed(p, q)
  {
    FragmentsReassemble(p, fragments);
    WhatRuns(p, fragments);
  }

  /** A command that was turned away while another is being handled is executed all the same exactly if a
      later fragment of it fits behind some text. */
  lemma TurnedAwayStillRuns(p: Port, fragments: seq<string>)
    requires Terminated(p) && p.busy && fragments != []
    ensures var n, (q, ok) := Fitting(fragments, 0), WriteAll(p, fragments, 0);
      && !ok
      && if Behind(fragments, n) then WillRun(p, q, Flatten(fragments[..n])) else Unnoticed(p, q)
  {
    FragmentsReassemble(p, fragments);
    WhatRuns(p, fragments);
  }
}

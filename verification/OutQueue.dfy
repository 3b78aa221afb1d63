/** The bounded notification queue between the firmware and the Bluetooth stack. */
module OutQueue {
  import opened Errno
  import opened Text

  const DEPTH: nat := 8
  const APP_PAYLOAD_MAX: nat := 244
  const RETRY_COUNT: nat := 8

  // ----- the radio

  /** The outcome of notifying one chunk when at most left attempts remain, and the number of the
      next call. The n-th notify call on the link ends as radio(n). */
  function TryNotify(radio: nat -> Status, call: nat, left: nat): (r: (Status, nat))
    requires left > 0
    ensures call < r.1 <= call + left
    ensures r.0 == radio(r.1 - 1)
    ensures forall n :: call <= n < r.1 - 1 ==> Transient(radio(n))
    ensures Transient(r.0) ==> r.1 == call + left
    decreases left, call
  {
    if Transient(radio(call)) && left > 1 then TryNotify(radio, call + 1, left - 1)
    else (radio(call), call + 1)
  }

  /** The link flags and the Bluetooth stack behind them. */
  class Link {
    var ready: bool
    var conn: bool
    var connected: bool
    var mtu: nat
    var calls: nat
    const radio: nat -> Status

    constructor (radio: nat -> Status)
      ensures !ready && !conn && !connected && calls == 0 && this.radio == radio
    {
      ready, conn, connected, mtu, calls := false, false, false, 23, 0;
      this.radio := radio;
    }

    /** The largest payload that leaves room for the three bytes of a notification's header (Bluetooth
        Core Specification, Vol 3, Part F, section 3.4.7.1) within the firmware's own limit; 20 while
        the MTU makes no sense. */
    function PayloadMax(): (max: nat)
      reads this
      ensures 0 < max <= 244
      ensures conn && mtu > 3 ==> max + 3 <= mtu && (max < 244 ==> max + 3 == mtu)
      ensures !conn || mtu <= 3 ==> max == 20
    {
      var m := if conn then mtu else 23;
      if m <= 3 then 20 else if m - 3 < APP_PAYLOAD_MAX then m - 3 else APP_PAYLOAD_MAX
    }

    method Notify() returns (ret: Status)
      modifies this`calls
      ensures ret == radio(old(calls)) && calls == old(calls) + 1
    {
      ret := radio(calls);
      calls := calls + 1;
    }

    method NotifyOneChunk() returns (ret: Status)
      modifies this`calls
      ensures (ret, calls) == TryNotify(radio, old(calls), RETRY_COUNT + 1)
    {
      ghost var outcome := TryNotify(radio, calls, RETRY_COUNT + 1);
      ret := Ok;
      var attempt := 0;
      while attempt <= RETRY_COUNT
        invariant attempt <= RETRY_COUNT + 1
        invariant attempt <= RETRY_COUNT ==> TryNotify(radio, calls, RETRY_COUNT + 1 - attempt) == outcome
        invariant attempt == RETRY_COUNT + 1 ==> (ret, calls) == outcome
      {
        ret := Notify();
        if ret == Ok {
          return;
        }
        if !Transient(ret) {
          return;
        }
        attempt := attempt + 1;
      }
    }
  }

  // ----- what the locked regions do to the queued items

  /** Storing an item at the back, if there is room. */
  function Put<T>(q: seq<T>, x: T): seq<T> {
    if |q| < DEPTH then q + [x] else q
  }

  /** Requeueing an item at the front; a full ring has no room for it any more. */
  function Requeued<T>(q: seq<T>, x: T): seq<T> {
    if |q| < DEPTH then [x] + q else q
  }

  /** Emptying the queue over the radio: what stays queued, what went out, and whether the flusher
      gave up on a transient error. */
  datatype Drained = Drained(rest: seq<string>, sent: seq<string>, call: nat, retry: bool)

  function Drain(q: seq<string>, radio: nat -> Status, call: nat): Drained {
    if q == [] then Drained([], [], call, false)
    else
      var (r, next) := TryNotify(radio, call, RETRY_COUNT + 1);
      if Transient(r) then Drained(q, [], next, true)
      else
        var d := Drain(q[1..], radio, next);
        if r == Ok then d.(sent := [q[0]] + d.sent) else d
  }

  /** A flush works through the queue from the front: the rest is untouched, what went out is in
      order, nothing goes out twice, and only a transient error leaves anything behind. */
  lemma {:induction false} DrainFacts(q: seq<string>, radio: nat -> Status, call: nat)
    ensures var d := Drain(q, radio, call);
      && |d.rest| <= |q| && d.rest == q[|q| - |d.rest|..]
      && Subsequence(d.sent, q[..|q| - |d.rest|])
      && (d.retry <==> d.rest != [])
      && (d.retry ==> d.call >= RETRY_COUNT + 1 + call)
    decreases q
  {
    if q != [] {
      var (r, next) := TryNotify(radio, call, RETRY_COUNT + 1);
      if Transient(r) {
        assert q[..0] == [];
      } else {
        DrainFacts(q[1..], radio, next);
        var d, t := Drain(q, radio, call), Drain(q[1..], radio, next);
        var n := |q| - |d.rest|;
        assert q[1..][..n - 1] == q[..n][1..];
        assert q[..n][0] == q[0];
        assert [q[0]] + t.sent != [] && ([q[0]] + t.sent)[1..] == t.sent;
      }
    }
  }

  // ----- exactly which frames go out

  /** How notifying n frames one after the other ends for each of them, in at most nine calls each. */
  function Answers(radio: nat -> Status, call: nat, n: nat): (answers: seq<Status>)
    ensures |answers| == n
    decreases n, call
  {
    if n == 0 then []
    else
      var (r, next) := TryNotify(radio, call, 9);
      [r] + Answers(radio, next, n - 1)
  }

  /** The frames that the stack took, in order. */
  function Accepted(q: seq<string>, answers: seq<Status>): seq<string>
    requires |q| == |answers|
  {
    if q == [] then [] else (if answers[0] == Ok then [q[0]] else []) + Accepted(q[1..], answers[1..])
  }

  /** The flush stops at the first transient error, sends the frames before it that the stack takes, and
      leaves the rest. */
  ghost predicate Exactly(q: seq<string>, answers: seq<Status>, d: Drained)
    requires |q| == |answers|
  {
    && |d.rest| <= |q|
    && var n := |q| - |d.rest|;
       && d.rest == q[n..]
       && d.sent == Accepted(q[..n], answers[..n])
       && (forall i :: 0 <= i < n ==> !Transient(answers[i]))
       && (n < |q| ==> Transient(answers[n]))
  }

  /** A flush works through the frames up to the first that meets a busy stack; exactly those with a
      permanent error are missing from what it sends. */
  lemma {:induction false} DrainExactly(q: seq<string>, radio: nat -> Status, call: nat)
    ensures Exactly(q, Answers(radio, call, |q|), Drain(q, radio, call))
    decreases q
  {
    if q != [] {
      var (r, next) := TryNotify(radio, call, RETRY_COUNT + 1);
      if !Transient(r) {
        var t, answers := Drain(q[1..], radio, next), Answers(radio, next, |q| - 1);
        DrainExactly(q[1..], radio, next);
        ExactlyMore(q[0], q[1..], r, answers, t);
        assert q == [q[0]] + q[1..];
        assert Drain(q, radio, call).sent == (if r == Ok then [q[0]] else []) + t.sent;
      }
    }
  }

  lemma ExactlyMore(x: string, q: seq<string>, r: Status, answers: seq<Status>, t: Drained)
    requires |q| == |answers| && Exactly(q, answers, t) && !Transient(r)
    ensures Exactly([x] + q, [r] + answers, t.(sent := (if r == Ok then [x] else []) + t.sent))
  {
    var n := |q| - |t.rest|;
    var all, a := ([x] + q)[..n + 1], ([r] + answers)[..n + 1];
    assert all[1..] == q[..n] && a[1..] == answers[..n];
    assert ([x] + q)[n + 1..] == q[n..];
  }

  /** No answer to a notify call from the first on is a permanent error. */
  ghost predicate Patient(radio: nat -> Status, first: nat) {
    forall n :: n >= first ==> radio(n) == Ok || Transient(radio(n))
  }

  /** The stack takes everything from the first call on. */
  ghost predicate Takes(radio: nat -> Status, first: nat) {
    forall n :: n >= first ==> radio(n) == Ok
  }

  /** Nothing is lost: without a permanent error what is sent and what stays make up the queue. */
  lemma NoneGivenUp(q: seq<string>, radio: nat -> Status, call: nat)
    ensures var d := Drain(q, radio, call);
      && (Patient(radio, call) ==> d.sent + d.rest == q)
      && (Takes(radio, call) ==> d.sent == q && d.rest == [])
      && d.call >= call
    decreases q
  {
    if q != [] {
      var (r, next) := TryNotify(radio, call, RETRY_COUNT + 1);
      assert r == radio(next - 1);
      if !Transient(r) {
        NoneGivenUp(q[1..], radio, next);
        var t := Drain(q[1..], radio, next);
        Assoc([q[0]], t.sent, t.rest);
        assert q == [q[0]] + q[1..];
      }
    }
  }

  /** The values a flush works on: the queue, the number of the next notify call, the log of
      notifications, whether the work item is pending, and the log of accepted frames. */
  datatype Flow = Flow(q: seq<string>, call: nat, sent: seq<string>, work: bool, accepted: seq<string>)

  /** The state after a whole flush. */
  function Flushed(f: Flow, radio: nat -> Status): Flow {
    var d := Drain(f.q, radio, f.call);
    f.(q := d.rest, call := d.call, sent := f.sent + d.sent, work := f.work || d.retry)
  }

  /** What a flusher does with the item it popped, and whether it goes on. */
  function Sending(x: string, f: Flow, radio: nat -> Status): (Flow, bool) {
    var (r, next) := TryNotify(radio, f.call, RETRY_COUNT + 1);
    if Transient(r) then (f.(q := Requeued(f.q, x), call := next, work := true), false)
    else (f.(call := next, sent := if r == Ok then f.sent + [x] else f.sent), true)
  }

  /** One turn of the flush loop, and whether another follows. */
  function Turn(f: Flow, radio: nat -> Status): (Flow, bool) {
    if f.q == [] then (f, false) else Sending(f.q[0], f.(q := f.q[1..]), radio)
  }

  lemma TurnKeeps(f: Flow, radio: nat -> Status)
    requires |f.q| <= DEPTH
    ensures var (g, more) := Turn(f, radio);
      Flushed(f, radio) == if more then Flushed(g, radio) else g
  {
    assert f.sent + [] == f.sent;
    if f.q != [] {
      var (r, next) := TryNotify(radio, f.call, RETRY_COUNT + 1);
      assert [f.q[0]] + f.q[1..] == f.q;
      Assoc(f.sent, [f.q[0]], Drain(f.q[1..], radio, next).sent);
    }
  }

  /** One round of push past its guards: store the frame, or flush inline when the ring is full. */
  function Round(f: Flow, data: string, radio: nat -> Status): (Flow, bool) {
    if |f.q| < DEPTH then (f.(q := f.q + [data], work := true, accepted := f.accepted + [data]), true)
    else (Flushed(f, radio), false)
  }

  function TwoRounds(f: Flow, data: string, radio: nat -> Status): (Flow, bool) {
    var (g, ok) := Round(f, data, radio);
    if ok then (g, true) else Round(g, data, radio)
  }

  /** Where push stands after up to two rounds. */
  function AfterRounds(rounds: nat, f: Flow, data: string, radio: nat -> Status): (Flow, bool) {
    if rounds == 0 then (f, false) else if rounds == 1 then Round(f, data, radio) else TwoRounds(f, data, radio)
  }

  /** A whole flush leaves the ring full exactly when its first item met a busy stack. */
  lemma FullAfterFlush(f: Flow, radio: nat -> Status)
    requires |f.q| == DEPTH
    ensures |Flushed(f, radio).q| <= DEPTH
    ensures |Flushed(f, radio).q| == DEPTH <==>
            forall n :: f.call <= n < f.call + RETRY_COUNT + 1 ==> Transient(radio(n))
  {
    AllBusy(radio, f.call, RETRY_COUNT + 1);
    DrainFacts(f.q, radio, f.call);
    DrainFacts(f.q[1..], radio, TryNotify(radio, f.call, RETRY_COUNT + 1).1);
  }

  lemma {:induction false} AllBusy(radio: nat -> Status, call: nat, left: nat)
    requires left > 0
    ensures Transient(TryNotify(radio, call, left).0) <==>
            forall n :: call <= n < call + left ==> Transient(radio(n))
    decreases left
  {
    if left > 1 && Transient(radio(call)) {
      AllBusy(radio, call + 1, left - 1);
    }
  }

  /** The ring is full, and the next nine notify calls meet a busy stack. */
  ghost predicate NoRoom(f: Flow, radio: nat -> Status) {
    |f.q| == 8 && forall n :: f.call <= n < f.call + 9 ==> Transient(radio(n))
  }

  /** Backpressure: push finds no room exactly when the ring was full and nine notify calls in a row
      met a busy stack; a frame it takes is the last one queued. */
  lemma NoSpaceExactly(f: Flow, data: string, radio: nat -> Status)
    requires |f.q| <= 8
    ensures var (g, ok) := TwoRounds(f, data, radio);
      && (!ok <==> NoRoom(f, radio))
      && |g.q| <= 8
      && (ok ==> g.q != [] && g.q[|g.q| - 1] == data)
  {
    if |f.q| == DEPTH {
      FullAfterFlush(f, radio);
      var g := Flushed(f, radio);
      if |g.q| == DEPTH {
        FullAfterFlush(g, radio);
      }
    }
  }

  // ----- what push answers

  /** What frames meet at a queue: the answer of the link and the subscription, Ok if they are fine, the
      longest frame, and the radio. */
  datatype Way = Way(gate: Status, max: nat, radio: nat -> Status)

  /** A push on values, and its answer. */
  function Offer(f: Flow, x: string, way: Way): (Flow, Status) {
    if way.gate != Ok then (f, way.gate)
    else if |x| > way.max then (f, Err(EMSGSIZE))
    else
      var (g, ok) := TwoRounds(f, x, way.radio);
      (g, if ok then Ok else Err(ENOSPC))
  }

  /** Frames pushed one after the other up to the first that is refused, and the last answer. */
  function OfferAll(f: Flow, fs: seq<string>, way: Way): (Flow, Status)
    decreases fs
  {
    if fs == [] then (f, Ok)
    else
      var (g, r) := Offer(f, fs[0], way);
      if r != Ok then (g, r) else OfferAll(g, fs[1..], way)
  }

  lemma OfferOne(f: Flow, x: string, way: Way)
    ensures OfferAll(f, [x], way) == Offer(f, x, way)
  {
    assert [x][1..] == [];
  }

  lemma {:induction false} OfferAppend(f: Flow, a: seq<string>, b: seq<string>, way: Way)
    ensures var (g, r) := OfferAll(f, a, way);
      OfferAll(f, a + b, way) == if r != Ok then (g, r) else OfferAll(g, b, way)
    decreases a
  {
    if a == [] {
      assert a + b == b;
    } else {
      assert (a + b)[0] == a[0] && (a + b)[1..] == a[1..] + b;
      OfferAppend(Offer(f, a[0], way).0, a[1..], b, way);
    }
  }

  /** What becomes of one frame. */
  lemma OfferFacts(f: Flow, x: string, way: Way)
    requires |f.q| <= 8
    ensures var (g, r) := Offer(f, x, way);
      && |g.q| <= 8 && g.call >= f.call
      && r == (if way.gate != Ok then way.gate
               else if |x| > way.max then Err(EMSGSIZE)
               else if NoRoom(f, way.radio) then Err(ENOSPC)
               else Ok)
      && g.accepted == f.accepted + (if r == Ok then [x] else [])
      && (r == Ok ==> g.q != [] && g.q[|g.q| - 1] == x && g.work)
      && (r == Ok && |f.q| < 8 ==> g.q == f.q + [x] && g.sent == f.sent && g.call == f.call)
      && (Patient(way.radio, f.call) ==> g.sent + g.q == f.sent + f.q + (if r == Ok then [x] else []))
  {
    NoSpaceExactly(f, x, way.radio);
    assert f.sent + f.q + [] == f.sent + f.q;
    OfferConserves(f, x, way);
  }

  lemma OfferConserves(f: Flow, x: string, way: Way)
    requires |f.q| <= 8
    ensures var (g, r) := Offer(f, x, way);
      && g.call >= f.call && g.accepted == f.accepted + (if r == Ok then [x] else [])
      && (Patient(way.radio, f.call) ==> g.sent + g.q == f.sent + f.q + (if r == Ok then [x] else []))
  {
    assert f.accepted + [] == f.accepted && f.sent + f.q + [] == f.sent + f.q;
    if way.gate == Ok && |x| <= way.max {
      FlushConserves(f, way.radio);
      var g := Flushed(f, way.radio);
      FlushConserves(g, way.radio);
      Assoc(f.sent, f.q, [x]);
      Assoc(g.sent, g.q, [x]);
      assert g.sent + g.q + [] == g.sent + g.q;
    }
  }

  lemma FlushConserves(f: Flow, radio: nat -> Status)
    ensures var g := Flushed(f, radio);
      && g.call >= f.call && g.accepted == f.accepted
      && (Patient(radio, f.call) ==> g.sent + g.q == f.sent + f.q)
  {
    NoneGivenUp(f.q, radio, f.call);
    Assoc(f.sent, Drain(f.q, radio, f.call).sent, Drain(f.q, radio, f.call).rest);
  }

  /** Of the frames pushed one after the other the first k are taken. */
  ghost predicate TakesFirst(f: Flow, fs: seq<string>, way: Way, g: Flow, k: nat)
    requires k <= |fs|
  {
    && |g.q| <= 8 && g.call >= f.call
    && g.accepted == f.accepted + fs[..k]
    && (Patient(way.radio, f.call) ==> g.sent + g.q == f.sent + f.q + fs[..k])
  }

  /** The exact answer to frames pushed one after the other: those before the first that is refused are
      taken, all of them if none is, and the answer is the one to that frame. */
  lemma {:induction false} OfferAllExactly(f: Flow, fs: seq<string>, way: Way) returns (k: nat)
    requires |f.q| <= 8
    ensures k <= |fs| && TakesFirst(f, fs, way, OfferAll(f, fs, way).0, k)
    ensures OfferAll(f, fs, way).1 == Ok <==> k == |fs|
    ensures forall i :: 0 <= i < k ==> Offer(OfferAll(f, fs[..i], way).0, fs[i], way).1 == Ok
    ensures k < |fs| ==> OfferAll(f, fs, way).1 == Offer(OfferAll(f, fs[..k], way).0, fs[k], way).1 != Ok
    decreases fs
  {
    OfferStart(f, fs, way);
    k := 0;
    if fs != [] {
      OfferFacts(f, fs[0], way);
      var (g, r) := Offer(f, fs[0], way);
      if r == Ok {
        var more := OfferAllExactly(g, fs[1..], way);
        k := more + 1;
        OfferAllMore(f, g, fs, way, more);
        TakesOneMore(f, g, fs, way, OfferAll(f, fs, way).0, more);
      }
    }
  }

  lemma TakesOneMore(f: Flow, g: Flow, fs: seq<string>, way: Way, h: Flow, more: nat)
    requires fs != [] && more < |fs| && TakesFirst(g, fs[1..], way, h, more) && f.call <= g.call
    requires g.accepted == f.accepted + [fs[0]]
    requires Patient(way.radio, f.call) ==> g.sent + g.q == f.sent + f.q + [fs[0]]
    ensures TakesFirst(f, fs, way, h, more + 1)
  {
    assert fs[..more + 1] == [fs[0]] + fs[1..][..more];
    Assoc(f.accepted, [fs[0]], fs[1..][..more]);
    Assoc(f.sent + f.q, [fs[0]], fs[1..][..more]);
  }

  lemma OfferStart(f: Flow, fs: seq<string>, way: Way)
    ensures OfferAll(f, fs[..0], way) == (f, Ok)
    ensures f.accepted + fs[..0] == f.accepted && f.sent + f.q + fs[..0] == f.sent + f.q
  {
  }

  /** Counting the first frame in. */
  lemma OfferAllMore(f: Flow, g: Flow, fs: seq<string>, way: Way, more: nat)
    requires fs != [] && Offer(f, fs[0], way) == (g, Ok) && more < |fs|
    ensures forall i :: 0 <= i <= more ==> OfferAll(f, fs[..i + 1], way) == OfferAll(g, fs[1..][..i], way)
  {
    forall i | 0 <= i <= more
      ensures OfferAll(f, fs[..i + 1], way) == OfferAll(g, fs[1..][..i], way)
    {
      assert fs[..i + 1][0] == fs[0] && fs[..i + 1][1..] == fs[1..][..i];
    }
  }

  /** Frames that fit are all taken behind an open gate unless the stack keeps a full ring waiting. */
  lemma {:induction false} AllTaken(f: Flow, fs: seq<string>, way: Way)
    requires |f.q| <= 8 && way.gate == Ok && forall x :: x in fs ==> |x| <= way.max
    requires forall n :: n >= f.call ==> !Transient(way.radio(n))
    ensures OfferAll(f, fs, way).1 == Ok
    decreases fs
  {
    if fs != [] {
      assert fs[0] in fs && forall x :: x in fs[1..] ==> x in fs;
      OfferFacts(f, fs[0], way);
      assert !Transient(way.radio(f.call));
      AllTaken(Offer(f, fs[0], way).0, fs[1..], way);
    }
  }

  /** The answer, exactly: frames that fit are all taken behind an open gate unless at one of them the
      ring is full and the next nine notify calls meet a busy stack. */
  lemma AnswerExactly(f: Flow, fs: seq<string>, way: Way)
    requires |f.q| <= 8 && fs != [] && forall x :: x in fs ==> |x| <= way.max
    ensures OfferAll(f, fs, way).1 ==
      if way.gate != Ok then way.gate
      else if exists i :: 0 <= i < |fs| && NoRoom(OfferAll(f, fs[..i], way).0, way.radio) then Err(ENOSPC)
      else Ok
  {
    var k := OfferAllExactly(f, fs, way);
    forall i | 0 <= i <= k && i < |fs|
      ensures Offer(OfferAll(f, fs[..i], way).0, fs[i], way).1 ==
              if way.gate != Ok then way.gate else if NoRoom(OfferAll(f, fs[..i], way).0, way.radio) then Err(ENOSPC)
              else Ok
    {
      assert fs[i] in fs;
      var j := OfferAllExactly(f, fs[..i], way);
      OfferFacts(OfferAll(f, fs[..i], way).0, fs[i], way);
    }
  }

  /** Frames that find room wait behind the others, whatever the stack does. */
  lemma {:induction false} RoomForAll(f: Flow, fs: seq<string>, way: Way)
    requires |f.q| + |fs| <= 8 && way.gate == Ok && forall x :: x in fs ==> |x| <= way.max
    ensures var (g, r) := OfferAll(f, fs, way); r == Ok && g.q == f.q + fs && g.sent == f.sent && g.call == f.call
    decreases fs
  {
    if fs == [] {
      assert f.q + [] == f.q;
    } else {
      assert fs[0] in fs && forall x :: x in fs[1..] ==> x in fs;
      OfferFacts(f, fs[0], way);
      RoomForAll(Offer(f, fs[0], way).0, fs[1..], way);
      assert fs == [fs[0]] + fs[1..];
      Assoc(f.q, [fs[0]], fs[1..]);
    }
  }

  // ----- the ring

  /** A slot number below 16 brought back into the ring: the same as its remainder modulo 8. */
  function Wrap(n: nat): (slot: nat)
    requires n < 2 * DEPTH
    ensures slot < DEPTH
  {
    if n < DEPTH then n else n - DEPTH
  }

  lemma WrapIsRemainder(n: nat)
    requires n < 2 * DEPTH
    ensures Wrap(n) == n % DEPTH
  {
  }

  /** The items of a ring, oldest first. */
  function Slots(ring: seq<string>, head: nat, count: nat): (q: seq<string>)
    requires |ring| == DEPTH && head < DEPTH && count <= DEPTH
    ensures |q| == count && forall i :: 0 <= i < count ==> q[i] == ring[Wrap(head + i)]
  {
    seq(count, i requires 0 <= i < count => ring[Wrap(head + i)])
  }

  lemma SlotsBack(ring: seq<string>, head: nat, count: nat, x: string)
    requires |ring| == DEPTH && head < DEPTH && count < DEPTH
    ensures Slots(ring[Wrap(head + count) := x], head, count + 1) == Slots(ring, head, count) + [x]
  {
    var a := Slots(ring[Wrap(head + count) := x], head, count + 1);
    assert a[..count] == Slots(ring, head, count);
    assert a[count] == x;
    assert a == a[..count] + [a[count]];
  }

  lemma SlotsPop(ring: seq<string>, head: nat, count: nat)
    requires |ring| == DEPTH && head < DEPTH && 0 < count <= DEPTH
    ensures Slots(ring, head, count) == [ring[head]] + Slots(ring, Wrap(head + 1), count - 1)
  {
    var a := Slots(ring, head, count);
    assert a[1..] == Slots(ring, Wrap(head + 1), count - 1);
    assert a == [a[0]] + a[1..];
  }

  lemma SlotsFront(ring: seq<string>, head: nat, count: nat, x: string)
    requires |ring| == DEPTH && head < DEPTH && count < DEPTH
    ensures var h := Wrap(head + DEPTH - 1);
      Slots(ring[h := x], h, count + 1) == [x] + Slots(ring, head, count)
  {
    var h := Wrap(head + DEPTH - 1);
    var a := Slots(ring[h := x], h, count + 1);
    assert a[1..] == Slots(ring, head, count);
    assert a == [a[0]] + a[1..];
  }

  /** What is queued is the tail end of what was accepted; what was sent came before, in order. */
  ghost predicate History(accepted: seq<string>, q: seq<string>, sent: seq<string>) {
    && |q| <= |accepted|
    && q == accepted[|accepted| - |q|..]
    && Subsequence(sent, accepted[..|accepted| - |q|])
  }

  ghost predicate InLine(f: Flow) {
    History(f.accepted, f.q, f.sent)
  }

  /** Emptying the queue, wholly or in part, keeps that. */
  lemma FlushKeepsLine(f: Flow, radio: nat -> Status)
    requires InLine(f)
    ensures InLine(Flushed(f, radio))
  {
    var d := Drain(f.q, radio, f.call);
    DrainFacts(f.q, radio, f.call);
    LineMoves(f.accepted, f.q, f.sent, |f.q| - |d.rest|, d.sent);
  }

  lemma LineMoves(accepted: seq<string>, q: seq<string>, sent: seq<string>, k: nat, more: seq<string>)
    requires History(accepted, q, sent) && k <= |q| && Subsequence(more, q[..k])
    ensures History(accepted, q[k..], sent + more)
  {
    var n := |accepted| - |q|;
    assert accepted[..n + k] == accepted[..n] + q[..k];
    assert accepted[n + k..] == q[k..];
    SubsequenceAppend(sent, accepted[..n], more, q[..k]);
  }

  lemma StoreKeepsLine(f: Flow, x: string)
    requires InLine(f)
    ensures InLine(f.(q := f.q + [x], work := true, accepted := f.accepted + [x]))
  {
    assert (f.accepted + [x])[..|f.accepted| - |f.q|] == f.accepted[..|f.accepted| - |f.q|];
  }

  lemma ClearKeepsLine(f: Flow)
    requires InLine(f)
    ensures InLine(f.(q := []))
  {
    var n := |f.accepted| - |f.q|;
    SubsequenceGrow(f.sent, f.accepted[..n], f.accepted[n..]);
    assert f.accepted[..n] + f.accepted[n..] == f.accepted == f.accepted[..|f.accepted|];
  }

  /** So does every push, and so do pushes one after the other. */
  lemma OfferKeepsLine(f: Flow, x: string, way: Way)
    requires InLine(f)
    ensures InLine(Offer(f, x, way).0)
  {
    var g := Flushed(f, way.radio);
    StoreKeepsLine(f, x);
    FlushKeepsLine(f, way.radio);
    StoreKeepsLine(g, x);
    FlushKeepsLine(g, way.radio);
  }

  lemma {:induction false} OffersKeepLine(f: Flow, fs: seq<string>, way: Way)
    requires InLine(f)
    ensures InLine(OfferAll(f, fs, way).0)
    decreases fs
  {
    if fs != [] {
      OfferKeepsLine(f, fs[0], way);
      OffersKeepLine(Offer(f, fs[0], way).0, fs[1..], way);
    }
  }

  class Outq {
    const link: Link
    var enabled: bool
    var head: nat
    var tail: nat
    var count: nat
    var dropped: nat
    const item: array<string>
    var workPending: bool
    /** Notifications the stack has taken, in order. */
    var sent: seq<string>
    /** Frames push has taken, in order. */
    ghost var accepted: seq<string>

    ghost predicate Valid()
      reads this
    {
      && item.Length == DEPTH
      && head < DEPTH && count <= DEPTH
      && tail == Wrap(head + count)
    }

    function Contents(): (q: seq<string>)
      requires Valid()
      reads this, item
      ensures |q| == count
    {
      Slots(item[..], head, count)
    }

    constructor (link: Link)
      ensures Valid() && Contents() == [] && this.link == link && fresh(item)
      ensures accepted == [] && sent == [] && !enabled && !workPending && dropped == 0
      ensures InLine(State())
    {
      this.link := link;
      enabled, workPending := false, false;
      head, tail, count, dropped := 0, 0, 0, 0;
      item := new string[DEPTH];
      sent := [];
      accepted := [];
    }

    ghost function State(): Flow
      requires Valid()
      reads this, item, link
    {
      Flow(Contents(), link.calls, sent, workPending, accepted)
    }

    predicate Ready()
      reads this, link
    {
      link.ready && link.conn && link.connected && enabled
    }

    /** The locked region of push. */
    method Enqueue(data: string) returns (ok: bool)
      requires Valid()
      modifies this`tail, this`count, item
      ensures Valid() && head == old(head)
      ensures ok <==> old(count) < DEPTH
      ensures Contents() == Put(old(Contents()), data)
    {
      ok := count < DEPTH;
      if ok {
        SlotsBack(item[..], head, count, data);
        WrapIsRemainder(tail + 1);
        item[tail] := data;
        tail := (tail + 1) % DEPTH;
        count := count + 1;
      }
    }

    method Pop() returns (ok: bool, dst: string)
      requires Valid()
      modifies this`head, this`count
      ensures Valid()
      ensures ok <==> old(count) > 0
      ensures count == if ok then old(count) - 1 else old(count)
      ensures ok ==> old(Contents()) == [dst] + Contents()
      ensures ok ==> Contents() == old(Contents())[1..]
      ensures !ok ==> Contents() == old(Contents())
    {
      dst := "";
      ok := count > 0;
      if ok {
        dst := item[head];
        SlotsPop(item[..], head, count);
        WrapIsRemainder(head + 1);
        head := (head + 1) % DEPTH;
        count := count - 1;
      }
    }

    method RequeueFront(x: string)
      requires Valid()
      modifies this`head, this`count, this`dropped, item
      ensures Valid()
      ensures Contents() == Requeued(old(Contents()), x)
      ensures dropped == if old(count) < DEPTH then old(dropped) else (old(dropped) + 1) % 65536
    {
      if count < DEPTH {
        var h := (head + DEPTH - 1) % DEPTH;
        SlotsFront(item[..], head, count, x);
        WrapIsRemainder(head + DEPTH - 1);
        head := h;
        item[head] := x;
        count := count + 1;
      } else {
        dropped := (dropped + 1) % 65536;
      }
    }

    method Clear()
      requires Valid()
      modifies this`head, this`tail, this`count
      ensures Valid() && State() == old(State()).(q := [])
      ensures old(InLine(State())) ==> InLine(State())
    {
      if InLine(State()) {
        ClearKeepsLine(State());
      }
      head, tail, count := 0, 0, 0;
    }

    /** Sends from the front until the queue is empty or the stack is busy. */
    method Flush()
      requires Valid()
      modifies this`head, this`count, this`dropped, this`sent, this`workPending, item, link`calls
      ensures Valid() && accepted == old(accepted) && dropped == old(dropped)
      ensures State() == if old(Ready()) then Flushed(old(State()), link.radio) else old(State())
      ensures !old(link.ready && link.conn && link.connected && enabled) ==> State() == old(State())
      ensures old(link.ready && link.conn && link.connected && enabled) && Patient(link.radio, old(link.calls)) ==>
        sent + Contents() == old(sent + Contents())
      ensures old(link.ready && link.conn && link.connected && enabled) && Takes(link.radio, old(link.calls)) ==>
        sent == old(sent + Contents()) && Contents() == []
      ensures old(link.ready && link.conn && link.connected && enabled) && Contents() != [] ==> workPending
      ensures old(InLine(State())) ==> InLine(State())
    {
      if InLine(State()) {
        FlushKeepsLine(State(), link.radio);
      }
      DrainFacts(Contents(), link.radio, link.calls);
      NoneGivenUp(Contents(), link.radio, link.calls);
      FlushConserves(State(), link.radio);
      ghost var all := Flushed(State(), link.radio);
      var more := true;
      while Ready() && more
        invariant Valid() && Ready() == old(Ready()) && dropped == old(dropped)
        invariant Ready() ==> (if more then Flushed(State(), link.radio) else State()) == all
        invariant !Ready() ==> State() == old(State())
        decreases more, count
      {
        TurnKeeps(State(), link.radio);
        more := SendFront();
      }
    }

    /** One turn of the flush loop. */
    method SendFront() returns (more: bool)
      requires Valid() && Ready()
      modifies this`head, this`count, this`dropped, this`sent, this`workPending, item, link`calls
      ensures Valid() && dropped == old(dropped) && Ready()
      ensures (State(), more) == Turn(old(State()), link.radio)
      ensures more ==> count < old(count)
    {
      var ok, x := TakeFront();
      more := ok;
      if ok {
        var stop := SendItem(x);
        more := !stop;
      }
    }

    /** The pop of a flusher. */
    method TakeFront() returns (ok: bool, x: string)
      requires Valid()
      modifies this`head, this`count
      ensures Valid() && (ok <==> old(count) > 0)
      ensures !ok ==> State() == old(State()) && State().q == []
      ensures ok ==>
        && count == old(count) - 1
        && old(State()).q != [] && x == old(State()).q[0]
        && State() == old(State()).(q := old(State()).q[1..])
    {
      ghost var f := State();
      ok, x := Pop();
      if ok {
        assert f.q == [x] + Contents();
      }
    }

    /** What a flusher does with the item it popped: notify, then log, drop or requeue it. */
    method SendItem(x: string) returns (stop: bool)
      requires Valid() && count < DEPTH
      modifies this`head, this`count, this`dropped, this`sent, this`workPending, item, link`calls
      ensures Valid() && dropped == old(dropped) && (!stop ==> count == old(count))
      ensures (State(), !stop) == Sending(x, old(State()), link.radio)
    {
      var ret := link.NotifyOneChunk();
      if ret != Ok {
        if Transient(ret) {
          RequeueFront(x);
          workPending := true;
          return true;
        }
        return false;
      }
      sent := sent + [x];
      return false;
    }

    /** What push answers before it looks at the frame. */
    function Gate(): Status
      reads this, link
    {
      if !link.ready then Err(ENODEV)
      else if !link.conn || !link.connected then Err(ENOTCONN)
      else if !enabled then Err(EACCES)
      else Ok
    }

    function Meets(): (way: Way)
      reads this, link
      ensures way.gate == Ok <==> link.ready && link.conn && link.connected && enabled
      ensures way.max <= 244 && way.radio == link.radio
    {
      Way(Gate(), link.PayloadMax(), link.radio)
    }

    /** The guards of push. */
    method Guard(len: nat) returns (ret: Status)
      ensures ret == if !link.ready then Err(ENODEV)
                     else if !link.conn || !link.connected then Err(ENOTCONN)
                     else if !enabled then Err(EACCES)
                     else if len > link.PayloadMax() then Err(EMSGSIZE)
                     else Ok
    {
      if !link.ready {
        return Err(ENODEV);
      }
      if !link.conn || !link.connected {
        return Err(ENOTCONN);
      }
      if !enabled {
        return Err(EACCES);
      }
      if len > link.PayloadMax() || len > APP_PAYLOAD_MAX {
        return Err(EMSGSIZE);
      }
      return Ok;
    }

    /** The guards in their order, and the two rounds. Past the guards a frame is refused only if the ring
        is full and the next nine notify calls meet a busy stack. */
    method Push(data: string) returns (ret: Status)
      requires Valid()
      modifies this, item, link`calls
      ensures Valid() && enabled == old(enabled)
      ensures (State(), ret) == Offer(old(State()), data, old(Meets()))
      ensures accepted == if ret == Ok then old(accepted) + [data] else old(accepted)
      ensures dropped == if old(Gate()) == Ok && ret == Err(ENOSPC) then (old(dropped) + 1) % 65536 else old(dropped)
      ensures old(Gate()) == Ok && |data| <= link.PayloadMax() ==>
        ret == if NoRoom(old(State()), link.radio) then Err(ENOSPC) else Ok
      ensures ret == Ok && old(count) < 8 ==> Contents() == old(Contents()) + [data] && sent == old(sent)
      ensures old(InLine(State())) ==> InLine(State())
    {
      OfferFacts(State(), data, Meets());
      if InLine(State()) {
        OfferKeepsLine(State(), data, Meets());
      }
      ret := Guard(|data|);
      if ret == Ok {
        ret := Rounds(data);
      }
    }

    /** The two rounds of push and the count of dropped frames. */
    method Rounds(data: string) returns (ret: Status)
      requires Valid() && Ready()
      modifies this, item, link`calls
      ensures Valid() && enabled == old(enabled) && (ret == Ok || ret == Err(ENOSPC))
      ensures (State(), ret == Ok) == TwoRounds(old(State()), data, link.radio)
      ensures dropped == if ret == Ok then old(dropped) else (old(dropped) + 1) % 65536
    {
      ghost var f := State();
      var attempt, ok := 0, false;
      while attempt < 2 && !ok
        invariant attempt <= 2 && Valid() && Ready() && dropped == old(dropped) && enabled == old(enabled)
        invariant (State(), ok) == AfterRounds(attempt, f, data, link.radio)
        decreases 2 - attempt
      {
        ok := Attempt(data);
        attempt := attempt + 1;
      }
      if ok {
        return Ok;
      }
      dropped := (dropped + 1) % 65536;
      return Err(ENOSPC);
    }

    method Attempt(data: string) returns (ok: bool)
      requires Valid() && Ready()
      modifies this, item, link`calls
      ensures Valid() && Ready() && enabled == old(enabled) && dropped == old(dropped)
      ensures (State(), ok) == Round(old(State()), data, link.radio)
    {
      ok := Store(data);
      if !ok {
        Flush();
      }
    }

    /** One attempt of push: the locked region, and the work item when it found room. */
    method Store(data: string) returns (ok: bool)
      requires Valid()
      modifies this`tail, this`count, this`accepted, this`workPending, item
      ensures Valid()
      ensures ok <==> old(count) < DEPTH
      ensures State() == if ok then
          old(State()).(q := old(Contents()) + [data], work := true, accepted := old(accepted) + [data])
        else old(State())
    {
      ok := Enqueue(data);
      if ok {
        accepted := accepted + [data];
        workPending := true;
      }
    }
  }

  lemma {:induction false} SubsequenceGrow<T>(a: seq<T>, b: seq<T>, c: seq<T>)
    requires Subsequence(a, b)
    ensures Subsequence(a, b + c)
  {
    SubsequenceAppend(a, b, [], c);
    assert a + [] == a;
  }
}

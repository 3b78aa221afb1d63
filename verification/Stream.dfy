/** The sender's side of a stream: frames printed into one reused buffer and pushed to the queue. */
module Stream {
  import opened Errno
  import opened Text
  import opened Frames
  import opened OutQueue

  /** Stream ids run from 1 to 999 and start over. The counter is a 16-bit number. */
  class IdCounter {
    var next: nat

    constructor ()
      ensures next == 0
    {
      next := 0;
    }

    method NextId() returns (id: nat)
      requires next < 65536
      modifies this
      ensures id == next && 1 <= id <= 999
      ensures old(next) < 1000 ==> id == old(next) % 999 + 1
      ensures old(next) >= 999 ==> id == 1
    {
      next := (next + 1) % 65536;
      if next == 0 || next > 999 {
        next := 1;
      }
      id := next;
    }
  }

  /** A bounded print: as much of the text as fits before the terminator. */
  method Print(buf: array<char>, text: string) returns (len: nat)
    requires buf.Length > 0
    modifies buf
    ensures len == |text|
    ensures var n := if |text| < buf.Length then |text| else buf.Length - 1;
      buf[..n] == text[..n] && buf[n] == NUL
    ensures |text| < buf.Length ==> buf[..|text|] == text
  {
    var n := if |text| < buf.Length then |text| else buf.Length - 1;
    forall i | 0 <= i < n {
      buf[i] := text[i];
    }
    buf[n] := NUL;
    len := |text|;
  }

  /** The frames one write of a text turns into when each frame may hold limit bytes. */
  function WriteFrames(id: nat, c: Counter, data: string, limit: nat): seq<string>
    requires id < 1000 && limit > 8
  {
    ChunkFrames(id, c, Cut(data, limit - 8))
  }

  /** Some of the frames fs have been added to the log before, in order; done says that all have. */
  ghost predicate Added(before: seq<string>, now: seq<string>, fs: seq<string>, done: bool) {
    before <= now <= before + fs && (done <==> now == before + fs)
  }

  /** Frames that a queue was offered leave a part in its log, all of them if the answer is Ok. */
  lemma OffersAdd(f: Flow, fs: seq<string>, way: Way)
    requires |f.q| <= 8
    ensures var (g, r) := OfferAll(f, fs, way);
      |g.q| <= 8 && Added(f.accepted, g.accepted, fs, r == Ok)
  {
    var k := OfferAllExactly(f, fs, way);
    assert f.accepted + fs == f.accepted + fs[..k] + fs[k..];
  }

  /** A write whose offset stands at rest and whose counter stands at c ends as the whole write. */
  ghost predicate ToGo(all: (Flow, Status), last: Counter, now: Flow, way: Way, id: nat, c: Counter,
                       rest: string, max: nat)
    requires max > 0 && id < 1000
  {
    OfferAll(now, ChunkFrames(id, c, Cut(rest, max)), way) == all && After(c, |Cut(rest, max)|) == last
  }

  lemma ToGoStep(all: (Flow, Status), last: Counter, now: Flow, way: Way, id: nat, c: Counter,
                 rest: string, max: nat, n: nat)
    requires max > 0 && id < 1000 && rest != "" && ToGo(all, last, now, way, id, c, rest, max)
    requires n == if |rest| < max then |rest| else max
    ensures var (next, ret) := Offer(now, ChunkFrame(id, SeqNo(c), rest[..n]), way);
      if ret == Ok then ToGo(all, last, next, way, id, Next(c), rest[n..], max) else all == (next, ret)
  {
    var pieces := Cut(rest[n..], max);
    assert Cut(rest, max) == [rest[..n]] + pieces by {
      assert rest[|rest|..] == "";
      assert rest[..|rest|] == rest;
    }
    assert ([rest[..n]] + pieces)[1..] == pieces;
    assert ChunkFrames(id, c, Cut(rest, max)) ==
           [ChunkFrame(id, SeqNo(c), rest[..n])] + ChunkFrames(id, Next(c), pieces);
    assert ([ChunkFrame(id, SeqNo(c), rest[..n])] + ChunkFrames(id, Next(c), pieces))[1..]
           == ChunkFrames(id, Next(c), pieces);
  }

  // ----- what the calls come to

  function IdPrefix(requestId: string): string {
    if requestId == "" then "" else "#" + requestId + " "
  }

  /** How many frames a write of a text is cut into. */
  function Pieces(data: string, limit: nat): nat {
    if limit > 8 then |Cut(data, limit - 8)| else 0
  }

  function BeginResult(f: Flow, id: nat, limit: nat, way: Way): (Flow, Status)
    requires id < 1000
  {
    if limit < 5 then (f, Err(EMSGSIZE)) else Offer(f, StartFrame(id), way)
  }

  function WriteResult(f: Flow, id: nat, c: Counter, data: string, limit: nat, way: Way): (Flow, Status)
    requires id < 1000
  {
    if limit > 8 then OfferAll(f, WriteFrames(id, c, data, limit), way)
    else (f, if data == "" then Ok else Err(EMSGSIZE))
  }

  function EndResult(f: Flow, id: nat, c: Counter, limit: nat, way: Way): (Flow, Status)
    requires id < 1000
  {
    if limit < 8 then (f, Err(EMSGSIZE)) else Offer(f, EndFrame(id, SeqNo(c)), way)
  }

  /** The last write of a stream and its end. */
  function TextResult(f: Flow, id: nat, c: Counter, text: string, limit: nat, way: Way): (Flow, Status)
    requires id < 1000
  {
    var (g, r) := WriteResult(f, id, c, text, limit, way);
    if r != Ok then (g, r) else EndResult(g, id, After(c, Pieces(text, limit)), limit, way)
  }

  /** A stream of a request id's prefix, if there is one, and a text. */
  function StreamResult(f: Flow, id: nat, prefix: string, text: string, limit: nat, way: Way): (Flow, Status)
    requires id < 1000
  {
    var (g, r) := BeginResult(f, id, limit, way);
    if r != Ok then (g, r)
    else
      var (h, s) := WriteResult(g, id, 0, prefix, limit, way);
      if s != Ok then (h, s) else TextResult(h, id, After(0, Pieces(prefix, limit)), text, limit, way)
  }

  /** The sender's context of one stream. The frame buffer is reused for every frame. */
  class StreamCtx {
    const q: Outq
    const frame: array<char>
    const frameMax: nat
    var id: nat
    var seqNo: Counter

    constructor (frame: array<char>, frameMax: nat, q: Outq)
      ensures this.frame == frame && this.frameMax == frameMax && this.q == q
    {
      this.frame, this.frameMax, this.q := frame, frameMax, q;
      id, seqNo := 0, 0;
    }

    function FrameLimit(): (limit: nat)
      ensures limit <= frame.Length && (frame.Length > 0 ==> limit < frame.Length)
      ensures frameMax > 0 ==> limit <= frameMax
      ensures frame.Length > 0 ==> limit == frame.Length - 1 || limit == frameMax
    {
      if frame.Length == 0 then 0
      else if frameMax > 0 && frameMax < frame.Length - 1 then frameMax
      else frame.Length - 1
    }

    ghost predicate Open()
      reads this, q, q.item
    {
      frame.Length > 0 && 0 < id < 1000 && q.Valid()
    }

    method Begin(id: nat) returns (ret: Status)
      requires q.Valid()
      modifies this, frame, q, q.item, q.link`calls
      ensures q.Valid() && q.enabled == old(q.enabled)
      ensures frame.Length == 0 || id == 0 || id > 999 ==> ret == Err(EINVAL) && q.State() == old(q.State())
      ensures frame.Length > 0 && 1 <= id <= 999 ==>
        && Open() && this.id == id && seqNo == 0
        && (q.State(), ret) == BeginResult(old(q.State()), id, FrameLimit(), old(q.Meets()))
    {
      if frame.Length == 0 || id == 0 || id > 999 {
        return Err(EINVAL);
      }
      this.id := id;
      seqNo := 0;
      var len := Print(frame, StartFrame(id));
      if len > FrameLimit() {
        return Err(EMSGSIZE);
      }
      ret := q.Push(frame[..len]);
    }

    /** Prints one chunk frame behind its header and pushes it. */
    method WriteChunk(payload: string) returns (ret: Status)
      requires Open() && 8 + |payload| <= FrameLimit()
      modifies this`seqNo, frame, q, q.item, q.link`calls
      ensures Open() && q.enabled == old(q.enabled)
      ensures (q.State(), ret) ==
              Offer(old(q.State()), ChunkFrame(id, SeqNo(old(seqNo)), payload), old(q.Meets()))
      ensures seqNo == if ret == Ok then Next(old(seqNo)) else old(seqNo)
    {
      var header := Print(frame, ChunkFrame(id, SeqNo(seqNo), ""));
      forall i | 0 <= i < |payload| {
        frame[header + i] := payload[i];
      }
      frame[header + |payload|] := NUL;
      assert frame[..header + |payload|] == frame[..header] + frame[header..header + |payload|];
      assert frame[header..header + |payload|] == payload;
      assert frame[..header] == ChunkFrame(id, SeqNo(seqNo), "");
      assert frame[..header + |payload|] == ChunkFrame(id, SeqNo(seqNo), payload);
      ret := q.Push(frame[..header + |payload|]);
      if ret == Ok {
        seqNo := Next(seqNo);
      }
    }

    /** Cuts a text into chunk frames and pushes them until one is refused; rest is what lies beyond
        the write's offset. */
    method Write(data: string) returns (ret: Status)
      requires Open()
      modifies this`seqNo, frame, q, q.item, q.link`calls
      ensures Open() && q.enabled == old(q.enabled)
      ensures (q.State(), ret) == WriteResult(old(q.State()), id, old(seqNo), data, FrameLimit(), old(q.Meets()))
      ensures ret == Ok ==> seqNo == After(old(seqNo), Pieces(data, FrameLimit()))
    {
      ret := Ok;
      if FrameLimit() <= 8 {
        if data != "" {
          ret := Err(EMSGSIZE);
        }
      } else {
        ret := WriteAll(data);
      }
    }

    method WriteAll(data: string) returns (ret: Status)
      requires Open() && FrameLimit() > 8
      modifies this`seqNo, frame, q, q.item, q.link`calls
      ensures Open() && q.enabled == old(q.enabled)
      ensures (q.State(), ret) ==
              OfferAll(old(q.State()), WriteFrames(id, old(seqNo), data, FrameLimit()), old(q.Meets()))
      ensures ret == Ok ==> seqNo == After(old(seqNo), |Cut(data, FrameLimit() - 8)|)
    {
      ghost var max, way := FrameLimit() - 8, q.Meets();
      ghost var all := OfferAll(q.State(), ChunkFrames(id, seqNo, Cut(data, max)), way);
      ghost var last := After(seqNo, |Cut(data, max)|);
      var rest := data;
      while rest != ""
        invariant Open() && q.enabled == old(q.enabled)
        invariant ToGo(all, last, q.State(), way, id, seqNo, rest, max)
        decreases |rest|
      {
        ret, rest := WriteNext(rest, all, last, way);
        if ret != Ok {
          return;
        }
      }
      return Ok;
    }

    /** One turn of the loop. */
    method WriteNext(rest: string, ghost all: (Flow, Status), ghost last: Counter, ghost way: Way)
        returns (ret: Status, left: string)
      requires Open() && FrameLimit() > 8 && rest != "" && way == q.Meets()
      requires ToGo(all, last, q.State(), way, id, seqNo, rest, FrameLimit() - 8)
      modifies this`seqNo, frame, q, q.item, q.link`calls
      ensures Open() && q.enabled == old(q.enabled) && |left| < |rest|
      ensures if ret == Ok then ToGo(all, last, q.State(), way, id, seqNo, left, FrameLimit() - 8)
              else (q.State(), ret) == all
    {
      var payloadMax := FrameLimit() - 8;
      var payloadLen := if |rest| < payloadMax then |rest| else payloadMax;
      ToGoStep(all, last, q.State(), way, id, seqNo, rest, payloadMax, payloadLen);
      ret := WriteChunk(rest[..payloadLen]);
      left := rest[payloadLen..];
    }

    method WriteRequestIdPrefix(requestId: string) returns (ret: Status)
      requires Open()
      modifies this`seqNo, frame, q, q.item, q.link`calls
      ensures Open() && q.enabled == old(q.enabled)
      ensures (q.State(), ret) == if |requestId| > 29 then (old(q.State()), Err(EMSGSIZE))
                else WriteResult(old(q.State()), id, old(seqNo), IdPrefix(requestId), FrameLimit(), old(q.Meets()))
      ensures ret == Ok ==> seqNo == After(old(seqNo), Pieces(IdPrefix(requestId), FrameLimit()))
    {
      if requestId == "" {
        return Ok;
      }
      var prefix := "#" + requestId + " ";
      if |prefix| >= 32 {
        return Err(EMSGSIZE);
      }
      ret := Write(prefix);
    }

    method End() returns (ret: Status)
      requires Open()
      modifies frame, q, q.item, q.link`calls
      ensures Open() && q.enabled == old(q.enabled)
      ensures (q.State(), ret) == EndResult(old(q.State()), id, seqNo, FrameLimit(), old(q.Meets()))
    {
      var len := Print(frame, EndFrame(id, SeqNo(seqNo)));
      if len > FrameLimit() {
        return Err(EMSGSIZE);
      }
      ret := q.Push(frame[..len]);
    }
  }

  // ----- whole streams

  lemma {:induction false} AfterAppend(c: Counter, m: nat, n: nat)
    ensures After(c, m + n) == After(After(c, m), n)
    decreases m
  {
    if m > 0 {
      AfterAppend(Next(c), m - 1, n);
    }
  }

  lemma {:induction false} ChunkFramesAppend(id: nat, c: Counter, a: seq<string>, b: seq<string>)
    requires id < 1000
    ensures ChunkFrames(id, c, a + b) == ChunkFrames(id, c, a) + ChunkFrames(id, After(c, |a|), b)
    ensures After(c, |a + b|) == After(After(c, |a|), |b|)
    decreases a
  {
    AfterAppend(c, |a|, |b|);
    if a == [] {
      assert a + b == b;
    } else {
      var d := Next(c);
      assert (a + b)[0] == a[0] && (a + b)[1..] == a[1..] + b;
      ChunkFramesAppend(id, d, a[1..], b);
      Assoc([ChunkFrame(id, SeqNo(c), a[0])], ChunkFrames(id, d, a[1..]), ChunkFrames(id, After(d, |a| - 1), b));
    }
  }

  /** The frames of a stream of writes under a frame limit. */
  function FramesOf(id: nat, writes: seq<string>, limit: nat): seq<string>
    requires id < 1000 && limit > 8
  {
    StreamFrames(id, CutAll(writes, limit - 8))
  }

  /** A stream of two writes frame by frame; the first may be empty, as if it had not been made. */
  lemma TwoWrites(id: nat, first: string, second: string, limit: nat)
    requires id < 1000 && limit > 8
    ensures var c := After(0, |Cut(first, limit - 8)|);
      var d := After(c, |Cut(second, limit - 8)|);
      FramesOf(id, if first == "" then [second] else [first, second], limit) ==
        [StartFrame(id)] + (WriteFrames(id, 0, first, limit) +
          (WriteFrames(id, c, second, limit) + [EndFrame(id, SeqNo(d))]))
  {
    var max := limit - 8;
    var a, b := Cut(first, max), Cut(second, max);
    var c, e := After(0, |a|), [EndFrame(id, SeqNo(After(After(0, |a|), |b|)))];
    CutTwo(first, second, max);
    ChunkFramesAppend(id, 0, a, b);
    Assoc(ChunkFrames(id, 0, a), ChunkFrames(id, c, b), e);
    Assoc([StartFrame(id)], ChunkFrames(id, 0, a) + ChunkFrames(id, c, b), e);
  }

  /** Frame by frame: over a frame limit above 8 the calls offer the frames of one stream of the writes. */
  lemma StreamOffers(f: Flow, id: nat, prefix: string, text: string, limit: nat, way: Way)
    requires id < 1000 && limit > 8
    ensures StreamResult(f, id, prefix, text, limit, way) ==
            OfferAll(f, FramesOf(id, if prefix == "" then [text] else [prefix, text], limit), way)
  {
    var c := After(0, Pieces(prefix, limit));
    var d := After(c, Pieces(text, limit));
    var start, end := StartFrame(id), EndFrame(id, SeqNo(d));
    var head, body := WriteFrames(id, 0, prefix, limit), WriteFrames(id, c, text, limit);
    TwoWrites(id, prefix, text, limit);
    var g, h := Offer(f, start, way).0, OfferAll(Offer(f, start, way).0, head, way).0;
    OfferOne(f, start, way);
    OfferAppend(f, [start], head + (body + [end]), way);
    OfferAppend(g, head, body + [end], way);
    OfferAppend(h, body, [end], way);
    OfferOne(OfferAll(h, body, way).0, end, way);
  }

  lemma CutTwo(first: string, second: string, max: nat)
    requires max > 0
    ensures CutAll(if first == "" then [second] else [first, second], max) == Cut(first, max) + Cut(second, max)
  {
    assert CutAll([second], max) == Cut(second, max) + CutAll([second][1..], max);
    assert [first, second][1..] == [second];
    assert CutAll([first, second], max) == Cut(first, max) + CutAll([second], max);
  }
}

/** Command responses and transmitted payloads: one notification when they fit, a stream when not. */
module Response {
  import opened Errno
  import opened Text
  import opened Frames
  import opened OutQueue
  import opened Stream

  const RSP_TEXT_MAX: nat := 250
  const REQ_ID_MAX: nat := 23

  predicate Tagged(text: string, reqId: string) {
    reqId != "" && (text == "" || text[0] != '#')
  }

  /** The response text with its request id in front, unless it already carries one. */
  function WithId(text: string, reqId: string): string {
    if Tagged(text, reqId) then "#" + reqId + " " + text else text
  }

  /** The request id, if there is one, and the text are a write each. */
  function Prefixed(prefix: string, text: string): seq<string> {
    if prefix == "" then [text] else [prefix, text]
  }

  function TagOf(text: string, reqId: string): string {
    IdPrefix(if Tagged(text, reqId) then reqId else "")
  }

  /** The writes a streamed response is made of. */
  function Writes(text: string, reqId: string): seq<string> {
    Prefixed(TagOf(text, reqId), text)
  }

  lemma WritesFlatten(text: string, reqId: string)
    ensures Flatten(Writes(text, reqId)) == WithId(text, reqId)
  {
    FlattenWrites(TagOf(text, reqId), text);
  }

  /** What reaches the queue for a response when each frame may hold limit bytes. */
  function ResponseFrames(text: string, reqId: string, limit: nat, id: nat): seq<string>
    requires limit > 8 && id < 1000
  {
    if |WithId(text, reqId)| <= limit then [WithId(text, reqId)]
    else FramesOf(id, Writes(text, reqId), limit)
  }

  class Sender {
    const link: Link
    const rsp: Outq
    const tx: Outq
    const rspIds: IdCounter
    const txIds: IdCounter
    /** The last response, readable by the client, and the frame buffer of the streams. */
    const rspBuf: array<char>
    var reqId: string

    ghost predicate Valid()
      reads this, rsp, rsp.item, tx, tx.item, rspIds, txIds
    {
      && rsp != tx && rsp.item != tx.item && rsp.link == tx.link == link && rspIds != txIds
      && rsp.Valid() && tx.Valid()
      && rspIds.next < 1000 && txIds.next < 1000
      && rspBuf.Length == RSP_TEXT_MAX && |reqId| <= REQ_ID_MAX
    }

    constructor (link: Link)
      ensures Valid() && this.link == link && reqId == ""
      ensures fresh(rsp) && fresh(tx) && fresh(rsp.item) && fresh(tx.item)
      ensures fresh(rspIds) && fresh(txIds) && fresh(rspBuf)
      ensures rsp.accepted == [] && tx.accepted == []
    {
      this.link := link;
      rsp := new Outq(link);
      tx := new Outq(link);
      rspIds := new IdCounter();
      txIds := new IdCounter();
      rspBuf := new char[RSP_TEXT_MAX];
      reqId := "";
    }

    /** Streams a response text through the response queue. */
    method StreamText(text: string) returns (ret: Status)
      requires Valid()
      modifies rspIds, rspBuf, rsp, rsp.item, link`calls
      ensures Valid() && 1 <= rspIds.next <= 999 && rsp.enabled == old(rsp.enabled)
      ensures Streamed(old(rsp.State()), rsp.State(), old(rsp.Meets()), rspIds.next, TagOf(text, reqId), text,
                       link.PayloadMax(), ret)
    {
      var id := rspIds.NextId();
      ret := StreamOut(rspBuf, link.PayloadMax(), rsp, id, if Tagged(text, reqId) then reqId else "", text);
    }

    method StreamPayload(data: string) returns (ret: Status)
      requires Valid()
      modifies txIds, rspBuf, tx, tx.item, link`calls
      ensures Valid() && 1 <= txIds.next <= 999 && tx.enabled == old(tx.enabled)
      ensures Streamed(old(tx.State()), tx.State(), old(tx.Meets()), txIds.next, "", data, link.PayloadMax(), ret)
    {
      var id := txIds.NextId();
      ret := StreamOut(rspBuf, link.PayloadMax(), tx, id, "", data);
    }

    /** Sends a formatted response: as one notification if the client's MTU allows, else as a stream.
        The formatted text is cut to the buffer size first. */
    method SendResponse(formatted: string) returns (ret: Status)
      requires Valid() && NulFree(formatted)
      modifies rspIds, rspBuf, rsp, rsp.item, link`calls
      ensures Valid() && rsp.enabled == old(rsp.enabled)
      ensures !(link.conn && link.connected && old(rsp.enabled)) ==> ret == Ok && rsp.State() == old(rsp.State())
      ensures link.conn && link.connected && old(rsp.enabled) ==>
        Responded(old(rsp.State()), rsp.State(), old(rsp.Meets()), rspIds.next, Fitting(formatted), reqId, ret)
      ensures link.conn && link.connected && old(rsp.enabled) && link.PayloadMax() > 8 ==>
        var frames := ResponseFrames(Fitting(formatted), reqId, link.PayloadMax(), rspIds.next);
        && (ret == Ok <==> rsp.accepted == old(rsp.accepted) + frames)
        && (link.ready && (forall n :: n >= old(link.calls) ==> !Transient(link.radio(n))) ==> ret == Ok)
        && (link.ready && old(rsp.count) + |frames| <= 8 ==> rsp.Contents() == old(rsp.Contents()) + frames)
        && (|WithId(Fitting(formatted), reqId)| <= link.PayloadMax() ==> frames == [WithId(Fitting(formatted), reqId)])
    {
      ghost var f, way := rsp.State(), rsp.Meets();
      var text := Fitting(formatted);
      var len := FormatResponse(text);
      ret := Ok;
      if link.conn && link.connected && rsp.enabled {
        ret := Respond(text, len);
        if link.PayloadMax() > 8 {
          RespondedExactly(f, rsp.State(), way, rspIds.next, text, reqId, ret);
        }
      }
    }

    /** The response in its buffer goes out as one frame, or else the text as a stream. */
    method Respond(text: string, len: nat) returns (ret: Status)
      requires Valid() && len < RSP_TEXT_MAX && |text| < RSP_TEXT_MAX
      requires var whole := WithId(text, reqId);
        if |whole| < RSP_TEXT_MAX then rspBuf[..len] == whole else len == RSP_TEXT_MAX - 1
      modifies rspIds, rspBuf, rsp, rsp.item, link`calls
      ensures Valid() && rsp.enabled == old(rsp.enabled)
      ensures Responded(old(rsp.State()), rsp.State(), old(rsp.Meets()), rspIds.next, text, reqId, ret)
    {
      if len <= link.PayloadMax() {
        ret := PushResponse(len);
      } else {
        ret := StreamText(text);
      }
    }

    /** Prints the response into its buffer; a text that does not fit is cut. */
    method FormatResponse(text: string) returns (len: nat)
      requires Valid()
      modifies rspBuf
      ensures len < RSP_TEXT_MAX
      ensures var whole := WithId(text, reqId);
        if |whole| < RSP_TEXT_MAX then rspBuf[..len] == whole
        else len == RSP_TEXT_MAX - 1 && rspBuf[..len] == whole[..len]
    {
      len := Print(rspBuf, WithId(text, reqId));
      if len >= RSP_TEXT_MAX {
        len := RSP_TEXT_MAX - 1;
      }
    }

    /** Pushes the response as one frame. */
    method PushResponse(len: nat) returns (ret: Status)
      requires Valid() && len < RSP_TEXT_MAX
      modifies rsp, rsp.item, link`calls
      ensures Valid() && rsp.enabled == old(rsp.enabled)
      ensures (rsp.State(), ret) == Offer(old(rsp.State()), rspBuf[..len], old(rsp.Meets()))
    {
      ret := rsp.Push(rspBuf[..len]);
    }

    /** Sends a payload to the client. */
    method TransmitPayload(data: string) returns (ret: Status)
      requires Valid()
      modifies txIds, rspBuf, tx, tx.item, link`calls
      ensures Valid() && tx.enabled == old(tx.enabled)
      ensures Transmitted(old(tx.State()), tx.State(), old(tx.Meets()), txIds.next, data, ret)
      ensures !link.ready ==> ret == Err(ENODEV)
      ensures link.ready && !(link.conn && link.connected) ==> ret == Err(ENOTCONN)
      ensures link.ready && link.conn && link.connected && !tx.enabled ==> ret == Err(EACCES)
      ensures old(tx.Gate()) == Ok && link.PayloadMax() > 8 ==>
        var frames := PayloadFrames(data, link.PayloadMax(), txIds.next);
        && (ret == Ok <==> tx.accepted == old(tx.accepted) + frames)
        && (ret == Ok || ret == Err(ENOSPC))
        && (|data| <= link.PayloadMax() ==> frames == [data])
        && (old(tx.count) + |frames| <= 8 ==> ret == Ok && tx.Contents() == old(tx.Contents()) + frames)
        && ((forall n :: n >= old(link.calls) ==> !Transient(link.radio(n))) ==> ret == Ok)
    {
      ghost var f, way := tx.State(), tx.Meets();
      ret := Transmit(data);
      ghost var g := tx.State();
      if link.PayloadMax() > 8 {
        TransmittedExactly(f, g, way, txIds.next, data, ret);
        assert g.accepted == tx.accepted && f.accepted == old(tx.accepted);
      }
    }

    method Transmit(data: string) returns (ret: Status)
      requires Valid()
      modifies txIds, rspBuf, tx, tx.item, link`calls
      ensures Valid() && tx.enabled == old(tx.enabled)
      ensures Transmitted(old(tx.State()), tx.State(), old(tx.Meets()), txIds.next, data, ret)
    {
      if !link.ready {
        return Err(ENODEV);
      }
      if !link.conn || !link.connected {
        return Err(ENOTCONN);
      }
      if !tx.enabled {
        return Err(EACCES);
      }
      if |data| <= link.PayloadMax() {
        ret := tx.Push(data);
        return;
      }
      ret := StreamPayload(data);
    }
  }

  /** The response is offered as one frame if it fits, else as a stream. */
  ghost predicate Responded(f: Flow, g: Flow, way: Way, id: nat, text: string, reqId: string, ret: Status) {
    if |WithId(text, reqId)| <= way.max then (g, ret) == Offer(f, WithId(text, reqId), way)
    else Streamed(f, g, way, id, TagOf(text, reqId), text, way.max, ret)
  }

  /** What responding comes to. */
  lemma RespondedExactly(f: Flow, g: Flow, way: Way, id: nat, text: string, reqId: string, ret: Status)
    requires |f.q| <= 8 && 8 < way.max && id <= 999 && Responded(f, g, way, id, text, reqId, ret)
    ensures Comes(f, ResponseFrames(text, reqId, way.max, id), way, g, ret)
  {
    if |WithId(text, reqId)| <= way.max {
      CameOne(f, WithId(text, reqId), way);
    } else {
      StreamedExactly(f, g, way, id, TagOf(text, reqId), text, way.max, ret);
    }
  }

  /** A closed gate answers at once; else the payload is offered as one frame or as a stream. */
  ghost predicate Transmitted(f: Flow, g: Flow, way: Way, id: nat, data: string, ret: Status) {
    if way.gate != Ok then (g, ret) == (f, way.gate)
    else if |data| <= way.max then (g, ret) == Offer(f, data, way)
    else Streamed(f, g, way, id, "", data, way.max, ret)
  }

  /** The frames a payload is transmitted as. */
  function PayloadFrames(data: string, limit: nat, id: nat): seq<string>
    requires limit > 8 && id < 1000
  {
    if |data| <= limit then [data] else FramesOf(id, [data], limit)
  }

  /** What transmitting comes to. */
  lemma TransmittedExactly(f: Flow, g: Flow, way: Way, id: nat, data: string, ret: Status)
    requires |f.q| <= 8 && 8 < way.max && id <= 999 && Transmitted(f, g, way, id, data, ret)
    ensures Comes(f, PayloadFrames(data, way.max, id), way, g, ret)
  {
    if way.gate != Ok {
      FramesFit(id, [data], way.max);
      Refused(f, PayloadFrames(data, way.max, id), way);
    } else if |data| <= way.max {
      CameOne(f, data, way);
    } else {
      StreamedExactly(f, g, way, id, "", data, way.max, ret);
    }
  }

  /** What a bounded formatter keeps of a text. */
  function Fitting(formatted: string): (text: string)
    ensures text <= formatted && |text| == if |formatted| < 249 then |formatted| else 249
  {
    if |formatted| < RSP_TEXT_MAX then formatted else formatted[..RSP_TEXT_MAX - 1]
  }

  /** A stream of a text, its request id in front, under an id of its own. */
  ghost predicate Streamed(f: Flow, g: Flow, way: Way, id: nat, prefix: string, text: string, limit: nat,
                           ret: Status) {
    1 <= id <= 999 && (g, ret) == StreamResult(f, id, prefix, text, limit, way)
  }

  /** Frames offered to a queue: some are in its log, all of them if the answer is Ok; behind an open gate
      the answer is Ok unless at one of them the ring is full and the next nine notify calls meet a busy
      stack; and nothing is lost without a permanent error. */
  ghost predicate Comes(f: Flow, fs: seq<string>, way: Way, g: Flow, ret: Status) {
    && |g.q| <= 8 && g.call >= f.call
    && Added(f.accepted, g.accepted, fs, ret == Ok)
    && ret == (if way.gate != Ok then way.gate
               else if exists i :: 0 <= i < |fs| && NoRoom(OfferAll(f, fs[..i], way).0, way.radio) then Err(ENOSPC)
               else Ok)
    && ((forall n :: n >= f.call ==> !Transient(way.radio(n))) ==> ret == way.gate)
    && (way.gate == Ok && |f.q| + |fs| <= 8 ==> ret == Ok && g.q == f.q + fs && g.sent == f.sent)
    && (ret == Ok && Patient(way.radio, f.call) ==> g.sent + g.q == f.sent + f.q + fs)
    && (InLine(f) ==> InLine(g))
  }

  lemma CameAll(f: Flow, fs: seq<string>, way: Way)
    requires |f.q| <= 8 && fs != [] && forall x :: x in fs ==> |x| <= way.max
    ensures var (g, ret) := OfferAll(f, fs, way); Comes(f, fs, way, g, ret)
  {
    OffersAdd(f, fs, way);
    AnswerExactly(f, fs, way);
    var k := OfferAllExactly(f, fs, way);
    assert k == |fs| ==> fs[..k] == fs;
    if way.gate == Ok && |f.q| + |fs| <= 8 {
      RoomForAll(f, fs, way);
    }
    if way.gate == Ok && forall n :: n >= f.call ==> !Transient(way.radio(n)) {
      AllTaken(f, fs, way);
    }
    if InLine(f) {
      OffersKeepLine(f, fs, way);
    }
  }

  lemma CameOne(f: Flow, x: string, way: Way)
    requires |f.q| <= 8 && |x| <= way.max
    ensures var (g, ret) := Offer(f, x, way); Comes(f, [x], way, g, ret)
  {
    OfferOne(f, x, way);
    CameAll(f, [x], way);
  }

  lemma Refused(f: Flow, fs: seq<string>, way: Way)
    requires |f.q| <= 8 && way.gate != Ok && fs != []
    ensures Comes(f, fs, way, f, way.gate)
  {
    assert |f.accepted| < |f.accepted + fs|;
  }

  lemma StreamedExactly(f: Flow, g: Flow, way: Way, id: nat, prefix: string, text: string, limit: nat, ret: Status)
    requires |f.q| <= 8 && 8 < limit <= way.max && Streamed(f, g, way, id, prefix, text, limit, ret)
    ensures Comes(f, FramesOf(id, Prefixed(prefix, text), limit), way, g, ret)
  {
    StreamOffers(f, id, prefix, text, limit, way);
    FramesFit(id, Prefixed(prefix, text), limit);
    CameAll(f, FramesOf(id, Prefixed(prefix, text), limit), way);
  }

  lemma FramesFit(id: nat, writes: seq<string>, limit: nat)
    requires id < 1000 && limit > 8
    ensures FramesOf(id, writes, limit) != [] && forall x :: x in FramesOf(id, writes, limit) ==> |x| <= limit
  {
    var pieces := CutAll(writes, limit - 8);
    CutAllFacts(writes, limit - 8);
    forall i | 0 <= i < |pieces|
      ensures |ChunkFrames(id, 0, pieces)[i]| <= limit
    {
      ChunkFrameAt(id, 0, pieces, i);
      assert pieces[i] in pieces;
    }
  }

  /** Frames that cannot hold a header and a byte make every stream of a text fail. */
  lemma TooSmall(f: Flow, id: nat, prefix: string, text: string, limit: nat, way: Way)
    requires id < 1000 && limit <= 8 && prefix + text != ""
    ensures StreamResult(f, id, prefix, text, limit, way).1 != Ok
  {
  }

  /** Begin, the request id if there is one, the text, end. */
  method SendAll(ctx: StreamCtx, id: nat, requestId: string, text: string) returns (ret: Status)
    requires ctx.q.Valid() && ctx.frame.Length > 0 && 1 <= id <= 999 && |requestId| <= 29
    modifies ctx, ctx.frame, ctx.q, ctx.q.item, ctx.q.link`calls
    ensures ctx.q.Valid() && ctx.q.enabled == old(ctx.q.enabled)
    ensures (ctx.q.State(), ret) ==
            StreamResult(old(ctx.q.State()), id, IdPrefix(requestId), text, ctx.FrameLimit(), old(ctx.q.Meets()))
  {
    ret := ctx.Begin(id);
    if ret != Ok {
      return;
    }
    ret := ctx.WriteRequestIdPrefix(requestId);
    if ret != Ok {
      return;
    }
    ret := SendText(ctx, text);
  }

  /** The last write of a stream and its end. */
  method SendText(ctx: StreamCtx, text: string) returns (ret: Status)
    requires ctx.Open()
    modifies ctx`seqNo, ctx.frame, ctx.q, ctx.q.item, ctx.q.link`calls
    ensures ctx.Open() && ctx.q.enabled == old(ctx.q.enabled)
    ensures (ctx.q.State(), ret) ==
            TextResult(old(ctx.q.State()), ctx.id, old(ctx.seqNo), text, ctx.FrameLimit(), old(ctx.q.Meets()))
  {
    ret := ctx.Write(text);
    if ret == Ok {
      ret := ctx.End();
    }
  }

  /** One stream with a context of its own. */
  method StreamOut(frame: array<char>, limit: nat, q: Outq, id: nat, requestId: string, text: string)
      returns (ret: Status)
    requires q.Valid() && 0 < limit < frame.Length && 1 <= id <= 999 && |requestId| <= 29
    modifies frame, q, q.item, q.link`calls
    ensures q.Valid() && q.enabled == old(q.enabled)
    ensures (q.State(), ret) == StreamResult(old(q.State()), id, IdPrefix(requestId), text, limit, old(q.Meets()))
  {
    var ctx := new StreamCtx(frame, limit, q);
    ret := SendAll(ctx, id, requestId, text);
  }

  lemma FlattenWrites(prefix: string, text: string)
    ensures Flatten(Prefixed(prefix, text)) == prefix + text
  {
    assert Flatten([text]) == text + Flatten([text][1..]);
    assert [prefix, text][1..] == [text];
    assert Flatten([prefix, text]) == prefix + Flatten([text]);
  }
}

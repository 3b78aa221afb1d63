/** From the firmware's texts to the console's: framing, queue, radio and reassembly together. */
module EndToEnd {
  import opened Errno
  import opened Text
  import opened Frames
  import opened Console
  import opened Transfer
  import opened StaleEntries
  import opened OutQueue
  import opened Stream
  import opened Response
  import QueueMachine

  // ----- loss anywhere on the way

  lemma {:induction false} OwnPrefix(a: seq<string>, b: seq<string>, key: string)
    requires a <= b
    ensures Own(a, key) <= Own(b, key)
    ensures Own(b, key) == Own(a, key) + Own(b[|a|..], key)
  {
    assert b == a + b[|a|..];
    OwnAppend(a, b[|a|..], key);
  }

  lemma PrefixIsSubsequence<T>(a: seq<T>, b: seq<T>)
    requires a <= b
    ensures Subsequence(a, b)
  {
    SubsequenceRefl(a);
    SubsequenceGrow(a, a, b[|a|..]);
    assert b == a + b[|a|..];
  }

  /** A stream cut short in the queue never shows its end frame. */
  lemma NoEndWithoutAll(now: seq<string>, id: nat, pieces: seq<string>)
    requires 0 < id < 1000 && |pieces| <= 999
    requires now < StreamFrames(id, pieces)
    ensures End(Pad3(id), |pieces|) !in Own(now, Pad3(id))
  {
    var key, fs := Pad3(id), StreamFrames(id, pieces);
    var opening := Unended(id, pieces);
    assert fs == opening + [EndFrame(id, Total(pieces))];
    assert now <= opening;
    OwnPrefix(now, opening, key);
    OwnUnended(id, pieces);
    ReadChunksFit(key, 0, pieces);
  }

  /** What a queue ever accepted holds, of one stream's frames, those the sender got in, in order; frames
      of other ids and messages may lie anywhere between them. */
  ghost predicate Carries(accepted: seq<string>, id: nat, fs: seq<string>, whole: bool)
    requires id < 1000
  {
    exists part :: part <= fs && (whole <==> part == fs) && Own(accepted, Pad3(id)) == Own(part, Pad3(id))
  }

  /** Among them what a sender alone adds to a queue that never saw the id. */
  lemma AddedCarries(before: seq<string>, now: seq<string>, later: seq<string>, id: nat, fs: seq<string>, whole: bool)
    requires id < 1000 && Own(before, Pad3(id)) == [] && Own(later, Pad3(id)) == []
    requires Added(before, now, fs, whole)
    ensures Carries(now + later, id, fs, whole)
  {
    var key, part := Pad3(id), now[|before|..];
    assert now == before + part;
    assert (before + fs)[|before|..] == fs;
    assert part == (before + fs)[..|now|][|before|..] == fs[..|part|];
    OwnAppend(now, later, key);
    OwnAppend(before, part, key);
    assert [] + Own(part, key) + [] == Own(part, key);
  }

  /** And what another producer puts in between makes no difference. */
  lemma CarriesAnyway(a: seq<string>, other: string, b: seq<string>, id: nat, fs: seq<string>, whole: bool)
    requires id < 1000 && Carries(a + b, id, fs, whole) && Own([other], Pad3(id)) == []
    ensures Carries(a + [other] + b, id, fs, whole)
  {
    var key := Pad3(id);
    OwnAppend(a, b, key);
    OwnAppend(a + [other], b, key);
    OwnAppend(a, [other], key);
    assert Own(a, key) + [] == Own(a, key);
  }

  lemma CarriedOwn(accepted: seq<string>, id: nat, pieces: seq<string>, whole: bool) returns (part: seq<string>)
    requires 0 < id < 1000 && |pieces| <= 999
    requires Carries(accepted, id, StreamFrames(id, pieces), whole)
    ensures part <= StreamFrames(id, pieces) && Own(accepted, Pad3(id)) == Own(part, Pad3(id))
    ensures !whole ==> End(Pad3(id), |pieces|) !in Own(part, Pad3(id))
  {
    part :| part <= StreamFrames(id, pieces) && (whole <==> part == StreamFrames(id, pieces))
            && Own(accepted, Pad3(id)) == Own(part, Pad3(id));
    if !whole {
      NoEndWithoutAll(part, id, pieces);
    }
  }

  /** End to end. A stream of NUL-free writes, at most 999 pieces, got into the queue wholly or in part,
      mixed with other producers' frames; what the radio put on the air is a subsequence of what the
      queue accepted. Then a console without a leftover entry for the id adds exactly the payload or
      nothing to the texts of the id: the payload when the whole stream came through, nothing in every
      other case. */
  lemma PayloadOrNothing(rx: Rx, accepted: seq<string>, air: seq<string>, id: nat, writes: seq<string>,
                         limit: nat, whole: bool)
    requires 0 < id < 1000 && limit > 8 && NulFree(Flatten(writes)) && |CutAll(writes, limit - 8)| <= 999
    requires Carries(accepted, id, FramesOf(id, writes, limit), whole)
    requires Subsequence(air, accepted)
    requires Pad3(id) !in rx.streams || Start(Pad3(id)) in Own(air, Pad3(id))
    ensures var key, pieces := Pad3(id), CutAll(writes, limit - 8);
      TextsOf(ReceiveAll(rx, air).out, key) ==
        TextsOf(rx.out, key) + if CameThrough(Own(air, key), key, pieces) then [Flatten(writes)] else []
    ensures !whole ==> !CameThrough(Own(air, Pad3(id)), Pad3(id), CutAll(writes, limit - 8))
  {
    var key, pieces := Pad3(id), CutAll(writes, limit - 8);
    CutAllFacts(writes, limit - 8);
    var part := CarriedOwn(accepted, id, pieces, whole);
    OwnPrefix(part, StreamFrames(id, pieces), key);
    PrefixIsSubsequence(Own(part, key), Own(StreamFrames(id, pieces), key));
    ExactlyOrNothing(rx, air, accepted, id, pieces);
    SubsequenceOwn(air, accepted, key);
    if !whole && End(key, |pieces|) in Own(air, key) {
      SubsequenceMember(Own(air, key), Own(accepted, key), End(key, |pieces|));
    }
  }

  // ----- frames out of order as well

  lemma Pick<T>(a: seq<T>, x: T) returns (front: seq<T>, back: seq<T>)
    requires x in a
    ensures a == front + [x] + back && multiset(front + back) == multiset(a) - multiset{x}
  {
    var i :| 0 <= i < |a| && a[i] == x;
    front, back := a[..i], a[i + 1..];
    assert a == front + [x] + back;
  }

  /** No frame is read more often than it was accepted. */
  lemma {:induction false} OwnCounts(air: seq<string>, accepted: seq<string>, key: string)
    requires multiset(air) <= multiset(accepted)
    ensures multiset(Own(air, key)) <= multiset(Own(accepted, key))
    decreases air
  {
    if air != [] {
      var x, rest := air[0], air[1..];
      assert air == [x] + rest;
      assert x in multiset(air);
      var front, back := Pick(accepted, x);
      OwnCounts(rest, front + back, key);
      OwnHead(air, key);
      OwnAppend(front, back, key);
      OwnAppend(front + [x], back, key);
      OwnAppend(front, [x], key);
    }
  }

  lemma {:induction false} DataCounts(a: seq<QueueMachine.Item>, b: seq<QueueMachine.Item>)
    requires multiset(a) <= multiset(b)
    ensures multiset(QueueMachine.Data(a)) <= multiset(QueueMachine.Data(b))
    decreases a
  {
    if a != [] {
      var x, rest := a[0], a[1..];
      assert a == [x] + rest;
      assert x in multiset(a);
      var front, back := Pick(b, x);
      DataCounts(rest, front + back);
      QueueMachine.DataAppend([x], rest);
      QueueMachine.DataAppend(front, back);
      QueueMachine.DataAppend(front, [x]);
      QueueMachine.DataAppend(front + [x], back);
    }
  }

  lemma OwnAreOurs(accepted: seq<string>, air: seq<string>, id: nat, pieces: seq<string>, whole: bool)
    requires 0 < id < 1000 && |pieces| <= 999 && multiset(air) <= multiset(accepted)
    requires forall i :: 0 <= i < |pieces| ==> StripTrailingNuls(pieces[i]) == pieces[i]
    requires Carries(accepted, id, StreamFrames(id, pieces), whole)
    ensures var got, key := Own(air, Pad3(id)), Pad3(id);
      && (forall f :: f in got ==> Ours(f, key, pieces))
      && multiset(got)[End(key, |pieces|)] <= 1
      && (!whole ==> End(key, |pieces|) !in got)
  {
    var key, end := Pad3(id), End(Pad3(id), |pieces|);
    var part := CarriedOwn(accepted, id, pieces, whole);
    OwnCounts(air, accepted, key);
    PrefixIsSubsequence(part, StreamFrames(id, pieces));
    LossyIsOurs(part, id, pieces);
    forall f | f in Own(air, key)
      ensures f in Own(part, key)
    {
      assert f in multiset(Own(air, key));
    }
  }

  /** The same over every run of the concurrent queue, whatever the radio, the other producers, any number
      of flushers and the connection do in between: the console adds the payload once or nothing, and
      nothing if the stream was cut short. If no flusher pops while another holds a frame, what came
      through decides which. */
  lemma PayloadOrNothingInEveryRun(rx: Rx, steps: seq<QueueMachine.Step>, d: QueueMachine.Discipline,
                                   id: nat, writes: seq<string>, limit: nat, whole: bool)
    requires QueueMachine.Legal(QueueMachine.Start, steps, d)
    requires 0 < id < 1000 && limit > 8 && NulFree(Flatten(writes)) && |CutAll(writes, limit - 8)| <= 999
    requires Carries(QueueMachine.Data(QueueMachine.Run(QueueMachine.Start, steps, d).accepted),
                     id, FramesOf(id, writes, limit), whole)
    requires Pad3(id) in rx.streams ==> Harmless(rx.streams[Pad3(id)], CutAll(writes, limit - 8))
    ensures var key, pieces := Pad3(id), CutAll(writes, limit - 8);
      var air := QueueMachine.Data(QueueMachine.Run(QueueMachine.Start, steps, d).sent);
      var before, after := TextsOf(rx.out, key), TextsOf(ReceiveAll(rx, air).out, key);
      && (after == before || (whole && after == before + [Flatten(writes)]))
      && (d.oneHeld && key !in rx.streams ==>
            after == before + if whole && CameThrough(Own(air, key), key, pieces) then [Flatten(writes)] else [])
  {
    var s := QueueMachine.Run(QueueMachine.Start, steps, d);
    var accepted, air := QueueMachine.Data(s.accepted), QueueMachine.Data(s.sent);
    var pieces := CutAll(writes, limit - 8);
    CutAllFacts(writes, limit - 8);
    StripNulFree(pieces);
    SentIsAccepted(steps, d);
    OwnAreOurs(accepted, air, id, pieces, whole);
    SafeInAnyOrder(rx, air, Pad3(id), pieces);
    if d.oneHeld && Pad3(id) !in rx.streams {
      QueueMachine.SentInOrder(steps, d);
      PayloadOrNothing(rx, accepted, air, id, writes, limit, whole);
    }
  }

  lemma SentIsAccepted(steps: seq<QueueMachine.Step>, d: QueueMachine.Discipline)
    requires QueueMachine.Legal(QueueMachine.Start, steps, d)
    ensures var s := QueueMachine.Run(QueueMachine.Start, steps, d);
      multiset(QueueMachine.Data(s.sent)) <= multiset(QueueMachine.Data(s.accepted))
  {
    QueueMachine.EveryFrameAccountedFor(steps, d);
    var s := QueueMachine.Run(QueueMachine.Start, steps, d);
    assert multiset(s.sent) <= multiset(s.accepted);
    DataCounts(s.sent, s.accepted);
  }

  // ----- with a radio that takes everything

  lemma {:induction false} ReceiveAppend(rx: Rx, a: seq<string>, b: seq<string>)
    ensures ReceiveAll(rx, a + b) == ReceiveAll(ReceiveAll(rx, a), b)
    decreases a
  {
    if a == [] {
      assert a + b == b;
    } else {
      assert (a + b)[0] == a[0] && (a + b)[1..] == a[1..] + b;
      ReceiveAppend(Receive(rx, a[0]), a[1..], b);
    }
  }

  /** Behind an open gate and with a radio that takes everything a payload is accepted, and the next flush
      has put all that was queued before and then the payload on the air. */
  lemma GoodRadioSends(f: Flow, g: Flow, way: Way, id: nat, data: string, ret: Status)
    requires |f.q| <= 8 && way.gate == Ok && way.max > 8 && id < 1000 && Takes(way.radio, f.call)
    requires Transmitted(f, g, way, id, data, ret)
    ensures ret == Ok
    ensures Flushed(g, way.radio).sent == f.sent + f.q + PayloadFrames(data, way.max, id)
    ensures Flushed(g, way.radio).q == []
  {
    TransmittedExactly(f, g, way, id, data, ret);
    NoneGivenUp(g.q, way.radio, g.call);
  }

  /** And the console has the payload, whatever it held before. */
  lemma GoodRadioDelivers(rx: Rx, f: Flow, g: Flow, way: Way, id: nat, data: string, ret: Status)
    requires |f.q| <= 8 && way.gate == Ok && way.max > 8 && 0 < id < 1000 && Takes(way.radio, f.call)
    requires Transmitted(f, g, way, id, data, ret)
    requires NulFree(data) && |data| > way.max && |CutAll([data], way.max - 8)| <= 1000
    ensures ret == Ok
    ensures TextsOf(ReceiveAll(rx, Flushed(g, way.radio).sent).out, Pad3(id)) ==
            TextsOf(ReceiveAll(rx, f.sent + f.q).out, Pad3(id)) + [data]
  {
    var key, pieces := Pad3(id), CutAll([data], way.max - 8);
    GoodRadioSends(f, g, way, id, data, ret);
    ReceiveAppend(rx, f.sent + f.q, StreamFrames(id, pieces));
    CutAllFacts([data], way.max - 8);
    assert Flatten([data]) == data by {
      assert [data][1..] == [];
    }
    StripNulFree(pieces);
    var before := ReceiveAll(rx, f.sent + f.q);
    TextsAdded(before, StreamFrames(id, pieces), key);
    OwnStream(id, pieces);
    InTime(Lookup(before.streams, key), key, pieces);
  }

  // ----- the MTU does not show

  lemma {:induction false} OnlyOwn(rx: Rx, trace: seq<string>, key: string)
    requires forall raw :: raw in trace ==> !Read(raw).Plain? && Read(raw).id == key
    ensures ReceiveAll(rx, trace).out ==
            rx.out + AllRebuilt(key, Steps(Slot(Lookup(rx.streams, key), []), Own(trace, key)).texts)
    decreases trace
  {
    if trace == [] {
      assert AllRebuilt(key, []) == [];
    } else {
      var next, rest := Receive(rx, trace[0]), trace[1..];
      assert trace[0] in trace;
      assert forall raw :: raw in rest ==> raw in trace;
      OnlyOwn(next, rest, key);
      var slot := Slot(Lookup(rx.streams, key), []);
      OwnHead(trace, key);
      OwnOne(trace[0], key);
      StepsAppend(slot, [Read(trace[0])], Own(rest, key));
      StepsOne(slot, Read(trace[0]));
      var after := Step(slot, Read(trace[0]));
      StepsTexts(after, Own(rest, key));
      RebuiltAppend(rx.out, key, after.texts, Steps(after.(texts := []), Own(rest, key)).texts);
    }
  }

  lemma RebuiltAppend(out: seq<Delivery>, key: string, a: seq<string>, b: seq<string>)
    ensures out + AllRebuilt(key, a) + AllRebuilt(key, b) == out + AllRebuilt(key, a + b)
  {
    assert AllRebuilt(key, a) + AllRebuilt(key, b) == AllRebuilt(key, a + b);
    Assoc(out, AllRebuilt(key, a), AllRebuilt(key, b));
  }

  lemma StreamIsOwn(id: nat, pieces: seq<string>)
    requires 0 < id < 1000
    ensures forall raw :: raw in StreamFrames(id, pieces) ==> !Read(raw).Plain? && Read(raw).id == Pad3(id)
  {
    forall raw | raw in StreamFrames(id, pieces)
      ensures !Read(raw).Plain? && Read(raw).id == Pad3(id)
    {
      if raw == StartFrame(id) {
        ReadStart(id);
      } else if raw == EndFrame(id, Total(pieces)) {
        ReadEnd(id, Total(pieces));
      } else {
        var i :| 0 <= i < |pieces| && raw == ChunkFrames(id, 0, pieces)[i];
        ChunkFrameAt(id, 0, pieces, i);
        ReadChunk(id, SeqNo(After(0, i)), pieces[i]);
      }
    }
  }

  /** What the console is expected to log for a response. */
  function Expected(text: string, reqId: string, limit: nat, id: nat): Delivery
    requires id < 1000
  {
    var whole := WithId(text, reqId);
    if |whole| <= limit then Message(whole) else Rebuilt(Pad3(id), whole)
  }

  lemma StreamedResponse(rx: Rx, text: string, reqId: string, limit: nat, id: nat)
    requires 0 < id < 1000 && limit > 8 && NulFree(WithId(text, reqId)) && |WithId(text, reqId)| <= 1000
    ensures ReceiveAll(rx, FramesOf(id, Writes(text, reqId), limit)).out ==
            rx.out + [Rebuilt(Pad3(id), WithId(text, reqId))]
  {
    var key, whole, pieces := Pad3(id), WithId(text, reqId), CutAll(Writes(text, reqId), limit - 8);
    WritesFlatten(text, reqId);
    CutAllFacts(Writes(text, reqId), limit - 8);
    StripNulFree(pieces);
    StreamIsOwn(id, pieces);
    OnlyOwn(rx, StreamFrames(id, pieces), key);
    OwnStream(id, pieces);
    InTime(Lookup(rx.streams, key), key, pieces);
    assert AllRebuilt(key, [whole]) == [Rebuilt(key, whole)];
  }

  /** A response is heard byte for byte whatever the frame limit, that is whatever the MTU: always when
      it has to be streamed; when it fits one notification, exactly if it does not look like a frame and
      does not end in white space. */
  lemma MtuDoesNotShow(rx: Rx, text: string, reqId: string, limit: nat, id: nat)
    requires 0 < id < 1000 && 8 < limit <= APP_PAYLOAD_MAX
    requires |text| < RSP_TEXT_MAX && |reqId| <= REQ_ID_MAX && NulFree(text) && NulFree(reqId)
    ensures var whole := WithId(text, reqId);
      ReceiveAll(rx, ResponseFrames(text, reqId, limit, id)).out == rx.out + [Expected(text, reqId, limit, id)]
      <==> (|whole| <= limit ==> !IsFrame(whole) && TrimEnd(whole) == whole)
  {
    var whole := WithId(text, reqId);
    assert NulFree(whole);
    if |whole| <= limit {
      assert whole == "" || whole[|whole| - 1] in whole;
      StripKeeps(whole);
      var frames := [whole];
      assert ReceiveAll(rx, frames) == ReceiveAll(Receive(rx, frames[0]), frames[1..]) == Receive(rx, whole);
      Direct(rx, whole);
    } else {
      StreamedResponse(rx, text, reqId, limit, id);
    }
  }

  lemma Direct(rx: Rx, whole: string)
    requires StripTrailingNuls(whole) == whole
    ensures Receive(rx, whole).out == rx.out + [Message(whole)] <==> !IsFrame(whole) && TrimEnd(whole) == whole
  {
    FramesExactly(whole);
    var f := Parse(whole);
    if f.Plain? {
      assert (rx.out + [Message(TrimEnd(whole))])[|rx.out|] == Message(TrimEnd(whole));
      assert (rx.out + [Message(whole)])[|rx.out|] == Message(whole);
    } else {
      var texts := Step(Slot(Lookup(rx.streams, f.id), []), f).texts;
      var got := AllRebuilt(f.id, texts);
      Cancel(rx.out, got, [Message(whole)]);
      assert got == [] || got[0].Rebuilt?;
      assert [Message(whole)][0] == Message(whole);
    }
  }
}

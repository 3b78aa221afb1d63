/** The web console's reassembler of stream frames. */
module Console {
  import opened Text
  import opened Frames

  /** A sparse array of chunks; its indices have three digits. */
  type Chunks = map<nat, string>

  /** One text handed to the console's log: rebuilt from a stream, or a message of its own. */
  datatype Delivery = Rebuilt(id: string, text: string) | Message(text: string)

  datatype Rx = Rx(streams: map<string, Chunks>, out: seq<Delivery>)

  /** Joining a sparse array: holes contribute nothing. */
  function JoinFrom(chunks: Chunks, i: nat): string
    decreases 1000 - i, chunks
  {
    if i >= 1000 then ""
    else (if i in chunks then chunks[i] else "") + JoinFrom(chunks, i + 1)
  }

  predicate Complete(chunks: Chunks, expected: nat) {
    forall i :: 0 <= i < expected ==> i in chunks
  }

  // ----- one stream on its own

  /** The chunks collected for one id, if the console has an entry for it, and the texts delivered. */
  datatype Slot = Slot(chunks: Option<Chunks>, texts: seq<string>)

  function Step(slot: Slot, f: Frame): Slot {
    match f
    case Plain => slot
    case Start(_) => slot.(chunks := Some(map[]))
    case Chunk(_, n, payload) =>
      var known := if slot.chunks.Some? then slot.chunks.value else map[];
      slot.(chunks := Some(known[n := payload]))
    case End(_, expected) =>
      if slot.chunks.None? then slot
      else if !Complete(slot.chunks.value, expected) then slot.(chunks := None)
      else Slot(None, slot.texts + [JoinFrom(slot.chunks.value, 0)])
  }

  function Steps(slot: Slot, fs: seq<Frame>): Slot
    decreases fs
  {
    if fs == [] then slot else Steps(Step(slot, fs[0]), fs[1..])
  }

  lemma {:induction false} StepsAppend(slot: Slot, fs: seq<Frame>, gs: seq<Frame>)
    ensures Steps(slot, fs + gs) == Steps(Steps(slot, fs), gs)
    decreases fs
  {
    if fs == [] {
      assert fs + gs == gs;
    } else {
      assert (fs + gs)[1..] == fs[1..] + gs;
      StepsAppend(Step(slot, fs[0]), fs[1..], gs);
    }
  }

  // ----- all streams and plain messages

  function Lookup(streams: map<string, Chunks>, id: string): Option<Chunks> {
    if id in streams then Some(streams[id]) else None
  }

  function Store(streams: map<string, Chunks>, id: string, entry: Option<Chunks>): map<string, Chunks> {
    match entry
    case Some(chunks) => streams[id := chunks]
    case None => streams - {id}
  }

  function AllRebuilt(id: string, texts: seq<string>): seq<Delivery> {
    seq(|texts|, i requires 0 <= i < |texts| => Rebuilt(id, texts[i]))
  }

  function Receive(rx: Rx, raw: string): Rx {
    var f := Read(raw);
    if f.Plain? then
      rx.(out := rx.out + [Message(TrimEnd(StripTrailingNuls(raw)))])
    else
      var after := Step(Slot(Lookup(rx.streams, f.id), []), f);
      Rx(Store(rx.streams, f.id, after.chunks), rx.out + AllRebuilt(f.id, after.texts))
  }

  function ReceiveAll(rx: Rx, trace: seq<string>): Rx
    decreases trace
  {
    if trace == [] then rx else ReceiveAll(Receive(rx, trace[0]), trace[1..])
  }

  // ----- the console's own form

  class Receiver {
    var streams: map<string, Chunks>
    var out: seq<Delivery>

    function Model(): Rx
      reads this
    {
      Rx(streams, out)
    }

    constructor ()
      ensures Model() == Rx(map[], [])
    {
      streams, out := map[], [];
    }

    /** Lists the indices below expected that have no chunk. */
    static method Missing(chunks: Chunks, expected: nat) returns (missing: seq<nat>)
      ensures missing == [] <==> Complete(chunks, expected)
      ensures forall i: nat :: i in missing <==> i < expected && i !in chunks
    {
      missing := [];
      for i := 0 to expected
        invariant forall k: nat :: k in missing <==> k < i && k !in chunks
      {
        if i !in chunks {
          missing := missing + [i];
        }
      }
      if missing != [] {
        assert missing[0] in missing;
      }
    }

    method HandleStreamFrame(rawText: string) returns (handled: bool)
      modifies this
      ensures handled <==> !Read(rawText).Plain?
      ensures Model() == if handled then Receive(old(Model()), rawText) else old(Model())
      ensures handled <==> IsFrame(StripTrailingNuls(rawText))
    {
      FramesExactly(StripTrailingNuls(rawText));
      handled := Take(Read(rawText), rawText);
    }

    /** What becomes of a frame, if it is one. */
    method Take(f: Frame, ghost raw: string) returns (handled: bool)
      requires f == Read(raw)
      modifies this
      ensures handled <==> !f.Plain?
      ensures Model() == if handled then Receive(old(Model()), raw) else old(Model())
    {
      match f {
        case Start(id) =>
          streams := streams[id := map[]];
          assert AllRebuilt(id, []) == [];
          return true;
        case Chunk(id, n, payload) =>
          if id !in streams {
            streams := streams[id := map[]];
          }
          var chunks: Chunks := streams[id];
          streams := streams[id := chunks[n := payload]];
          assert AllRebuilt(id, []) == [];
          return true;
        case End(id, expected) =>
          assert AllRebuilt(id, []) == [];
          if id !in streams {
            assert streams - {id} == streams;
            return true;
          }
          var chunks := streams[id];
          var missing := Missing(chunks, expected);
          streams := streams - {id};
          if missing != [] {
            return true;
          }
          var text := JoinFrom(chunks, 0);
          assert AllRebuilt(id, [text]) == [Rebuilt(id, text)];
          out := out + [Rebuilt(id, text)];
          return true;
        case Plain =>
          return false;
      }
    }

    method LogResponseText(text: string)
      modifies this
      ensures Model() == Receive(old(Model()), text)
      ensures !IsFrame(StripTrailingNuls(text)) ==>
        streams == old(streams) && out == old(out) + [Message(TrimEnd(StripTrailingNuls(text)))]
      ensures text == "" || text[0] != '~' ==> out == old(out) + [Message(TrimEnd(StripTrailingNuls(text)))]
    {
      var raw := StripTrailingNuls(text);
      FramesExactly(raw);
      assert raw == StripTrailingNuls(raw) by {
        StripKeeps(raw);
      }
      var handled := HandleStreamFrame(raw);
      if !handled {
        out := out + [Message(TrimEnd(raw))];
      }
    }
  }

  // ----- streams do not disturb each other

  /** The frames of one stream id in a trace of raw packets. */
  function Own(trace: seq<string>, id: string): seq<Frame> {
    if trace == [] then []
    else
      var f := Read(trace[0]);
      (if !f.Plain? && f.id == id then [f] else []) + Own(trace[1..], id)
  }

  lemma OwnHead(trace: seq<string>, id: string)
    requires trace != []
    ensures Own(trace, id) == Own([trace[0]], id) + Own(trace[1..], id)
  {
    assert [trace[0]][1..] == [];
  }

  /** The texts rebuilt for one stream id. */
  function TextsOf(out: seq<Delivery>, id: string): seq<string> {
    if out == [] then []
    else (if out[0].Rebuilt? && out[0].id == id then [out[0].text] else []) + TextsOf(out[1..], id)
  }

  lemma {:induction false} TextsOfAppend(a: seq<Delivery>, b: seq<Delivery>, id: string)
    ensures TextsOf(a + b, id) == TextsOf(a, id) + TextsOf(b, id)
  {
    if a == [] {
      assert a + b == b;
    } else {
      assert (a + b)[1..] == a[1..] + b;
      TextsOfAppend(a[1..], b, id);
    }
  }

  lemma {:induction false} TextsOfRebuilt(key: string, texts: seq<string>, id: string)
    ensures TextsOf(AllRebuilt(key, texts), id) == if key == id then texts else []
  {
    if texts != [] {
      assert AllRebuilt(key, texts)[1..] == AllRebuilt(key, texts[1..]);
      TextsOfRebuilt(key, texts[1..], id);
    }
  }

  function SlotOf(rx: Rx, id: string): Slot {
    Slot(Lookup(rx.streams, id), TextsOf(rx.out, id))
  }

  lemma StepTexts(slot: Slot, f: Frame)
    ensures Step(slot, f).chunks == Step(slot.(texts := []), f).chunks
    ensures Step(slot, f).texts == slot.texts + Step(slot.(texts := []), f).texts
  {
  }

  lemma ReceiveOwn(rx: Rx, raw: string, id: string)
    ensures SlotOf(Receive(rx, raw), id) == Steps(SlotOf(rx, id), Own([raw], id))
  {
    var f := Read(raw);
    assert Own([raw], id) == if !f.Plain? && f.id == id then [f] else [];
    if f.Plain? {
      TextsOfAppend(rx.out, [Message(TrimEnd(StripTrailingNuls(raw)))], id);
    } else {
      var after := Step(Slot(Lookup(rx.streams, f.id), []), f);
      TextsOfAppend(rx.out, AllRebuilt(f.id, after.texts), id);
      TextsOfRebuilt(f.id, after.texts, id);
      StepTexts(SlotOf(rx, id), f);
    }
  }

  /** Whatever else arrives in between, a stream's entry and its deliveries are those of its own
      frames alone. */
  lemma {:induction false} StreamsAreIndependent(rx: Rx, trace: seq<string>, id: string)
    ensures SlotOf(ReceiveAll(rx, trace), id) == Steps(SlotOf(rx, id), Own(trace, id))
    decreases trace
  {
    if trace != [] {
      ReceiveOwn(rx, trace[0], id);
      StreamsAreIndependent(Receive(rx, trace[0]), trace[1..], id);
      OwnHead(trace, id);
      StepsAppend(SlotOf(rx, id), Own([trace[0]], id), Own(trace[1..], id));
    }
  }
}

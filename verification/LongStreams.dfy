/** Exactly when loss cannot show: how long a stream may be, and what the console may hold before it. */
module LongStreams {
  import opened Text
  import opened Frames
  import opened Console
  import opened Transfer
  import opened StaleEntries

  // ----- more than a thousand pieces: every number is used

  ghost predicate Filled(m: Chunks, n: nat) {
    forall k: nat :: k < n ==> k in m
  }

  lemma {:induction false} NumbersFill(m: Chunks, texts: seq<string>, key: string, c: Counter, pieces: seq<string>)
    requires forall i :: 0 <= i < |pieces| ==> StripTrailingNuls(pieces[i]) == pieces[i]
    requires Filled(m, 1000) || (c <= 1000 <= c + |pieces| && Filled(m, c))
    ensures var r := Steps(Slot(Some(m), texts), ReadChunks(key, c, pieces));
      r.texts == texts && r.chunks.Some? && Filled(r.chunks.value, 1000)
    decreases pieces
  {
    if pieces != [] {
      ReadChunksStep(m, texts, key, c, pieces);
      NumbersFill(m[SeqNo(c) := pieces[0]], texts, key, Next(c), pieces[1..]);
    }
  }

  lemma LongText(chunks: Option<Chunks>, key: string, pieces: seq<string>, mids: seq<Frame>)
    requires |pieces| >= 1000 && mids == ReadChunks(key, 0, pieces)
    requires forall i :: 0 <= i < |pieces| ==> StripTrailingNuls(pieces[i]) == pieces[i]
    ensures Steps(Slot(chunks, []), Shape(true, mids, true, key, Total(pieces))).texts != []
  {
    var entry := Entry(chunks, true, mids, key);
    ShapeSteps(chunks, true, mids, true, key, Total(pieces));
    NumbersFill(map[], [], key, 0, pieces);
    assert Filled(entry.chunks.value, 1000);
    assert Complete(entry.chunks.value, Total(pieces));
  }

  /** Received whole, a stream of more than 1000 pieces ends in a text that is not its payload. */
  lemma LongDelivers(rx: Rx, id: nat, pieces: seq<string>)
    requires 0 < id < 1000 && |pieces| > 1000
    requires forall i :: 0 <= i < |pieces| ==> pieces[i] != "" && StripTrailingNuls(pieces[i]) == pieces[i]
    ensures !Exact(rx, StreamFrames(id, pieces), Pad3(id), Flatten(pieces))
  {
    var key, chunks := Pad3(id), Lookup(rx.streams, Pad3(id));
    OwnStream(id, pieces);
    LongText(chunks, key, pieces, ReadChunks(key, 0, pieces));
    TooLong(chunks, key, pieces);
    ExactBySteps(rx, StreamFrames(id, pieces), key, Flatten(pieces));
  }

  // ----- a thousand pieces: none is announced

  /** The stream's frames but for the first chunk. */
  function WithoutFirst(id: nat, pieces: seq<string>): seq<string>
    requires id < 1000 && pieces != []
  {
    [StartFrame(id)] + ChunkFrames(id, Next(0), pieces[1..]) + [EndFrame(id, Total(pieces))]
  }

  lemma WithoutFirstIsLossy(id: nat, pieces: seq<string>)
    requires id < 1000 && pieces != []
    ensures Subsequence(WithoutFirst(id, pieces), StreamFrames(id, pieces))
  {
    var s, e := [StartFrame(id)], [EndFrame(id, Total(pieces))];
    var c, rest := ChunkFrames(id, 0, pieces), ChunkFrames(id, Next(0), pieces[1..]);
    assert c == [c[0]] + rest;
    assert StreamFrames(id, pieces) == s + c + e;
    LeaveOut(s, c[0], rest);
    SubsequenceRefl(e);
    SubsequenceAppend(s + rest, s + c, e, e);
  }

  lemma WithoutFirstReads(id: nat, pieces: seq<string>)
    requires 0 < id < 1000 && pieces != []
    ensures Own(WithoutFirst(id, pieces), Pad3(id)) ==
            Shape(true, ReadChunks(Pad3(id), Next(0), pieces[1..]), true, Pad3(id), Total(pieces))
  {
    var key, s, e := Pad3(id), StartFrame(id), EndFrame(id, Total(pieces));
    var rest := ChunkFrames(id, Next(0), pieces[1..]);
    OwnAppend([s] + rest, [e], key);
    OwnAppend([s], rest, key);
    OwnChunks(id, Next(0), pieces[1..]);
    ReadStart(id);
    ReadEnd(id, Total(pieces));
    OwnOne(s, key);
    OwnOne(e, key);
  }

  lemma FirstMissing(key: string, pieces: seq<string>)
    requires 0 < |pieces| <= 1000
    requires forall i :: 0 <= i < |pieces| ==> StripTrailingNuls(pieces[i]) == pieces[i]
    ensures var mids := ReadChunks(key, Next(0), pieces[1..]);
      FromPieces(mids, key, pieces) && !AllArrived(mids, key, pieces)
  {
    var mids := ReadChunks(key, Next(0), pieces[1..]);
    ReadChunksFit(key, Next(0), pieces[1..]);
    forall f | f in mids
      ensures f.Chunk? && f.id == key && 0 < f.seqNo < |pieces| && f.payload == pieces[f.seqNo]
    {
      var i :| 0 <= i < |mids| && mids[i] == f;
      assert pieces[1..][i] == pieces[1 + i];
    }
    assert !Arrived(mids, key, pieces, 0);
  }

  /** Of a thousand pieces the first can be lost unnoticed. */
  lemma FirstUnnoticed(rx: Rx, id: nat, pieces: seq<string>)
    requires 0 < id < 1000 && |pieces| == 1000 && "" !in pieces
    requires forall i :: 0 <= i < |pieces| ==> StripTrailingNuls(pieces[i]) == pieces[i]
    ensures !Exact(rx, WithoutFirst(id, pieces), Pad3(id), Flatten(pieces))
  {
    var key := Pad3(id);
    ShortTotal(pieces);
    WithoutFirstReads(id, pieces);
    FirstMissing(key, pieces);
    Reassemble(Lookup(rx.streams, key), true, ReadChunks(key, Next(0), pieces[1..]), true, key, pieces, 0);
    ExactBySteps(rx, WithoutFirst(id, pieces), key, Flatten(pieces));
    assert [Flatten(pieces)][0] == Flatten(pieces);
  }

  // ----- behind an end frame

  /** Once an end frame of its id has been read the console holds nothing of the stream, complete or not. */
  lemma EndLeavesNothing(rx: Rx, trace: seq<string>, key: string)
    requires EndsLast(Own(trace, key))
    ensures key !in ReceiveAll(rx, trace).streams
  {
    StreamsAreIndependent(rx, trace, key);
    EndClears(SlotOf(rx, key), Own(trace, key));
  }

  predicate EndsLast(own: seq<Frame>) {
    own != [] && own[|own| - 1].End?
  }

  lemma EndClears(slot: Slot, own: seq<Frame>)
    requires EndsLast(own)
    ensures Steps(slot, own).chunks == None
  {
    var front, last := own[..|own| - 1], own[|own| - 1];
    assert own == front + [last];
    StepsAppend(slot, front, [last]);
    StepsOne(Steps(slot, front), last);
  }

  /** So the next stream of that id is safe under every loss, whatever was lost of those before. */
  lemma SafeAfterEnd(rx: Rx, trace: seq<string>, id: nat, pieces: seq<string>, second: seq<string>)
    requires 0 < id < 1000 && |pieces| <= 999 && NulFree(Flatten(pieces))
    requires EndsLast(Own(trace, Pad3(id)))
    requires Subsequence(second, StreamFrames(id, pieces))
    ensures Exact(ReceiveAll(rx, trace), second, Pad3(id), Flatten(pieces))
  {
    EndLeavesNothing(rx, trace, Pad3(id));
    StripNulFree(pieces);
    LossyIsOurs(second, id, pieces);
    SafeInAnyOrder(ReceiveAll(rx, trace), second, Pad3(id), pieces);
  }

  // ----- exactly

  /** Whatever a stream of non-empty pieces loses on the way, the console adds its payload or nothing, if
      and only if the stream has at most 999 pieces and the console holds nothing of its id but what is
      harmless. */
  lemma SafeExactly(rx: Rx, id: nat, pieces: seq<string>)
    requires 0 < id < 1000 && NulFree(Flatten(pieces)) && "" !in pieces
    ensures (forall trace :: Subsequence(trace, StreamFrames(id, pieces)) ==>
               Exact(rx, trace, Pad3(id), Flatten(pieces)))
            <==> |pieces| <= 999 && (Pad3(id) in rx.streams ==> Harmless(rx.streams[Pad3(id)], pieces))
  {
    var key := Pad3(id);
    StripNulFree(pieces);
    if |pieces| > 1000 {
      SubsequenceRefl(StreamFrames(id, pieces));
      LongDelivers(rx, id, pieces);
    } else if |pieces| == 1000 {
      WithoutFirstIsLossy(id, pieces);
      FirstUnnoticed(rx, id, pieces);
    } else if key in rx.streams {
      StaleEntryExactly(rx, id, pieces);
    } else {
      forall trace | Subsequence(trace, StreamFrames(id, pieces))
        ensures Exact(rx, trace, key, Flatten(pieces))
      {
        LossyIsOurs(trace, id, pieces);
        SafeInAnyOrder(rx, trace, key, pieces);
      }
    }
  }

  /** For a console without an entry of the id: if and only if the stream has at most 999 pieces. */
  lemma BoundExactly(rx: Rx, id: nat, pieces: seq<string>)
    requires 0 < id < 1000 && NulFree(Flatten(pieces)) && "" !in pieces && Pad3(id) !in rx.streams
    ensures (forall trace :: Subsequence(trace, StreamFrames(id, pieces)) ==>
               Exact(rx, trace, Pad3(id), Flatten(pieces)))
            <==> |pieces| <= 999
  {
    SafeExactly(rx, id, pieces);
  }
}

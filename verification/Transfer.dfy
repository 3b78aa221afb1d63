/** Streams from the sender's frames to the console's texts: loss, reordering and the limit of the
    three-digit counter. */
module Transfer {
  import opened Text
  import opened Frames
  import opened Console

  // ----- any frames of one stream, in any order

  /** Chunk frames of one stream: each carries the piece its number names. Order, omissions and
      repetitions are free. */
  ghost predicate FromPieces(mids: seq<Frame>, id: string, pieces: seq<string>) {
    forall f :: f in mids ==>
      f.Chunk? && f.id == id && f.seqNo < |pieces| && f.payload == pieces[f.seqNo]
  }

  ghost predicate Arrived(mids: seq<Frame>, id: string, pieces: seq<string>, k: nat)
    requires k < |pieces|
  {
    Chunk(id, k, pieces[k]) in mids
  }

  ghost predicate AllArrived(mids: seq<Frame>, id: string, pieces: seq<string>) {
    forall k :: 0 <= k < |pieces| ==> Arrived(mids, id, pieces, k)
  }

  function Shape(start: bool, mids: seq<Frame>, end: bool, id: string, expected: nat): seq<Frame> {
    (if start then [Start(id)] else []) + mids + (if end then [End(id, expected)] else [])
  }

  /** Every collected chunk is the piece its index names. */
  ghost predicate Fits(chunks: Chunks, pieces: seq<string>) {
    forall k :: k in chunks ==> k < |pieces| && chunks[k] == pieces[k]
  }

  lemma {:induction false} Collect(slot: Slot, mids: seq<Frame>, id: string, pieces: seq<string>)
    requires FromPieces(mids, id, pieces)
    requires slot.chunks.Some? ==> Fits(slot.chunks.value, pieces)
    ensures var r := Steps(slot, mids);
      && r.texts == slot.texts
      && (r.chunks.Some? <==> slot.chunks.Some? || mids != [])
      && (r.chunks.Some? ==>
            && Fits(r.chunks.value, pieces)
            && forall k: nat :: k < |pieces| ==>
                 (k in r.chunks.value <==>
                    (slot.chunks.Some? && k in slot.chunks.value) || Chunk(id, k, pieces[k]) in mids))
    decreases mids
  {
    if mids != [] {
      assert mids[0] in mids;
      var next := Step(slot, mids[0]);
      assert forall f :: f in mids[1..] ==> f in mids;
      Collect(next, mids[1..], id, pieces);
      assert forall f :: f in mids <==> f == mids[0] || f in mids[1..];
    }
  }

  lemma {:induction false} JoinLength(chunks: Chunks, pieces: seq<string>, i: nat)
    requires Fits(chunks, pieces) && i <= |pieces| <= 1000
    ensures |JoinFrom(chunks, i)| <= |Flatten(pieces[i..])|
    ensures (forall k :: i <= k < |pieces| ==> k in chunks) ==> JoinFrom(chunks, i) == Flatten(pieces[i..])
    ensures (exists k :: i <= k < |pieces| && k !in chunks && pieces[k] != "") ==>
              |JoinFrom(chunks, i)| < |Flatten(pieces[i..])|
    decreases |pieces| - i
  {
    if i < |pieces| {
      JoinLength(chunks, pieces, i + 1);
      assert pieces[i..][1..] == pieces[i + 1..];
    } else {
      JoinBeyond(chunks, i);
    }
  }

  lemma {:induction false} JoinBeyond(chunks: Chunks, i: nat)
    requires forall k :: k in chunks ==> k < i
    ensures JoinFrom(chunks, i) == ""
    decreases 1000 - i
  {
    if i < 1000 {
      JoinBeyond(chunks, i + 1);
    }
  }

  /** The entry a stream has after its chunk frames, before any end frame. */
  function Entry(chunks: Option<Chunks>, start: bool, mids: seq<Frame>, id: string): Slot {
    Steps(Slot(if start then Some(map[]) else chunks, []), mids)
  }

  lemma ShapeSteps(chunks: Option<Chunks>, start: bool, mids: seq<Frame>, end: bool, id: string, expected: nat)
    ensures Steps(Slot(chunks, []), Shape(start, mids, end, id, expected)) ==
      if end then Step(Entry(chunks, start, mids, id), End(id, expected)) else Entry(chunks, start, mids, id)
  {
    var slot := Slot(chunks, []);
    var opening := if start then [Start(id)] else [];
    var closing := if end then [End(id, expected)] else [];
    StepsAppend(slot, opening + mids, closing);
    StepsAppend(slot, opening, mids);
    if start {
      StepsOne(slot, Start(id));
    }
    if end {
      StepsOne(Entry(chunks, start, mids, id), End(id, expected));
    }
  }

  lemma StepsOne(slot: Slot, f: Frame)
    ensures Steps(slot, [f]) == Step(slot, f)
  {
    assert Steps(slot, [f]) == Steps(Step(slot, [f][0]), [f][1..]);
  }

  lemma Deliver(entry: Slot, mids: seq<Frame>, id: string, pieces: seq<string>, expected: nat)
    requires |pieces| <= 1000 && expected <= |pieces|
    requires entry.texts == [] && entry.chunks.Some? && Fits(entry.chunks.value, pieces)
    requires forall k: nat :: k < |pieces| ==> (k in entry.chunks.value <==> Chunk(id, k, pieces[k]) in mids)
    ensures var texts := Step(entry, End(id, expected)).texts;
      if forall k :: 0 <= k < expected ==> Arrived(mids, id, pieces, k) then
        && |texts| == 1
        && (AllArrived(mids, id, pieces) ==> texts[0] == Flatten(pieces))
        && (!AllArrived(mids, id, pieces) && "" !in pieces ==> |texts[0]| < |Flatten(pieces)|)
      else
        texts == []
  {
    var m := entry.chunks.value;
    JoinLength(m, pieces, 0);
    assert pieces[0..] == pieces;
    assert Complete(m, expected) <==> forall k :: 0 <= k < expected ==> Arrived(mids, id, pieces, k) by {
      assert forall k :: 0 <= k < expected ==> (k in m <==> Arrived(mids, id, pieces, k));
    }
    if !AllArrived(mids, id, pieces) {
      var k :| 0 <= k < |pieces| && !Arrived(mids, id, pieces, k);
      assert k !in m;
      assert pieces[k] in pieces;
    } else {
      forall k | 0 <= k < |pieces|
        ensures k in m
      {
        assert Arrived(mids, id, pieces, k);
      }
    }
  }

  /** The general law of reassembly. The console had no entry for the id, or sees the start frame;
      then whatever chunk frames arrive, in whatever order, it delivers when the end frame comes and
      none of the announced chunks is missing, and it delivers the pieces it has in index order. */
  lemma Reassemble(chunks: Option<Chunks>, start: bool, mids: seq<Frame>, end: bool,
                   id: string, pieces: seq<string>, expected: nat)
    requires FromPieces(mids, id, pieces) && |pieces| <= 1000 && expected <= |pieces|
    requires start || chunks.None?
    ensures var r := Steps(Slot(chunks, []), Shape(start, mids, end, id, expected));
      if end && (start || mids != []) && (forall k :: 0 <= k < expected ==> Arrived(mids, id, pieces, k)) then
        && |r.texts| == 1
        && (AllArrived(mids, id, pieces) ==> r.texts[0] == Flatten(pieces))
        && (!AllArrived(mids, id, pieces) && "" !in pieces ==> |r.texts[0]| < |Flatten(pieces)|)
      else
        r.texts == []
  {
    ShapeSteps(chunks, start, mids, end, id, expected);
    Collect(Slot(if start then Some(map[]) else chunks, []), mids, id, pieces);
    if end && (start || mids != []) {
      Deliver(Entry(chunks, start, mids, id), mids, id, pieces, expected);
    }
  }

  lemma ReassembleAll(chunks: Option<Chunks>, start: bool, mids: seq<Frame>, end: bool,
                      id: string, pieces: seq<string>)
    requires FromPieces(mids, id, pieces) && |pieces| <= 1000
    requires start || chunks.None?
    ensures Steps(Slot(chunks, []), Shape(start, mids, end, id, |pieces|)).texts ==
      if end && (start || mids != []) && AllArrived(mids, id, pieces) then [Flatten(pieces)] else []
  {
    Reassemble(chunks, start, mids, end, id, pieces, |pieces|);
    var texts := Steps(Slot(chunks, []), Shape(start, mids, end, id, |pieces|)).texts;
    if |texts| == 1 && texts[0] == Flatten(pieces) {
      assert texts == [Flatten(pieces)];
    }
  }

  // ----- what the sender printed

  /** The chunk frames of the pieces from counter c on, as the console reads them. */
  function ReadChunks(id: string, c: Counter, pieces: seq<string>): seq<Frame>
    decreases pieces
  {
    if pieces == [] then []
    else [Chunk(id, SeqNo(c), StripTrailingNuls(pieces[0]))] + ReadChunks(id, Next(c), pieces[1..])
  }

  /** The number of chunks the end frame announces. */
  function Total(pieces: seq<string>): (n: nat)
    ensures n < 1000
  {
    SeqNo(After(0, |pieces|))
  }

  lemma ShortTotal(pieces: seq<string>)
    requires |pieces| <= 1000
    ensures Total(pieces) == if |pieces| == 1000 then 0 else |pieces|
  {
    AfterSmall(0, |pieces|);
  }

  lemma OwnOne(raw: string, id: string)
    ensures Own([raw], id) == if !Read(raw).Plain? && Read(raw).id == id then [Read(raw)] else []
  {
    assert [raw][1..] == [];
  }

  lemma {:induction false} OwnAppend(a: seq<string>, b: seq<string>, id: string)
    ensures Own(a + b, id) == Own(a, id) + Own(b, id)
  {
    if a == [] {
      assert a + b == b;
    } else {
      assert (a + b)[0] == a[0] && (a + b)[1..] == a[1..] + b;
      OwnAppend(a[1..], b, id);
      OwnHead(a, id);
      OwnHead(a + b, id);
      Assoc(Own([a[0]], id), Own(a[1..], id), Own(b, id));
    }
  }

  lemma ChunkFramesHead(id: nat, c: Counter, pieces: seq<string>)
    requires id < 1000 && pieces != []
    ensures Own([ChunkFrames(id, c, pieces)[0]], Pad3(id)) ==
            [Chunk(Pad3(id), SeqNo(c), StripTrailingNuls(pieces[0]))]
  {
    ReadChunk(id, SeqNo(c), pieces[0]);
    OwnOne(ChunkFrame(id, SeqNo(c), pieces[0]), Pad3(id));
  }

  lemma {:induction false} OwnChunks(id: nat, c: Counter, pieces: seq<string>)
    requires id < 1000
    ensures Own(ChunkFrames(id, c, pieces), Pad3(id)) == ReadChunks(Pad3(id), c, pieces)
    decreases pieces
  {
    if pieces != [] {
      ChunkFramesHead(id, c, pieces);
      OwnChunks(id, Next(c), pieces[1..]);
      OwnHead(ChunkFrames(id, c, pieces), Pad3(id));
    }
  }

  /** Every frame a sender prints for a stream is read back as that stream's frame. */
  lemma OwnStream(id: nat, pieces: seq<string>)
    requires id < 1000
    ensures Own(StreamFrames(id, pieces), Pad3(id)) ==
            Shape(true, ReadChunks(Pad3(id), 0, pieces), true, Pad3(id), Total(pieces))
  {
    var key := Pad3(id);
    var s, c, e := [StartFrame(id)], ChunkFrames(id, 0, pieces), [EndFrame(id, Total(pieces))];
    OwnAppend(s + c, e, key);
    OwnAppend(s, c, key);
    OwnChunks(id, 0, pieces);
    ReadStart(id);
    ReadEnd(id, Total(pieces));
    OwnOne(s[0], key);
    OwnOne(e[0], key);
  }

  lemma OwnShortStream(id: nat, pieces: seq<string>)
    requires id < 1000 && |pieces| < 1000
    ensures Own(StreamFrames(id, pieces), Pad3(id)) ==
            Shape(true, ReadChunks(Pad3(id), 0, pieces), true, Pad3(id), |pieces|)
  {
    ShortTotal(pieces);
    OwnStream(id, pieces);
  }

  lemma {:induction false} ReadChunksFit(id: string, c: Counter, pieces: seq<string>)
    requires c + |pieces| <= 1000
    ensures |ReadChunks(id, c, pieces)| == |pieces|
    ensures forall i :: 0 <= i < |pieces| ==>
              ReadChunks(id, c, pieces)[i] == Chunk(id, c + i, StripTrailingNuls(pieces[i]))
    decreases pieces
  {
    if pieces != [] {
      ReadChunksFit(id, Next(c), pieces[1..]);
    }
  }

  // ----- loss

  lemma {:induction false} SubsequenceOwn(a: seq<string>, b: seq<string>, id: string)
    requires Subsequence(a, b)
    ensures Subsequence(Own(a, id), Own(b, id))
    decreases b
  {
    if a != [] && b != [] {
      var head := Own([b[0]], id);
      OwnHead(b, id);
      OwnHead(a, id);
      if a[0] == b[0] && Subsequence(a[1..], b[1..]) {
        SubsequenceOwn(a[1..], b[1..], id);
        SubsequenceRefl(head);
        SubsequenceAppend(head, head, Own(a[1..], id), Own(b[1..], id));
      } else {
        SubsequenceOwn(a, b[1..], id);
        SubsequenceAppend([], head, Own(a, id), Own(b[1..], id));
        assert [] + Own(a, id) == Own(a, id);
      }
    }
  }

  lemma {:induction false} SplitSubsequence<T>(a: seq<T>, b: seq<T>, c: seq<T>) returns (x: seq<T>, y: seq<T>)
    requires Subsequence(a, b + c)
    ensures a == x + y && Subsequence(x, b) && Subsequence(y, c)
    decreases b
  {
    if b == [] {
      assert b + c == c;
      x, y := [], a;
    } else {
      assert (b + c)[1..] == b[1..] + c;
      if a == [] {
        x, y := [], [];
      } else if a[0] == b[0] && Subsequence(a[1..], b[1..] + c) {
        x, y := SplitSubsequence(a[1..], b[1..], c);
        x := [a[0]] + x;
      } else {
        x, y := SplitSubsequence(a, b[1..], c);
      }
    }
  }

  lemma SubsequenceOfOne<T>(a: seq<T>, t: T)
    requires Subsequence(a, [t])
    ensures a == [] || a == [t]
  {
    if a != [] && Subsequence(a[1..], [t][1..]) {
      assert a[1..] == [];
    }
  }

  /** What is left of a stream's own frames after loss. */
  lemma Leftover(got: seq<Frame>, key: string, pieces: seq<string>, total: nat)
      returns (start: bool, mids: seq<Frame>, end: bool)
    requires |pieces| <= 1000 && (forall i :: 0 <= i < |pieces| ==> StripTrailingNuls(pieces[i]) == pieces[i])
    requires Subsequence(got, Shape(true, ReadChunks(key, 0, pieces), true, key, total))
    ensures got == Shape(start, mids, end, key, total)
    ensures FromPieces(mids, key, pieces)
  {
    var chunks, last := ReadChunks(key, 0, pieces), End(key, total);
    var x, z := SplitSubsequence(got, [Start(key)] + chunks, [last]);
    var s, m := SplitSubsequence(x, [Start(key)], chunks);
    SubsequenceOfOne(s, Start(key));
    SubsequenceOfOne(z, last);
    start, mids, end := s != [], m, z != [];
    ReadChunksFit(key, 0, pieces);
    forall f | f in mids
      ensures f.Chunk? && f.id == key && f.seqNo < |pieces| && f.payload == pieces[f.seqNo]
    {
      SubsequenceMember(mids, chunks, f);
      var i :| 0 <= i < |pieces| && f == chunks[i];
    }
  }

  /** The stream came through: its end, all of its chunks, and for an empty payload its start. */
  ghost predicate CameThrough(got: seq<Frame>, key: string, pieces: seq<string>) {
    && End(key, |pieces|) in got
    && (forall k :: 0 <= k < |pieces| ==> Chunk(key, k, pieces[k]) in got)
    && (pieces == [] ==> Start(key) in got)
  }

  lemma LossyStream(chunks: Option<Chunks>, got: seq<Frame>, key: string, pieces: seq<string>)
    requires chunks.None? || Start(key) in got
    requires |pieces| <= 999 && NulFree(Flatten(pieces))
    requires Subsequence(got, Shape(true, ReadChunks(key, 0, pieces), true, key, |pieces|))
    ensures Steps(Slot(chunks, []), got).texts ==
            if CameThrough(got, key, pieces) then [Flatten(pieces)] else []
  {
    StripNulFree(pieces);
    var start, mids, end := Leftover(got, key, pieces, |pieces|);
    LossyShape(chunks, start, mids, end, key, pieces);
  }

  lemma LossyShape(chunks: Option<Chunks>, start: bool, mids: seq<Frame>, end: bool,
                   key: string, pieces: seq<string>)
    requires |pieces| <= 1000 && FromPieces(mids, key, pieces)
    requires chunks.None? || Start(key) in Shape(start, mids, end, key, |pieces|)
    ensures var got := Shape(start, mids, end, key, |pieces|);
      Steps(Slot(chunks, []), got).texts == if CameThrough(got, key, pieces) then [Flatten(pieces)] else []
  {
    CameThroughShape(start, mids, end, key, pieces);
    ReassembleAll(chunks, start, mids, end, key, pieces);
  }

  /** Safety under loss: of a stream of at most 999 NUL-free pieces the console, if it holds no entry
      for the id or the start frame came through, delivers exactly the payload once or nothing at all,
      and it delivers exactly when the end frame and every chunk frame came through (and, for an empty
      payload, the start frame). Frames of other streams and messages may come in between. */
  lemma ExactlyOrNothing(rx: Rx, trace: seq<string>, sent: seq<string>, id: nat, pieces: seq<string>)
    requires 0 < id < 1000 && |pieces| <= 999 && NulFree(Flatten(pieces))
    requires Subsequence(trace, sent)
    requires Subsequence(Own(sent, Pad3(id)), Own(StreamFrames(id, pieces), Pad3(id)))
    requires Pad3(id) !in rx.streams || Start(Pad3(id)) in Own(trace, Pad3(id))
    ensures TextsOf(ReceiveAll(rx, trace).out, Pad3(id)) ==
            TextsOf(rx.out, Pad3(id)) +
            if CameThrough(Own(trace, Pad3(id)), Pad3(id), pieces) then [Flatten(pieces)] else []
  {
    var key := Pad3(id);
    SubsequenceOwn(trace, sent, key);
    SubsequenceTrans(Own(trace, key), Own(sent, key), Own(StreamFrames(id, pieces), key));
    TextsAdded(rx, trace, key);
    OwnShortStream(id, pieces);
    LossyStream(Lookup(rx.streams, key), Own(trace, key), key, pieces);
  }

  lemma CameThroughShape(start: bool, mids: seq<Frame>, end: bool, key: string, pieces: seq<string>)
    requires FromPieces(mids, key, pieces)
    ensures Start(key) in Shape(start, mids, end, key, |pieces|) <==> start
    ensures CameThrough(Shape(start, mids, end, key, |pieces|), key, pieces) <==>
            end && (start || mids != []) && AllArrived(mids, key, pieces)
  {
    var got := Shape(start, mids, end, key, |pieces|);
    assert forall f :: f in got <==> (start && f == Start(key)) || f in mids || (end && f == End(key, |pieces|));
    assert forall k :: 0 <= k < |pieces| ==> (Arrived(mids, key, pieces, k) <==> Chunk(key, k, pieces[k]) in got);
    assert mids == [] || mids[0] in mids;
    if pieces != [] && AllArrived(mids, key, pieces) {
      assert Arrived(mids, key, pieces, 0);
    }
  }

  lemma {:induction false} StepsTexts(slot: Slot, fs: seq<Frame>)
    ensures Steps(slot, fs).texts == slot.texts + Steps(slot.(texts := []), fs).texts
    ensures Steps(slot, fs).chunks == Steps(slot.(texts := []), fs).chunks
    decreases fs
  {
    if fs != [] {
      var a, b := Step(slot, fs[0]), Step(slot.(texts := []), fs[0]);
      StepTexts(slot, fs[0]);
      StepsTexts(a, fs[1..]);
      StepsTexts(b, fs[1..]);
      var c := Steps(a.(texts := []), fs[1..]);
      assert a.(texts := []) == b.(texts := []);
      Assoc(slot.texts, b.texts, c.texts);
    }
  }

  lemma {:induction false} StripNulFree(pieces: seq<string>)
    requires NulFree(Flatten(pieces))
    ensures forall i :: 0 <= i < |pieces| ==> StripTrailingNuls(pieces[i]) == pieces[i]
  {
    if pieces != [] {
      assert forall c :: c in pieces[0] || c in Flatten(pieces[1..]) ==> c in Flatten(pieces);
      StripNulFree(pieces[1..]);
      if pieces[0] != "" {
        assert pieces[0][|pieces[0]| - 1] in pieces[0];
      }
      StripKeeps(pieces[0]);
      assert forall i :: 0 < i < |pieces| ==> pieces[i] == pieces[1..][i - 1];
    }
  }

  lemma {:induction false} SubsequenceTrans<T>(a: seq<T>, b: seq<T>, c: seq<T>)
    requires Subsequence(a, b) && Subsequence(b, c)
    ensures Subsequence(a, c)
    decreases |b| + |c|
  {
    if a != [] {
      if b[0] == c[0] && Subsequence(b[1..], c[1..]) {
        if a[0] == b[0] && Subsequence(a[1..], b[1..]) {
          SubsequenceTrans(a[1..], b[1..], c[1..]);
        } else {
          SubsequenceTrans(a, b[1..], c[1..]);
        }
      } else {
        SubsequenceTrans(a, b, c[1..]);
      }
    }
  }

  // ----- order

  /** What a trace adds to the texts of one id depends on the entry and on the id's own frames only. */
  lemma TextsAdded(rx: Rx, trace: seq<string>, key: string)
    ensures TextsOf(ReceiveAll(rx, trace).out, key) ==
            TextsOf(rx.out, key) + Steps(Slot(Lookup(rx.streams, key), []), Own(trace, key)).texts
  {
    StreamsAreIndependent(rx, trace, key);
    StepsTexts(SlotOf(rx, key), Own(trace, key));
  }

  /** A permutation of a stream's chunk frames carries its pieces, and all of them. */
  lemma Shuffled(mids: seq<Frame>, key: string, pieces: seq<string>)
    requires |pieces| <= 1000
    requires forall i :: 0 <= i < |pieces| ==> StripTrailingNuls(pieces[i]) == pieces[i]
    requires multiset(mids) == multiset(ReadChunks(key, 0, pieces))
    ensures FromPieces(mids, key, pieces) && AllArrived(mids, key, pieces)
  {
    var frames := ReadChunks(key, 0, pieces);
    ReadChunksFit(key, 0, pieces);
    forall f | f in mids
      ensures f.Chunk? && f.id == key && f.seqNo < |pieces| && f.payload == pieces[f.seqNo]
    {
      assert f in multiset(mids);
      var j :| 0 <= j < |frames| && frames[j] == f;
    }
    forall k | 0 <= k < |pieces|
      ensures Arrived(mids, key, pieces, k)
    {
      assert frames[k] in multiset(frames);
    }
  }

  /** Between the start and the end frame the chunk frames of at most 1000 pieces may arrive in any
      order, mixed with other streams' frames and with messages. */
  lemma AnyOrder(rx: Rx, trace: seq<string>, id: nat, pieces: seq<string>, mids: seq<Frame>)
    requires 0 < id < 1000 && |pieces| <= 1000 && NulFree(Flatten(pieces))
    requires Own(trace, Pad3(id)) == Shape(true, mids, true, Pad3(id), Total(pieces))
    requires multiset(mids) == multiset(ReadChunks(Pad3(id), 0, pieces))
    ensures TextsOf(ReceiveAll(rx, trace).out, Pad3(id)) == TextsOf(rx.out, Pad3(id)) + [Flatten(pieces)]
  {
    var key := Pad3(id);
    StripNulFree(pieces);
    Shuffled(mids, key, pieces);
    TextsAdded(rx, trace, key);
    Whole(Lookup(rx.streams, key), key, pieces, mids);
  }

  lemma Whole(chunks: Option<Chunks>, key: string, pieces: seq<string>, mids: seq<Frame>)
    requires |pieces| <= 1000 && FromPieces(mids, key, pieces) && AllArrived(mids, key, pieces)
    ensures Steps(Slot(chunks, []), Shape(true, mids, true, key, Total(pieces))).texts == [Flatten(pieces)]
  {
    ShortTotal(pieces);
    Reassemble(chunks, true, mids, true, key, pieces, Total(pieces));
    OneText(Steps(Slot(chunks, []), Shape(true, mids, true, key, Total(pieces))).texts, Flatten(pieces));
  }

  lemma OneText(texts: seq<string>, text: string)
    requires |texts| == 1 && texts[0] == text
    ensures texts == [text]
  {
  }

  // ----- the limit of the three-digit counter

  lemma {:induction false} JoinUpdate(chunks: Chunks, n: nat, text: string, i: nat)
    requires n < 1000
    ensures |JoinFrom(chunks[n := text], i)| ==
            |JoinFrom(chunks, i)| + if i <= n then |text| - (if n in chunks then |chunks[n]| else 0) else 0
    decreases 1000 - i
  {
    if i < 1000 {
      JoinUpdate(chunks, n, text, i + 1);
    }
  }

  /** Chunks received in order from counter c on: the collected text never grows beyond what was sent,
      and it falls short once the printed number has wrapped onto a chunk that is already there. */
  lemma {:induction false} InOrder(chunks: Chunks, texts: seq<string>, id: string, c: Counter, pieces: seq<string>)
    requires forall i :: 0 <= i < |pieces| ==> pieces[i] != "" && StripTrailingNuls(pieces[i]) == pieces[i]
    requires c > 0 ==> 0 in chunks && chunks[0] != ""
    ensures var r := Steps(Slot(Some(chunks), texts), ReadChunks(id, c, pieces));
      && r.texts == texts && r.chunks.Some?
      && var joined := |JoinFrom(r.chunks.value, 0)|;
         && joined <= |JoinFrom(chunks, 0)| + |Flatten(pieces)|
         && (c <= 1000 < c + |pieces| ==> joined < |JoinFrom(chunks, 0)| + |Flatten(pieces)|)
    decreases pieces
  {
    if pieces != [] {
      ReadChunksStep(chunks, texts, id, c, pieces);
      var next := chunks[SeqNo(c) := pieces[0]];
      JoinUpdate(chunks, SeqNo(c), pieces[0], 0);
      assert c == 1000 ==> |JoinFrom(next, 0)| < |JoinFrom(chunks, 0)| + |pieces[0]|;
      InOrder(next, texts, id, Next(c), pieces[1..]);
    }
  }

  lemma ReadChunksStep(chunks: Chunks, texts: seq<string>, id: string, c: Counter, pieces: seq<string>)
    requires pieces != [] && StripTrailingNuls(pieces[0]) == pieces[0]
    ensures Steps(Slot(Some(chunks), texts), ReadChunks(id, c, pieces)) ==
            Steps(Slot(Some(chunks[SeqNo(c) := pieces[0]]), texts), ReadChunks(id, Next(c), pieces[1..]))
  {
    var slot, fs := Slot(Some(chunks), texts), ReadChunks(id, c, pieces);
    assert fs[0] == Chunk(id, SeqNo(c), pieces[0]);
    assert fs[1..] == ReadChunks(id, Next(c), pieces[1..]);
    assert Steps(slot, fs) == Steps(Step(slot, fs[0]), fs[1..]);
  }

  lemma TooLong(chunks: Option<Chunks>, key: string, pieces: seq<string>)
    requires |pieces| > 1000
    requires forall i :: 0 <= i < |pieces| ==> pieces[i] != "" && StripTrailingNuls(pieces[i]) == pieces[i]
    ensures Steps(Slot(chunks, []), Shape(true, ReadChunks(key, 0, pieces), true, key, Total(pieces))).texts
            != [Flatten(pieces)]
  {
    ShapeSteps(chunks, true, ReadChunks(key, 0, pieces), true, key, Total(pieces));
    InOrder(map[], [], key, 0, pieces);
    JoinBeyond(map[], 0);
    var entry := Entry(chunks, true, ReadChunks(key, 0, pieces), key);
    var texts := Step(entry, End(key, Total(pieces))).texts;
    assert texts != [] ==> texts[0] == JoinFrom(entry.chunks.value, 0);
    assert [Flatten(pieces)][0] == Flatten(pieces);
  }

  lemma InTime(chunks: Option<Chunks>, key: string, pieces: seq<string>)
    requires |pieces| <= 1000
    requires forall i :: 0 <= i < |pieces| ==> StripTrailingNuls(pieces[i]) == pieces[i]
    ensures Steps(Slot(chunks, []), Shape(true, ReadChunks(key, 0, pieces), true, key, Total(pieces))).texts
            == [Flatten(pieces)]
  {
    var mids := ReadChunks(key, 0, pieces);
    ReadChunksFit(key, 0, pieces);
    forall k | 0 <= k < |pieces|
      ensures Arrived(mids, key, pieces, k)
    {
      assert mids[k] == Chunk(key, k, pieces[k]);
    }
    Whole(chunks, key, pieces, mids);
  }

  lemma Cancel<T>(a: seq<T>, b: seq<T>, c: seq<T>)
    ensures a + b == a + c <==> b == c
  {
    assert (a + b)[|a|..] == b && (a + c)[|a|..] == c;
  }

  /** Without any loss a stream is rebuilt exactly if it has at most 1000 pieces. */
  lemma ThousandPieces(rx: Rx, id: nat, pieces: seq<string>)
    requires 0 < id < 1000 && NulFree(Flatten(pieces)) && "" !in pieces
    ensures TextsOf(ReceiveAll(rx, StreamFrames(id, pieces)).out, Pad3(id)) ==
            TextsOf(rx.out, Pad3(id)) + [Flatten(pieces)]
            <==> |pieces| <= 1000
  {
    var key := Pad3(id);
    StripNulFree(pieces);
    TextsAdded(rx, StreamFrames(id, pieces), key);
    OwnStream(id, pieces);
    Cancel(TextsOf(rx.out, key), Steps(Slot(Lookup(rx.streams, key), []), Own(StreamFrames(id, pieces), key)).texts,
           [Flatten(pieces)]);
    if |pieces| <= 1000 {
      InTime(Lookup(rx.streams, key), key, pieces);
    } else {
      TooLong(Lookup(rx.streams, key), key, pieces);
    }
  }

  /** With exactly 1000 pieces the end frame announces none, so the loss of any chunk goes unnoticed
      and a shorter text is delivered. */
  lemma BlindAtThousand(key: string, pieces: seq<string>, start: bool, mids: seq<Frame>)
    requires |pieces| == 1000 && "" !in pieces
    requires FromPieces(mids, key, pieces) && (start || mids != [])
    ensures var texts := Steps(Slot(None, []), Shape(start, mids, true, key, 0)).texts;
      && |texts| == 1
      && (texts[0] == Flatten(pieces) <==> AllArrived(mids, key, pieces))
  {
    Reassemble(None, start, mids, true, key, pieces, 0);
  }
}

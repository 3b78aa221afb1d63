/** Entries the console still holds when a stream begins, and frames in any order: when a text that was
    never sent can come out. */
module StaleEntries {
  import opened Text
  import opened Frames
  import opened Console
  import opened Transfer

  /** What the entry holds is what the stream would put there, or nothing visible. */
  ghost predicate Harmless(m: Chunks, pieces: seq<string>) {
    forall k :: k in m && k < 1000 ==> m[k] == if k < |pieces| then pieces[k] else ""
  }

  /** A frame of the stream: its start, its end, or one of its chunks. */
  predicate Ours(f: Frame, key: string, pieces: seq<string>) {
    || f == Start(key)
    || f == End(key, |pieces|)
    || (f.Chunk? && f.id == key && f.seqNo < |pieces| && f.payload == pieces[f.seqNo])
  }

  function Copies(text: string, n: nat): (texts: seq<string>)
    ensures |texts| == n
  {
    seq(n, _ => text)
  }

  lemma {:induction false} JoinHarmless(m: Chunks, pieces: seq<string>, i: nat)
    requires Harmless(m, pieces) && Complete(m, |pieces|) && |pieces| <= 1000 && i <= 1000
    ensures JoinFrom(m, i) == if i <= |pieces| then Flatten(pieces[i..]) else ""
    decreases 1000 - i
  {
    if i < 1000 {
      JoinHarmless(m, pieces, i + 1);
      if i < |pieces| {
        assert pieces[i..][1..] == pieces[i + 1..];
      }
    }
  }

  lemma StepHarmless(slot: Slot, f: Frame, key: string, pieces: seq<string>)
    requires |pieces| <= 999 && Ours(f, key, pieces)
    requires slot.chunks.Some? ==> Harmless(slot.chunks.value, pieces)
    ensures var r := Step(slot, f);
      && (r.chunks.Some? ==> Harmless(r.chunks.value, pieces))
      && (r.texts == slot.texts || (f.End? && r.texts == slot.texts + [Flatten(pieces)]))
  {
    if f.End? && slot.chunks.Some? && Complete(slot.chunks.value, |pieces|) {
      JoinHarmless(slot.chunks.value, pieces, 0);
      assert pieces[0..] == pieces;
    }
  }

  /** Safety in any order: frames of one stream, reordered, lost and repeated at will, add nothing but
      copies of the payload to an absent or harmless entry's texts, at most one for each end frame. */
  lemma {:induction false} OnlyCopies(slot: Slot, got: seq<Frame>, key: string, pieces: seq<string>)
      returns (n: nat)
    requires |pieces| <= 999 && (forall f :: f in got ==> Ours(f, key, pieces))
    requires slot.chunks.Some? ==> Harmless(slot.chunks.value, pieces)
    ensures Steps(slot, got).texts == slot.texts + Copies(Flatten(pieces), n)
    ensures n <= multiset(got)[End(key, |pieces|)]
    decreases got
  {
    var text := Flatten(pieces);
    if got == [] {
      n := 0;
    } else {
      assert got[0] in got && forall f :: f in got[1..] ==> f in got;
      StepHarmless(slot, got[0], key, pieces);
      var next := Step(slot, got[0]);
      n := OnlyCopies(next, got[1..], key, pieces);
      assert got == [got[0]] + got[1..];
      if next.texts != slot.texts {
        assert Copies(text, n + 1) == [text] + Copies(text, n);
        Assoc(slot.texts, [text], Copies(text, n));
        n := n + 1;
      }
    }
  }

  /** The trace adds nothing to the texts of the id, or the payload once. */
  ghost predicate Exact(rx: Rx, trace: seq<string>, key: string, payload: string) {
    var before, after := TextsOf(rx.out, key), TextsOf(ReceiveAll(rx, trace).out, key);
    after == before || after == before + [payload]
  }

  lemma ExactBySteps(rx: Rx, trace: seq<string>, key: string, payload: string)
    ensures var added := Steps(Slot(Lookup(rx.streams, key), []), Own(trace, key)).texts;
      Exact(rx, trace, key, payload) <==> added == [] || added == [payload]
  {
    var added := Steps(Slot(Lookup(rx.streams, key), []), Own(trace, key)).texts;
    TextsAdded(rx, trace, key);
    Cancel(TextsOf(rx.out, key), added, []);
    Cancel(TextsOf(rx.out, key), added, [payload]);
    assert TextsOf(rx.out, key) + [] == TextsOf(rx.out, key);
  }

  /** The stream's own frames at the console, none twice: safe for an absent or harmless entry, whatever
      their order. */
  lemma SafeInAnyOrder(rx: Rx, trace: seq<string>, key: string, pieces: seq<string>)
    requires |pieces| <= 999 && (forall f :: f in Own(trace, key) ==> Ours(f, key, pieces))
    requires multiset(Own(trace, key))[End(key, |pieces|)] <= 1
    requires key in rx.streams ==> Harmless(rx.streams[key], pieces)
    ensures Exact(rx, trace, key, Flatten(pieces))
    ensures End(key, |pieces|) !in Own(trace, key) ==>
              TextsOf(ReceiveAll(rx, trace).out, key) == TextsOf(rx.out, key)
  {
    var got, text := Own(trace, key), Flatten(pieces);
    var n := OnlyCopies(Slot(Lookup(rx.streams, key), []), got, key, pieces);
    assert Copies(text, n) == if n == 0 then [] else [text];
    ExactBySteps(rx, trace, key, text);
    TextsAdded(rx, trace, key);
  }

  // ----- a stream's own frames

  lemma {:induction false} OwnEach(raws: seq<string>, fs: seq<Frame>, key: string)
    requires |raws| == |fs|
    requires forall i :: 0 <= i < |raws| ==> Read(raws[i]) == fs[i] && !fs[i].Plain? && fs[i].id == key
    ensures Own(raws, key) == fs
    decreases raws
  {
    if raws != [] {
      OwnHead(raws, key);
      OwnOne(raws[0], key);
      OwnEach(raws[1..], fs[1..], key);
    }
  }

  /** The frames of a stream as the console reads them. */
  function OwnFrames(key: string, pieces: seq<string>): seq<Frame> {
    [Start(key)] + ReadChunks(key, 0, pieces) + [End(key, |pieces|)]
  }

  lemma OwnFramesOurs(key: string, pieces: seq<string>)
    requires |pieces| <= 999 && (forall i :: 0 <= i < |pieces| ==> StripTrailingNuls(pieces[i]) == pieces[i])
    ensures forall f :: f in OwnFrames(key, pieces) ==> Ours(f, key, pieces)
    ensures multiset(OwnFrames(key, pieces))[End(key, |pieces|)] == 1
    ensures End(key, |pieces|) !in [Start(key)] + ReadChunks(key, 0, pieces)
  {
    var fs, end := ReadChunks(key, 0, pieces), End(key, |pieces|);
    ReadChunksFit(key, 0, pieces);
    assert forall f :: f in fs ==> Ours(f, key, pieces) && f.Chunk?;
    var front := [Start(key)] + fs;
    assert end !in front;
    assert multiset(front)[end] == 0;
    assert multiset(front + [end]) == multiset(front) + multiset{end};
  }

  lemma ShortFrameAt(id: nat, pieces: seq<string>, k: nat)
    requires id < 1000 && k < |pieces| <= 999
    ensures ChunkFrames(id, 0, pieces)[k] == ChunkFrame(id, k, pieces[k])
  {
    AfterSmall(0, k);
    assert SeqNo(After(0, k)) == k;
    ChunkFrameAt(id, 0, pieces, k);
  }

  lemma StreamFrame(id: nat, pieces: seq<string>, k: nat)
    requires 0 < id < 1000 && k < |pieces| <= 999 && StripTrailingNuls(pieces[k]) == pieces[k]
    ensures Read(ChunkFrames(id, 0, pieces)[k]) == Chunk(Pad3(id), k, pieces[k])
  {
    ReadChunk(id, k, pieces[k]);
    ShortFrameAt(id, pieces, k);
  }

  // ----- what goes wrong with an entry that is not harmless

  /** Chunk frames overwrite the entry where they arrive. */
  lemma {:induction false} Overwrites(m: Chunks, texts: seq<string>, mids: seq<Frame>, key: string, pieces: seq<string>)
    requires FromPieces(mids, key, pieces)
    ensures var r := Steps(Slot(Some(m), texts), mids);
      && r.texts == texts && r.chunks.Some?
      && forall j: nat ::
           var came := j < |pieces| && Chunk(key, j, pieces[j]) in mids;
           && (j in r.chunks.value <==> j in m || came)
           && (j in r.chunks.value ==> r.chunks.value[j] == if came then pieces[j] else m[j])
    decreases mids
  {
    if mids != [] {
      assert mids[0] in mids && forall f :: f in mids[1..] ==> f in mids;
      assert forall f :: f in mids <==> f == mids[0] || f in mids[1..];
      Overwrites(m[mids[0].seqNo := mids[0].payload], texts, mids[1..], key, pieces);
    }
  }

  lemma {:induction false} JoinPieces(m: Chunks, pieces: seq<string>, i: nat)
    requires i <= |pieces| <= 1000
    requires forall k :: i <= k < |pieces| ==> k in m && m[k] == pieces[k]
    ensures JoinFrom(m, i) == Flatten(pieces[i..]) + JoinFrom(m, |pieces|)
    decreases |pieces| - i
  {
    if i < |pieces| {
      JoinPieces(m, pieces, i + 1);
      assert pieces[i..][1..] == pieces[i + 1..];
      Assoc(pieces[i], Flatten(pieces[i + 1..]), JoinFrom(m, |pieces|));
    }
  }

  lemma {:induction false} JoinVisible(m: Chunks, i: nat, k: nat)
    requires i <= k < 1000 && k in m && m[k] != ""
    ensures JoinFrom(m, i) != ""
    decreases k - i
  {
    if i < k {
      JoinVisible(m, i + 1, k);
    }
  }

  lemma {:induction false} JoinAgrees(a: Chunks, b: Chunks, i: nat)
    requires forall j: nat :: i <= j ==> (j in a <==> j in b) && (j in a ==> a[j] == b[j])
    ensures JoinFrom(a, i) == JoinFrom(b, i)
    decreases 1000 - i
  {
    if i < 1000 {
      JoinAgrees(a, b, i + 1);
    }
  }

  lemma CancelBack<T>(a: seq<T>, b: seq<T>, c: seq<T>)
    ensures a + c == b + c ==> a == b
  {
    if a + c == b + c {
      assert |a| == |b|;
      assert a == (a + c)[..|a|] == (b + c)[..|a|] == b;
    }
  }

  /** One chunk makes all the difference. */
  lemma {:induction false} JoinDiffers(a: Chunks, b: Chunks, i: nat, k: nat)
    requires i <= k < 1000 && k in a && k in b && a[k] != b[k]
    requires forall j: nat :: j != k ==> (j in a <==> j in b) && (j in a ==> a[j] == b[j])
    ensures JoinFrom(a, i) != JoinFrom(b, i)
    decreases k - i
  {
    if i == k {
      JoinAgrees(a, b, k + 1);
      CancelBack(a[k], b[k], JoinFrom(a, k + 1));
    } else {
      JoinDiffers(a, b, i + 1, k);
      Cancel(if i in a then a[i] else "", JoinFrom(a, i + 1), JoinFrom(b, i + 1));
    }
  }

  /** The chunk frames of a stream but for number k, or all of them if k is beyond the last, and the end;
      the start is lost. */
  function Remainder<T>(chunks: seq<T>, k: nat): seq<T> {
    if k < |chunks| then chunks[..k] + chunks[k + 1..] else chunks
  }

  function RestOf(id: nat, pieces: seq<string>, k: nat): seq<string>
    requires 0 < id < 1000 && |pieces| <= 999
  {
    Remainder(ChunkFrames(id, 0, pieces), k) + [EndFrame(id, |pieces|)]
  }

  lemma RestIsLossy(id: nat, pieces: seq<string>, k: nat)
    requires 0 < id < 1000 && |pieces| <= 999
    ensures Subsequence(RestOf(id, pieces, k), StreamFrames(id, pieces))
  {
    var s, c, e := [StartFrame(id)], ChunkFrames(id, 0, pieces), [EndFrame(id, |pieces|)];
    ShortTotal(pieces);
    assert StreamFrames(id, pieces) == s + c + e;
    RemainderIsLossy(c, k);
    SubsequenceAppend([], s, Remainder(c, k), c);
    assert [] + Remainder(c, k) == Remainder(c, k);
    SubsequenceRefl(e);
    SubsequenceAppend(Remainder(c, k), s + c, e, e);
  }

  lemma RemainderIsLossy(c: seq<string>, k: nat)
    ensures Subsequence(Remainder(c, k), c)
  {
    if k < |c| {
      LeaveOut(c[..k], c[k], c[k + 1..]);
      assert c == c[..k] + ([c[k]] + c[k + 1..]);
    } else {
      SubsequenceRefl(c);
    }
  }

  lemma LeaveOut<T>(front: seq<T>, x: T, back: seq<T>)
    ensures Subsequence(front + back, front + ([x] + back))
  {
    SubsequenceRefl(front);
    SubsequenceRefl(back);
    assert ([x] + back)[1..] == back;
    SubsequenceAppend(front, front, back, [x] + back);
  }

  lemma ChunksRead(id: nat, pieces: seq<string>)
    requires 0 < id < 1000 && |pieces| <= 999
    requires forall i :: 0 <= i < |pieces| ==> StripTrailingNuls(pieces[i]) == pieces[i]
    ensures var raws, fs := ChunkFrames(id, 0, pieces), ReadChunks(Pad3(id), 0, pieces);
      |fs| == |raws| && forall j :: 0 <= j < |raws| ==> Read(raws[j]) == fs[j] && !fs[j].Plain? && fs[j].id == Pad3(id)
  {
    ReadChunksFit(Pad3(id), 0, pieces);
    forall j | 0 <= j < |pieces|
      ensures Read(ChunkFrames(id, 0, pieces)[j]) == ReadChunks(Pad3(id), 0, pieces)[j]
    {
      StreamFrame(id, pieces, j);
    }
  }

  /** What the console reads of such a remainder: chunks, all but k, and the end. */
  lemma RestReads(id: nat, pieces: seq<string>, k: nat)
    requires 0 < id < 1000 && |pieces| <= 999
    requires forall i :: 0 <= i < |pieces| ==> StripTrailingNuls(pieces[i]) == pieces[i]
    ensures Own(RestOf(id, pieces, k), Pad3(id)) ==
            Remainder(ReadChunks(Pad3(id), 0, pieces), k) + [End(Pad3(id), |pieces|)]
  {
    var key, raws, e := Pad3(id), ChunkFrames(id, 0, pieces), EndFrame(id, |pieces|);
    ChunksRead(id, pieces);
    OwnRemainder(raws, ReadChunks(key, 0, pieces), key, k);
    ReadEnd(id, |pieces|);
    OwnOne(e, key);
    OwnAppend(Remainder(raws, k), [e], key);
  }

  lemma OwnRemainder(raws: seq<string>, fs: seq<Frame>, key: string, k: nat)
    requires |raws| == |fs|
    requires forall i :: 0 <= i < |raws| ==> Read(raws[i]) == fs[i] && !fs[i].Plain? && fs[i].id == key
    ensures Own(Remainder(raws, k), key) == Remainder(fs, k)
  {
    var r, f := Remainder(raws, k), Remainder(fs, k);
    forall i | 0 <= i < |r|
      ensures Read(r[i]) == f[i] && !f[i].Plain? && f[i].id == key
    {
      var j := if i < k then i else i + 1;
      assert r[i] == raws[j] && f[i] == fs[j];
    }
    OwnEach(r, f, key);
  }

  lemma RemainderHas<T>(fs: seq<T>, k: nat, x: T)
    ensures x in Remainder(fs, k) <==> exists i :: 0 <= i < |fs| && i != k && fs[i] == x
  {
    var r := Remainder(fs, k);
    if x in r {
      var i :| 0 <= i < |r| && r[i] == x;
      assert fs[if i < k then i else i + 1] == x;
    }
    if i :| 0 <= i < |fs| && i != k && fs[i] == x {
      assert r[if i < k then i else i - 1] == x;
    }
  }

  lemma RemainderChunks(key: string, pieces: seq<string>, k: nat)
    requires |pieces| <= 999
    requires forall i :: 0 <= i < |pieces| ==> StripTrailingNuls(pieces[i]) == pieces[i]
    ensures var mids := Remainder(ReadChunks(key, 0, pieces), k);
      && FromPieces(mids, key, pieces)
      && forall j :: 0 <= j < |pieces| ==> (Chunk(key, j, pieces[j]) in mids <==> j != k)
  {
    var fs := ReadChunks(key, 0, pieces);
    ReadChunksFit(key, 0, pieces);
    forall f | f in Remainder(fs, k)
      ensures f.Chunk? && f.id == key && f.seqNo < |pieces| && f.payload == pieces[f.seqNo]
    {
      RemainderHas(fs, k, f);
    }
    forall j | 0 <= j < |pieces|
      ensures Chunk(key, j, pieces[j]) in Remainder(fs, k) <==> j != k
    {
      RemainderHas(fs, k, fs[j]);
      assert fs[j] == Chunk(key, j, pieces[j]);
    }
  }

  /** Number k of the entry is out of place, and it is beyond the last piece if any such number is. */
  ghost predicate OutOfPlace(m: Chunks, pieces: seq<string>, k: nat) {
    && k < 1000 && k in m && m[k] != (if k < |pieces| then pieces[k] else "")
    && (k < |pieces| ==> forall j: nat :: |pieces| <= j < 1000 && j in m ==> m[j] == "")
  }

  /** All chunks but number k arrive, and the end: one text comes out, and it is not the payload. */
  lemma Splices(m: Chunks, mids: seq<Frame>, key: string, pieces: seq<string>, k: nat)
    requires |pieces| <= 999 && OutOfPlace(m, pieces, k) && FromPieces(mids, key, pieces)
    requires forall j :: 0 <= j < |pieces| ==> (Chunk(key, j, pieces[j]) in mids <==> j != k)
    ensures var texts := Steps(Slot(Some(m), []), mids + [End(key, |pieces|)]).texts;
      texts != [] && texts != [Flatten(pieces)]
  {
    var slot, end := Slot(Some(m), []), End(key, |pieces|);
    Overwrites(m, [], mids, key, pieces);
    StepsAppend(slot, mids, [end]);
    var r := Steps(slot, mids);
    StepsOne(r, end);
    var now := r.chunks.value;
    forall j | 0 <= j < |pieces|
      ensures j in now && (j != k ==> now[j] == pieces[j])
    {
      assert Chunk(key, j, pieces[j]) in mids <==> j != k;
    }
    SplicedText(m, now, pieces, k);
    assert Step(r, end).texts == [] + [JoinFrom(now, 0)];
    assert [JoinFrom(now, 0)][0] != [Flatten(pieces)][0];
  }

  lemma RestSplices(rx: Rx, id: nat, pieces: seq<string>, k: nat)
    requires 0 < id < 1000 && |pieces| <= 999 && Pad3(id) in rx.streams
    requires forall i :: 0 <= i < |pieces| ==> StripTrailingNuls(pieces[i]) == pieces[i]
    requires OutOfPlace(rx.streams[Pad3(id)], pieces, k)
    ensures !Exact(rx, RestOf(id, pieces, k), Pad3(id), Flatten(pieces))
  {
    var key := Pad3(id);
    RestReads(id, pieces, k);
    RemainderChunks(key, pieces, k);
    Splices(rx.streams[key], Remainder(ReadChunks(key, 0, pieces), k), key, pieces, k);
    ExactBySteps(rx, RestOf(id, pieces, k), key, Flatten(pieces));
  }

  lemma SplicedText(m: Chunks, r: Chunks, pieces: seq<string>, k: nat)
    requires |pieces| <= 999 && k < 1000 && k in m && k in r && r[k] == m[k]
    requires m[k] != if k < |pieces| then pieces[k] else ""
    requires forall j :: 0 <= j < |pieces| ==> j in r && (j != k ==> r[j] == pieces[j])
    requires k < |pieces| ==> forall j: nat :: |pieces| <= j < 1000 && j in r ==> r[j] == ""
    ensures JoinFrom(r, 0) != Flatten(pieces)
  {
    if k < |pieces| {
      var whole := r[k := pieces[k]];
      JoinHarmless(whole, pieces, 0);
      assert pieces[0..] == pieces;
      JoinDiffers(r, whole, 0, k);
    } else {
      JoinPieces(r, pieces, 0);
      assert pieces[0..] == pieces;
      JoinVisible(r, |pieces|, k);
    }
  }

  lemma SomeOutOfPlace(m: Chunks, pieces: seq<string>) returns (k: nat)
    requires !Harmless(m, pieces)
    ensures OutOfPlace(m, pieces, k)
  {
    if j: nat :| j in m && |pieces| <= j < 1000 && m[j] != "" {
      k := j;
    } else {
      k :| k in m && k < 1000 && m[k] != if k < |pieces| then pieces[k] else "";
    }
  }

  lemma LossyIsOurs(trace: seq<string>, id: nat, pieces: seq<string>)
    requires 0 < id < 1000 && |pieces| <= 999
    requires forall i :: 0 <= i < |pieces| ==> StripTrailingNuls(pieces[i]) == pieces[i]
    requires Subsequence(trace, StreamFrames(id, pieces))
    ensures forall f :: f in Own(trace, Pad3(id)) ==> Ours(f, Pad3(id), pieces)
    ensures multiset(Own(trace, Pad3(id)))[End(Pad3(id), |pieces|)] <= 1
  {
    var key := Pad3(id);
    SubsequenceOwn(trace, StreamFrames(id, pieces), key);
    OwnShortStream(id, pieces);
    assert Own(StreamFrames(id, pieces), key) == OwnFrames(key, pieces);
    OwnFramesOurs(key, pieces);
    forall f | f in Own(trace, key)
      ensures Ours(f, key, pieces)
    {
      SubsequenceMember(Own(trace, key), OwnFrames(key, pieces), f);
    }
    SubsequenceCounts(Own(trace, key), OwnFrames(key, pieces), End(key, |pieces|));
  }

  lemma {:induction false} SubsequenceCounts<T>(a: seq<T>, b: seq<T>, x: T)
    requires Subsequence(a, b)
    ensures multiset(a)[x] <= multiset(b)[x]
    decreases b
  {
    if a != [] {
      assert a == [a[0]] + a[1..] && b == [b[0]] + b[1..];
      if a[0] == b[0] && Subsequence(a[1..], b[1..]) {
        SubsequenceCounts(a[1..], b[1..], x);
      } else {
        SubsequenceCounts(a, b[1..], x);
      }
    }
  }

  /** Exactly when a leftover entry can splice: whatever a stream of at most 999 pieces loses on the way,
      the console adds its payload or nothing, if and only if the entry holds nothing visible but pieces
      of that same stream in their places. */
  lemma StaleEntryExactly(rx: Rx, id: nat, pieces: seq<string>)
    requires 0 < id < 1000 && |pieces| <= 999 && NulFree(Flatten(pieces)) && Pad3(id) in rx.streams
    ensures (forall trace :: Subsequence(trace, StreamFrames(id, pieces)) ==>
               Exact(rx, trace, Pad3(id), Flatten(pieces)))
            <==> Harmless(rx.streams[Pad3(id)], pieces)
  {
    StripNulFree(pieces);
    var m := rx.streams[Pad3(id)];
    if Harmless(m, pieces) {
      forall trace | Subsequence(trace, StreamFrames(id, pieces))
        ensures Exact(rx, trace, Pad3(id), Flatten(pieces))
      {
        LossyIsOurs(trace, id, pieces);
        SafeInAnyOrder(rx, trace, Pad3(id), pieces);
      }
    } else {
      var k := SomeOutOfPlace(m, pieces);
      RestIsLossy(id, pieces, k);
      RestSplices(rx, id, pieces, k);
    }
  }

  // ----- where such entries come from

  /** The frames of a stream whose end is lost. */
  function Unended(id: nat, pieces: seq<string>): seq<string>
    requires id < 1000
  {
    [StartFrame(id)] + ChunkFrames(id, 0, pieces)
  }

  lemma OwnUnended(id: nat, pieces: seq<string>)
    requires 0 < id < 1000
    ensures Own(Unended(id, pieces), Pad3(id)) == [Start(Pad3(id))] + ReadChunks(Pad3(id), 0, pieces)
  {
    var key := Pad3(id);
    ReadStart(id);
    OwnOne(StartFrame(id), key);
    OwnChunks(id, 0, pieces);
    OwnAppend([StartFrame(id)], ChunkFrames(id, 0, pieces), key);
  }

  lemma CollectsAll(slot: Slot, key: string, pieces: seq<string>)
    requires |pieces| <= 999
    requires forall i :: 0 <= i < |pieces| ==> StripTrailingNuls(pieces[i]) == pieces[i]
    ensures var r := Steps(slot, [Start(key)] + ReadChunks(key, 0, pieces)).chunks;
      r.Some? && Fits(r.value, pieces) && Complete(r.value, |pieces|)
  {
    var chunks, begun := ReadChunks(key, 0, pieces), Step(slot, Start(key));
    StepsAppend(slot, [Start(key)], chunks);
    StepsOne(slot, Start(key));
    ReadChunksFit(key, 0, pieces);
    Collect(begun, chunks, key, pieces);
    forall j | 0 <= j < |pieces|
      ensures j in Steps(begun, chunks).chunks.value
    {
      assert chunks[j] == Chunk(key, j, pieces[j]);
    }
  }

  lemma UnendedEntry(rx: Rx, id: nat, pieces: seq<string>)
    requires 0 < id < 1000 && |pieces| <= 999
    requires forall i :: 0 <= i < |pieces| ==> StripTrailingNuls(pieces[i]) == pieces[i]
    ensures var streams := ReceiveAll(rx, Unended(id, pieces)).streams;
      && Pad3(id) in streams
      && Fits(streams[Pad3(id)], pieces) && Complete(streams[Pad3(id)], |pieces|)
  {
    StreamsAreIndependent(rx, Unended(id, pieces), Pad3(id));
    OwnUnended(id, pieces);
    CollectsAll(SlotOf(rx, Pad3(id)), Pad3(id), pieces);
  }

  /** A stream that lost its end, and the next one of the same id: whatever the second loses, the console
      adds its payload or nothing, if and only if the pieces of the first begin the second. */
  lemma AfterLostEnd(rx: Rx, id: nat, first: seq<string>, second: seq<string>)
    requires 0 < id < 1000 && |first| <= 999 && |second| <= 999
    requires "" !in first && NulFree(Flatten(first)) && NulFree(Flatten(second))
    ensures (forall trace :: Subsequence(trace, StreamFrames(id, second)) ==>
               Exact(ReceiveAll(rx, Unended(id, first)), trace, Pad3(id), Flatten(second)))
            <==> first <= second
  {
    StripNulFree(first);
    UnendedEntry(rx, id, first);
    var after := ReceiveAll(rx, Unended(id, first));
    HarmlessIsPrefix(after.streams[Pad3(id)], first, second);
    StaleEntryExactly(after, id, second);
  }

  lemma HarmlessIsPrefix(m: Chunks, first: seq<string>, second: seq<string>)
    requires Fits(m, first) && Complete(m, |first|) && |first| <= 999 && "" !in first
    ensures Harmless(m, second) <==> first <= second
  {
    if Harmless(m, second) {
      forall k | 0 <= k < |first|
        ensures k < |second| && first[k] == second[k]
      {
        assert k in m && m[k] == first[k] && first[k] in first;
      }
      assert first == [] || first[|first| - 1] in first;
      assert |first| <= |second|;
      assert second[..|first|] == first;
    }
    if first <= second {
      forall k | k in m && k < 1000
        ensures m[k] == if k < |second| then second[k] else ""
      {
        assert k < |first| && m[k] == first[k] == second[k];
      }
    }
  }

  /** From two streams on the air to a text that neither of them is. */
  lemma StaleEntrySplices(id: nat)
    requires 0 < id < 1000
    ensures exists trace ::
      && Subsequence(trace, StreamFrames(id, ["b"]))
      && !Exact(ReceiveAll(Rx(map[], []), Unended(id, ["a", "x"])), trace, Pad3(id), Flatten(["b"]))
  {
    var first, second := ["a", "x"], ["b"];
    assert first[1..] == ["x"] && first[1..][1..] == [] && second[1..] == [];
    assert Flatten(first) == "a" + Flatten(["x"]) && Flatten(["x"]) == "x" + Flatten([]);
    assert Flatten(second) == "b" + Flatten([]);
    AfterLostEnd(Rx(map[], []), id, first, second);
  }
}

/** The text frames of a stream: how the firmware prints them and how the console reads them. */
module Frames {
  import opened Text

  function StartFrame(id: nat): string
    requires id < 1000
  {
    "~S" + Pad3(id)
  }

  function ChunkFrame(id: nat, seqNo: nat, payload: string): string
    requires id < 1000 && seqNo < 1000
  {
    "~C" + Pad3(id) + Pad3(seqNo) + payload
  }

  function EndFrame(id: nat, total: nat): string
    requires id < 1000 && total < 1000
  {
    "~E" + Pad3(id) + Pad3(total)
  }

  // ----- the console's view

  datatype Frame =
    | Start(id: string)
    | Chunk(id: string, seqNo: nat, payload: string)
    | End(id: string, expected: nat)
    | Plain

  /** The three patterns of the console, tried in its order: "~S" and three digits, "~C" and six
      digits and anything, "~E" and six digits. */
  function Parse(text: string): Frame {
    if |text| == 5 && text[..2] == "~S" && AllDigits(text[2..5]) then
      Start(text[2..5])
    else if |text| >= 8 && text[..2] == "~C" && AllDigits(text[2..8]) then
      Chunk(text[2..5], Value3(text[5..8]), text[8..])
    else if |text| == 8 && text[..2] == "~E" && AllDigits(text[2..8]) then
      End(text[2..5], Value3(text[5..8]))
    else
      Plain
  }

  /** What the console makes of one raw notification or packet. */
  function Read(raw: string): Frame {
    Parse(StripTrailingNuls(raw))
  }

  lemma ReadStart(id: nat)
    requires id < 1000
    ensures Read(StartFrame(id)) == Start(Pad3(id))
  {
    var f := StartFrame(id);
    assert f[4] == Pad3(id)[2];
    StripKeeps(f);
    assert f[2..5] == Pad3(id);
  }

  lemma Layout(tag: string, a: string, b: string, rest: string)
    requires |tag| == 2 && |a| == |b| == 3 && AllDigits(a) && AllDigits(b)
    ensures var f := tag + a + b + rest;
      && |f| >= 8 && f[..2] == tag && f[2..5] == a && f[5..8] == b && f[8..] == rest
      && AllDigits(f[2..8])
  {
    var f := tag + a + b + rest;
    assert f[..2] == tag;
    assert f[2..5] == a;
    assert f[5..8] == b;
    assert f[8..] == rest;
    forall i | 0 <= i < 6
      ensures IsDigit(f[2..8][i])
    {
      assert f[2..8][i] == if i < 3 then a[i] else b[i - 3];
    }
  }

  lemma ReadChunk(id: nat, seqNo: nat, payload: string)
    requires id < 1000 && seqNo < 1000
    ensures Read(ChunkFrame(id, seqNo, payload)) == Chunk(Pad3(id), seqNo, StripTrailingNuls(payload))
  {
    var a, b := Pad3(id), Pad3(seqNo);
    var head := "~C" + a + b;
    assert head[7] == b[2];
    StripAfter(head, payload);
    Layout("~C", a, b, StripTrailingNuls(payload));
  }

  lemma ReadEnd(id: nat, total: nat)
    requires id < 1000 && total < 1000
    ensures Read(EndFrame(id, total)) == End(Pad3(id), total)
  {
    var a, b := Pad3(id), Pad3(total);
    var f := "~E" + a + b;
    assert f[7] == b[2];
    StripKeeps(f);
    Layout("~E", a, b, "");
    assert f + "" == f;
  }

  // ----- which texts are frames

  /** "~S" and a number of three digits. */
  ghost predicate IsStart(t: string) {
    exists n: nat :: n < 1000 && t == "~S" + Pad3(n)
  }

  /** "~C", two numbers of three digits, and anything. */
  ghost predicate IsChunk(t: string) {
    exists n: nat, m: nat, p: string :: n < 1000 && m < 1000 && t == "~C" + Pad3(n) + Pad3(m) + p
  }

  /** "~E" and two numbers of three digits. */
  ghost predicate IsEnd(t: string) {
    exists n: nat, m: nat :: n < 1000 && m < 1000 && t == "~E" + Pad3(n) + Pad3(m)
  }

  ghost predicate IsFrame(t: string) {
    IsStart(t) || IsChunk(t) || IsEnd(t)
  }

  lemma PadsBack(s: string)
    requires |s| == 3 && AllDigits(s)
    ensures Pad3(Value3(s)) == s
  {
    var a, b, c := DigitValue(s[0]), DigitValue(s[1]), DigitValue(s[2]);
    Pad3Digits(a, b, c);
    assert s == [(48 + a) as char, (48 + b) as char, (48 + c) as char];
  }

  lemma Halves(t: string)
    requires |t| >= 8 && AllDigits(t[2..8])
    ensures AllDigits(t[2..5]) && AllDigits(t[5..8])
    ensures t == t[..2] + Pad3(Value3(t[2..5])) + Pad3(Value3(t[5..8])) + t[8..]
  {
    assert t[2..5] == t[2..8][..3] && t[5..8] == t[2..8][3..];
    PadsBack(t[2..5]);
    PadsBack(t[5..8]);
    assert t == t[..2] + t[2..5] + t[5..8] + t[8..];
  }

  lemma StartIsStart(t: string)
    ensures Parse(t).Start? <==> IsStart(t)
    ensures forall n: nat :: n < 1000 && t == "~S" + Pad3(n) ==> Parse(t) == Start(Pad3(n))
  {
    if Parse(t).Start? {
      PadsBack(t[2..5]);
      assert t == "~S" + Pad3(Value3(t[2..5]));
    }
    forall n: nat | n < 1000 && t == "~S" + Pad3(n)
      ensures Parse(t) == Start(Pad3(n))
    {
      assert t[..2] == "~S" && t[2..5] == Pad3(n);
    }
  }

  lemma ChunkIsChunk(t: string)
    ensures Parse(t).Chunk? <==> IsChunk(t)
    ensures forall n: nat, m: nat, p: string :: n < 1000 && m < 1000 && t == "~C" + Pad3(n) + Pad3(m) + p ==>
              Parse(t) == Chunk(Pad3(n), m, p)
  {
    if Parse(t).Chunk? {
      Halves(t);
      assert t == "~C" + Pad3(Value3(t[2..5])) + Pad3(Value3(t[5..8])) + t[8..];
    }
    forall n: nat, m: nat, p: string | n < 1000 && m < 1000 && t == "~C" + Pad3(n) + Pad3(m) + p
      ensures Parse(t) == Chunk(Pad3(n), m, p)
    {
      Layout("~C", Pad3(n), Pad3(m), p);
    }
  }

  lemma EndIsEnd(t: string)
    ensures Parse(t).End? <==> IsEnd(t)
    ensures forall n: nat, m: nat :: n < 1000 && m < 1000 && t == "~E" + Pad3(n) + Pad3(m) ==>
              Parse(t) == End(Pad3(n), m)
  {
    if Parse(t).End? {
      Halves(t);
      assert t[8..] == "";
      assert t == "~E" + Pad3(Value3(t[2..5])) + Pad3(Value3(t[5..8]));
    }
    forall n: nat, m: nat | n < 1000 && m < 1000 && t == "~E" + Pad3(n) + Pad3(m)
      ensures Parse(t) == End(Pad3(n), m)
    {
      assert t == "~E" + Pad3(n) + Pad3(m) + "";
      Layout("~E", Pad3(n), Pad3(m), "");
    }
  }

  /** The console takes exactly the texts a sender can print for frames, each for what it was printed as;
      every frame begins with '~'. */
  lemma FramesExactly(t: string)
    ensures Parse(t).Plain? <==> !IsFrame(t)
    ensures Parse(t).Start? <==> IsStart(t)
    ensures Parse(t).Chunk? <==> IsChunk(t)
    ensures Parse(t).End? <==> IsEnd(t)
    ensures !Parse(t).Plain? ==> t != "" && t[0] == '~'
  {
    StartIsStart(t);
    ChunkIsChunk(t);
    EndIsEnd(t);
  }

  // ----- what a sender prints for one stream

  /** A write of a text is cut into pieces of at most max bytes, the last one possibly shorter. */
  function Cut(data: string, max: nat): (pieces: seq<string>)
    requires max > 0
    decreases |data|
  {
    if data == "" then []
    else if |data| <= max then [data]
    else [data[..max]] + Cut(data[max..], max)
  }

  lemma {:induction false} CutFacts(data: string, max: nat)
    requires max > 0
    ensures Flatten(Cut(data, max)) == data
    ensures forall piece :: piece in Cut(data, max) ==> 0 < |piece| <= max
    ensures |Cut(data, max)| <= |data|
    decreases |data|
  {
    if |data| > max {
      CutFacts(data[max..], max);
      assert data == data[..max] + data[max..];
    }
  }

  /** Every piece but the last is as long as can be, so there are as few as can be. */
  lemma {:induction false} CutFull(data: string, max: nat)
    requires max > 0
    ensures forall i :: 0 <= i < |Cut(data, max)| - 1 ==> |Cut(data, max)[i]| == max
    ensures data != "" ==> max * (|Cut(data, max)| - 1) < |data| <= max * |Cut(data, max)|
    ensures data == "" ==> Cut(data, max) == []
    decreases |data|
  {
    if |data| > max {
      var rest := Cut(data[max..], max);
      CutFull(data[max..], max);
      assert Cut(data, max) == [data[..max]] + rest;
      assert max * (|rest| + 1) == max * |rest| + max && max * (|rest| - 1) == max * |rest| - max;
    }
  }

  /** Every write of a stream is cut on its own. */
  function CutAll(writes: seq<string>, max: nat): (pieces: seq<string>)
    requires max > 0
  {
    if writes == [] then [] else Cut(writes[0], max) + CutAll(writes[1..], max)
  }

  /** Cutting loses nothing, whatever the boundaries of the writes. */
  lemma {:induction false} CutAllFacts(writes: seq<string>, max: nat)
    requires max > 0
    ensures Flatten(CutAll(writes, max)) == Flatten(writes)
    ensures forall piece :: piece in CutAll(writes, max) ==> 0 < |piece| <= max
    ensures |CutAll(writes, max)| <= |Flatten(writes)|
  {
    if writes != [] {
      CutFacts(writes[0], max);
      CutAllFacts(writes[1..], max);
      FlattenAppend(Cut(writes[0], max), CutAll(writes[1..], max));
    }
  }

  /** The stream's 16-bit frame counter. */
  type Counter = c: nat | c < 65536

  function Next(c: Counter): Counter {
    if c == 65535 then 0 else c + 1
  }

  /** The counter after n more frames. */
  function After(c: Counter, n: nat): Counter
    decreases n
  {
    if n == 0 then c else After(Next(c), n - 1)
  }

  lemma {:induction false} AfterSmall(c: Counter, n: nat)
    requires c + n < 65536
    ensures After(c, n) == c + n
    decreases n
  {
    if n > 0 {
      AfterSmall(c + 1, n - 1);
    }
  }

  /** The number printed in a frame: the counter modulo one thousand. */
  function SeqNo(c: Counter): (n: nat)
    ensures n < 1000
  {
    c % 1000
  }

  /** The chunk frames of the pieces when the counter stands at c. */
  function ChunkFrames(id: nat, c: Counter, pieces: seq<string>): (fs: seq<string>)
    requires id < 1000
    ensures |fs| == |pieces|
    decreases pieces
  {
    if pieces == [] then []
    else [ChunkFrame(id, SeqNo(c), pieces[0])] + ChunkFrames(id, Next(c), pieces[1..])
  }

  lemma {:induction false} ChunkFrameAt(id: nat, c: Counter, pieces: seq<string>, i: nat)
    requires id < 1000 && i < |pieces|
    ensures ChunkFrames(id, c, pieces)[i] == ChunkFrame(id, SeqNo(After(c, i)), pieces[i])
    decreases pieces
  {
    if i > 0 {
      ChunkFrameAt(id, Next(c), pieces[1..], i - 1);
    }
  }

  /** All frames of a stream, ready to be pushed one by one. */
  function StreamFrames(id: nat, pieces: seq<string>): seq<string>
    requires id < 1000
  {
    [StartFrame(id)] + ChunkFrames(id, 0, pieces) + [EndFrame(id, SeqNo(After(0, |pieces|)))]
  }
}

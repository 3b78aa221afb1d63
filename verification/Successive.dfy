/** Streams that follow one another under the same id, as they do once the ids have run through. */
module Successive {
  import opened Text
  import opened Frames
  import opened Console
  import opened Transfer
  import opened StaleEntries
  import opened OutQueue
  import opened Stream
  import QueueMachine

  /** The frames of streams one after the other, as the console reads them. */
  function AllFrames(key: string, streams: seq<seq<string>>): seq<Frame> {
    if streams == [] then [] else OwnFrames(key, streams[0]) + AllFrames(key, streams[1..])
  }

  function Concat(parts: seq<seq<Frame>>): seq<Frame> {
    if parts == [] then [] else parts[0] + Concat(parts[1..])
  }

  function Payloads(streams: seq<seq<string>>): seq<string> {
    if streams == [] then [] else [Flatten(streams[0])] + Payloads(streams[1..])
  }

  ghost predicate Short(streams: seq<seq<string>>) {
    forall pieces :: pieces in streams ==> |pieces| <= 999 && NulFree(Flatten(pieces))
  }

  /** What is left of each stream, with its start. */
  ghost predicate Remains(gots: seq<seq<Frame>>, key: string, streams: seq<seq<string>>)
    requires |gots| == |streams|
  {
    forall i :: 0 <= i < |gots| ==> Start(key) in gots[i] && Subsequence(gots[i], OwnFrames(key, streams[i]))
  }

  /** The payloads of the streams that came through, in order. */
  ghost function Heard(gots: seq<seq<Frame>>, key: string, streams: seq<seq<string>>): seq<string>
    requires |gots| == |streams|
  {
    if gots == [] then []
    else (if CameThrough(gots[0], key, streams[0]) then [Flatten(streams[0])] else [])
         + Heard(gots[1..], key, streams[1..])
  }

  lemma {:induction false} HeardAreSome(gots: seq<seq<Frame>>, key: string, streams: seq<seq<string>>)
    requires |gots| == |streams|
    ensures Subsequence(Heard(gots, key, streams), Payloads(streams))
  {
    if gots != [] {
      HeardAreSome(gots[1..], key, streams[1..]);
      var text, now := [Flatten(streams[0])], CameThrough(gots[0], key, streams[0]);
      SubsequenceRefl(text);
      SubsequenceAppend(if now then text else [], text, Heard(gots[1..], key, streams[1..]), Payloads(streams[1..]));
    }
  }

  // ----- every start arrives

  lemma OneStart(got: seq<Frame>, key: string, pieces: seq<string>)
    requires Subsequence(got, OwnFrames(key, pieces))
    ensures multiset(got)[Start(key)] <= 1
  {
    var front, end := [Start(key)] + ReadChunks(key, 0, pieces), End(key, |pieces|);
    NoStart(key, 0, pieces);
    assert multiset(front + [end]) == multiset{Start(key)} + multiset(ReadChunks(key, 0, pieces)) + multiset{end};
    SubsequenceCounts(got, OwnFrames(key, pieces), Start(key));
  }

  lemma {:induction false} NoStart(key: string, c: Counter, pieces: seq<string>)
    ensures Start(key) !in ReadChunks(key, c, pieces)
    decreases pieces
  {
    if pieces != [] {
      NoStart(key, Next(c), pieces[1..]);
    }
  }

  lemma CountBoth<T>(a: seq<T>, b: seq<T>, x: T)
    ensures multiset(a + b)[x] == multiset(a)[x] + multiset(b)[x]
  {
  }

  lemma {:induction false} StartsAtMost(own: seq<Frame>, key: string, streams: seq<seq<string>>)
    requires Subsequence(own, AllFrames(key, streams))
    ensures multiset(own)[Start(key)] <= |streams|
    decreases streams
  {
    if streams != [] {
      var first, rest := SplitSubsequence(own, OwnFrames(key, streams[0]), AllFrames(key, streams[1..]));
      OneStart(first, key, streams[0]);
      StartsAtMost(rest, key, streams[1..]);
      CountBoth(first, rest, Start(key));
    }
  }

  lemma RemainsMore(first: seq<Frame>, more: seq<seq<Frame>>, key: string, streams: seq<seq<string>>)
    requires |streams| == |more| + 1 && Remains(more, key, streams[1..])
    requires Start(key) in first && Subsequence(first, OwnFrames(key, streams[0]))
    ensures Remains([first] + more, key, streams) && Concat([first] + more) == first + Concat(more)
  {
    var gots := [first] + more;
    assert gots[1..] == more;
    forall i | 0 <= i < |gots|
      ensures Start(key) in gots[i] && Subsequence(gots[i], OwnFrames(key, streams[i]))
    {
      assert i > 0 ==> gots[i] == more[i - 1] && streams[i] == streams[1..][i - 1];
    }
  }

  /** If all starts arrive, what is left falls apart into what is left of each stream. */
  lemma {:induction false} Apart(own: seq<Frame>, key: string, streams: seq<seq<string>>)
      returns (gots: seq<seq<Frame>>)
    requires Subsequence(own, AllFrames(key, streams)) && multiset(own)[Start(key)] == |streams|
    ensures |gots| == |streams| && Concat(gots) == own && Remains(gots, key, streams)
    decreases streams
  {
    gots := [];
    if streams != [] {
      var first, rest := SplitSubsequence(own, OwnFrames(key, streams[0]), AllFrames(key, streams[1..]));
      OneStart(first, key, streams[0]);
      StartsAtMost(rest, key, streams[1..]);
      CountBoth(first, rest, Start(key));
      var more := Apart(rest, key, streams[1..]);
      gots := [first] + more;
      assert Start(key) in first;
      RemainsMore(first, more, key, streams);
    }
  }

  lemma {:induction false} HeardInTurn(chunks: Option<Chunks>, gots: seq<seq<Frame>>, key: string,
                                       streams: seq<seq<string>>)
    requires |gots| == |streams| && Short(streams) && Remains(gots, key, streams)
    ensures Steps(Slot(chunks, []), Concat(gots)).texts == Heard(gots, key, streams)
    decreases gots
  {
    if gots != [] {
      var slot := Slot(chunks, []);
      assert streams[0] in streams;
      StepsAppend(slot, gots[0], Concat(gots[1..]));
      LossyStream(chunks, gots[0], key, streams[0]);
      var next := Steps(slot, gots[0]);
      HeardInTurn(next.chunks, gots[1..], key, streams[1..]);
      StepsTexts(next, Concat(gots[1..]));
    }
  }

  /** Any number of streams of one id, mixed with other traffic and whatever is lost of them but their
      starts: the console adds the payloads of those that came through, in order, and nothing else. */
  lemma SuccessiveStreams(rx: Rx, trace: seq<string>, id: nat, streams: seq<seq<string>>)
      returns (gots: seq<seq<Frame>>)
    requires 0 < id < 1000 && Short(streams)
    requires Subsequence(Own(trace, Pad3(id)), AllFrames(Pad3(id), streams))
    requires multiset(Own(trace, Pad3(id)))[Start(Pad3(id))] == |streams|
    ensures |gots| == |streams| && Concat(gots) == Own(trace, Pad3(id)) && Remains(gots, Pad3(id), streams)
    ensures TextsOf(ReceiveAll(rx, trace).out, Pad3(id)) ==
            TextsOf(rx.out, Pad3(id)) + Heard(gots, Pad3(id), streams)
    ensures Subsequence(Heard(gots, Pad3(id), streams), Payloads(streams))
  {
    var key := Pad3(id);
    gots := Apart(Own(trace, key), key, streams);
    TextsAdded(rx, trace, key);
    HeardInTurn(Lookup(rx.streams, key), gots, key, streams);
    HeardAreSome(gots, key, streams);
  }

  // ----- from the queue

  lemma {:induction false} AllFramesMore(key: string, streams: seq<seq<string>>, pieces: seq<string>)
    ensures AllFrames(key, streams + [pieces]) == AllFrames(key, streams) + OwnFrames(key, pieces)
    decreases streams
  {
    if streams == [] {
      assert (streams + [pieces])[1..] == [];
    } else {
      assert (streams + [pieces])[1..] == streams[1..] + [pieces];
      AllFramesMore(key, streams[1..], pieces);
      Assoc(OwnFrames(key, streams[0]), AllFrames(key, streams[1..]), OwnFrames(key, pieces));
    }
  }

  /** What a queue has accepted of an id stays an ordered part of its streams' frames when a sender adds
      one more, wholly or in part. */
  lemma OneMoreStream(before: seq<string>, now: seq<string>, id: nat, streams: seq<seq<string>>,
                      pieces: seq<string>, whole: bool)
    requires 0 < id < 1000 && |pieces| <= 999
    requires Subsequence(Own(before, Pad3(id)), AllFrames(Pad3(id), streams))
    requires Added(before, now, StreamFrames(id, pieces), whole)
    ensures Subsequence(Own(now, Pad3(id)), AllFrames(Pad3(id), streams + [pieces]))
  {
    var key, part, fs := Pad3(id), now[|before|..], StreamFrames(id, pieces);
    assert now == before + part;
    assert (before + fs)[|before|..] == fs;
    assert part == (before + fs)[..|now|][|before|..] == fs[..|part|];
    OwnAppend(before, part, key);
    OwnShortStream(id, pieces);
    SubsequenceRefl(part);
    SubsequenceGrow(part, part, fs[|part|..]);
    assert fs == part + fs[|part|..];
    SubsequenceOwn(part, fs, key);
    SubsequenceAppend(Own(before, key), AllFrames(key, streams), Own(part, key), OwnFrames(key, pieces));
    AllFramesMore(key, streams, pieces);
  }

  /** Over every run of the concurrent queue in which no flusher pops while another holds a frame,
      whatever the other producers, the connection and the radio do: if the starts go out, the payloads
      of the streams that came through are added, in order, and nothing else. */
  lemma SuccessiveInEveryRun(rx: Rx, steps: seq<QueueMachine.Step>, d: QueueMachine.Discipline,
                             id: nat, streams: seq<seq<string>>) returns (gots: seq<seq<Frame>>)
    requires QueueMachine.Legal(QueueMachine.Start, steps, d) && d.oneHeld
    requires 0 < id < 1000 && Short(streams)
    requires Subsequence(Own(QueueMachine.Data(QueueMachine.Run(QueueMachine.Start, steps, d).accepted), Pad3(id)),
                         AllFrames(Pad3(id), streams))
    requires multiset(Own(QueueMachine.Data(QueueMachine.Run(QueueMachine.Start, steps, d).sent), Pad3(id)))
               [Start(Pad3(id))] == |streams|
    ensures var air := QueueMachine.Data(QueueMachine.Run(QueueMachine.Start, steps, d).sent);
      && |gots| == |streams| && Concat(gots) == Own(air, Pad3(id)) && Remains(gots, Pad3(id), streams)
      && TextsOf(ReceiveAll(rx, air).out, Pad3(id)) == TextsOf(rx.out, Pad3(id)) + Heard(gots, Pad3(id), streams)
    ensures Subsequence(Heard(gots, Pad3(id), streams), Payloads(streams))
  {
    var key, s := Pad3(id), QueueMachine.Run(QueueMachine.Start, steps, d);
    var accepted, air := QueueMachine.Data(s.accepted), QueueMachine.Data(s.sent);
    QueueMachine.SentInOrder(steps, d);
    SubsequenceOwn(air, accepted, key);
    SubsequenceTrans(Own(air, key), Own(accepted, key), AllFrames(key, streams));
    gots := SuccessiveStreams(rx, air, id, streams);
  }
}

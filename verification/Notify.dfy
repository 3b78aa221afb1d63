/** Notifying a long value in chunks, without the queue. */
module Notify {
  import opened Errno
  import opened Text
  import Frames
  import opened OutQueue

  const FALLBACK: nat := 20

  /** How a chunked notification ends: the chunks the stack took and the numbers of the calls that took
      them, the answer, the number of the next notify call and the chunk limit in force at the end. */
  datatype Outcome = Outcome(sent: seq<string>, at: seq<nat>, ret: Status, call: nat, limit: nat)

  function Head(data: string, limit: nat): (n: nat)
    ensures n <= |data| && n <= limit && (data != "" && limit > 0 ==> n > 0)
  {
    if |data| < limit then |data| else limit
  }

  /** One chunk: its length, the answer to it, the next call and the limit from then on. */
  function Chunk(data: string, limit: nat, radio: nat -> Status, call: nat): (nat, Status, nat, nat) {
    var (ret, next) := TryNotify(radio, call, RETRY_COUNT + 1);
    if ret == Err(EMSGSIZE) && limit > FALLBACK then
      var (again, after) := TryNotify(radio, next, RETRY_COUNT + 1);
      (Head(data, FALLBACK), again, after, FALLBACK)
    else (Head(data, limit), ret, next, limit)
  }

  function Chunked(data: string, limit: nat, radio: nat -> Status, call: nat): Outcome
    requires limit > 0
    decreases |data|, call
  {
    if data == "" then Outcome([], [], Ok, call, limit)
    else
      var (n, ret, next, max) := Chunk(data, limit, radio, call);
      if ret != Ok then Outcome([], [], ret, next, max)
      else
        var o := Chunked(data[n..], max, radio, next);
        o.(sent := [data[..n]] + o.sent, at := [next - 1] + o.at)
  }

  /** No chunk is larger than the one before it or than the limit. */
  ghost predicate Falling(chunks: seq<string>, limit: nat) {
    && (forall chunk :: chunk in chunks ==> 0 < |chunk| <= limit)
    && (forall i, j :: 0 <= i < j < |chunks| ==> |chunks[j]| <= |chunks[i]|)
  }

  /** Whatever the radio does, the bytes sent are a prefix of the data, in chunks that never grow; the
      answer is Ok exactly when that prefix is the whole; and too large a chunk is reported only after
      one of at most twenty bytes was refused. */
  lemma {:induction false} ChunkedFacts(data: string, limit: nat, radio: nat -> Status, call: nat)
    requires limit > 0
    ensures var o := Chunked(data, limit, radio, call);
      && Flatten(o.sent) <= data
      && (o.ret == Ok <==> Flatten(o.sent) == data)
      && Falling(o.sent, limit)
      && (o.limit == limit || (o.limit == FALLBACK < limit))
      && (o.ret == Err(EMSGSIZE) ==> o.limit <= FALLBACK)
    decreases |data|
  {
    if data != "" {
      var (n, ret, next, max) := Chunk(data, limit, radio, call);
      if ret == Ok {
        ChunkedFacts(data[n..], max, radio, next);
        SizesFall(data, n, max, Chunked(data[n..], max, radio, next).sent);
        Continues(data, n, Chunked(data[n..], max, radio, next).sent);
      }
    }
  }

  /** Every chunk was taken by a call of its own, and one taken after any refusal of a too large chunk
      since the call first has at most twenty bytes. */
  ghost predicate SmallLater(sent: seq<string>, at: seq<nat>, radio: nat -> Status, first: nat, end: nat) {
    && |at| == |sent|
    && (forall i :: 0 <= i < |at| ==> first <= at[i] < end && radio(at[i]) == Ok)
    && (forall i, n :: 0 <= i < |sent| && first <= n < at[i] && radio(n) == Err(EMSGSIZE) ==>
          |sent[i]| <= FALLBACK)
  }

  /** Each chunk is as large as the limit then in force, which is the one at the beginning or twenty, unless
      it is the last one of the data. */
  ghost predicate Full(o: Outcome, limit: nat) {
    forall i :: 0 <= i < |o.sent| ==>
      |o.sent[i]| == limit || (|o.sent[i]| == 20 && limit > 20) || (i == |o.sent| - 1 && o.ret == Ok)
  }

  /** No chunk is smaller than it has to be. */
  lemma {:induction false} FullChunks(data: string, limit: nat, radio: nat -> Status, call: nat)
    requires limit > 0
    ensures Full(Chunked(data, limit, radio, call), limit)
    decreases |data|
  {
    if data != "" {
      var (n, ret, next, max) := Chunk(data, limit, radio, call);
      if ret == Ok {
        var rest := Chunked(data[n..], max, radio, next);
        FullChunks(data[n..], max, radio, next);
        assert n < max ==> data[n..] == "";
        FullMore(data[..n], next - 1, rest, limit, max);
      }
    }
  }

  lemma FullMore(chunk: string, at: nat, rest: Outcome, limit: nat, max: nat)
    requires Full(rest, max) && (max == limit || max == 20 < limit)
    requires |chunk| == max || (rest.sent == [] && rest.ret == Ok)
    ensures Full(rest.(sent := [chunk] + rest.sent, at := [at] + rest.at), limit)
  {
    var sent := [chunk] + rest.sent;
    assert forall i :: 0 < i < |sent| ==> sent[i] == rest.sent[i - 1];
  }

  /** While no chunk is refused as too large, the chunks are those of the cut data, as far as they are
      taken; data that fits the limit goes out as one chunk. */
  lemma {:induction false} ChunksAreCut(data: string, limit: nat, radio: nat -> Status, call: nat)
    requires limit > 0 && forall n :: n >= call ==> radio(n) != Err(EMSGSIZE)
    ensures var o := Chunked(data, limit, radio, call);
      && o.sent <= Frames.Cut(data, limit)
      && (o.ret == Ok ==> o.sent == Frames.Cut(data, limit))
      && (o.ret == Ok && 0 < |data| <= limit ==> o.sent == [data])
    decreases |data|
  {
    if data != "" {
      var (r, next) := TryNotify(radio, call, RETRY_COUNT + 1);
      assert r == radio(next - 1);
      var n := Head(data, limit);
      if r == Ok {
        var rest := Chunked(data[n..], limit, radio, next);
        ChunksAreCut(data[n..], limit, radio, next);
        assert data[|data|..] == "" && data[..|data|] == data;
        assert Frames.Cut(data, limit) == [data[..n]] + Frames.Cut(data[n..], limit);
        assert Chunked(data, limit, radio, call).sent == [data[..n]] + rest.sent;
      }
    }
  }

  /** The first chunk of a notification and the outcome of what follows it. */
  lemma FirstChunk(data: string, limit: nat, radio: nat -> Status, call: nat)
      returns (k: nat, ok: bool, next: nat, max: nat)
    requires limit > 0 && data != ""
    ensures call < next && 0 < k <= |data| && k <= max
    ensures var o := Chunked(data, limit, radio, call);
      if ok then
        var rest := Chunked(data[k..], max, radio, next);
        o == rest.(sent := [data[..k]] + rest.sent, at := [next - 1] + rest.at)
      else o.sent == [] && o.at == [] && o.call == next
    ensures ok ==> radio(next - 1) == Ok
    ensures ok ==> forall n :: call <= n < next && radio(n) == Err(EMSGSIZE) ==> max <= FALLBACK
  {
    ChunkCalls(data, limit, radio, call);
    var (n, ret, after, now) := Chunk(data, limit, radio, call);
    k, ok, next, max := n, ret == Ok, after, now;
  }

  lemma {:induction false} SmallAfterRefusal(data: string, limit: nat, radio: nat -> Status, call: nat)
    requires limit > 0
    ensures var o := Chunked(data, limit, radio, call);
      call <= o.call && SmallLater(o.sent, o.at, radio, call, o.call)
    decreases |data|
  {
    if data != "" {
      var o := Chunked(data, limit, radio, call);
      var k, ok, next, max := FirstChunk(data, limit, radio, call);
      if ok {
        var rest := Chunked(data[k..], max, radio, next);
        SmallAfterRefusal(data[k..], max, radio, next);
        ChunkedFacts(data[k..], max, radio, next);
        SmallMore(data[..k], rest, radio, call, next, max);
        assert o.sent == [data[..k]] + rest.sent && o.at == [next - 1] + rest.at && o.call == rest.call;
      }
    }
  }

  lemma SmallMore(chunk: string, rest: Outcome, radio: nat -> Status, call: nat, next: nat, max: nat)
    requires SmallLater(rest.sent, rest.at, radio, next, rest.call) && call < next <= rest.call
    requires |chunk| <= max && Falling(rest.sent, max) && radio(next - 1) == Ok
    requires forall n :: call <= n < next && radio(n) == Err(EMSGSIZE) ==> max <= FALLBACK
    ensures SmallLater([chunk] + rest.sent, [next - 1] + rest.at, radio, call, rest.call)
  {
    var sent, at := [chunk] + rest.sent, [next - 1] + rest.at;
    forall i, n | 0 <= i < |sent| && call <= n < at[i] && radio(n) == Err(EMSGSIZE)
      ensures |sent[i]| <= FALLBACK
    {
      if i > 0 {
        assert sent[i] == rest.sent[i - 1] && at[i] == rest.at[i - 1] && rest.sent[i - 1] in rest.sent;
      }
    }
  }

  lemma ChunkCalls(data: string, limit: nat, radio: nat -> Status, call: nat)
    ensures var (k, ret, next, max) := Chunk(data, limit, radio, call);
      && call < next && k <= max && ret == radio(next - 1)
      && (ret == Ok ==> forall n :: call <= n < next && radio(n) == Err(EMSGSIZE) ==> max <= FALLBACK)
  {
  }

  lemma SizesFall(data: string, n: nat, max: nat, rest: seq<string>)
    requires 0 < n == Head(data, max) && Falling(rest, max) && Flatten(rest) <= data[n..]
    ensures Falling([data[..n]] + rest, max)
  {
    forall chunk | chunk in rest
      ensures |chunk| <= n
    {
      FlattenMember(rest, chunk);
    }
    assert forall i :: 0 <= i < |rest| ==> rest[i] in rest;
  }

  lemma {:induction false} FlattenMember(pieces: seq<string>, piece: string)
    requires piece in pieces
    ensures |piece| <= |Flatten(pieces)|
  {
    if piece != pieces[0] {
      FlattenMember(pieces[1..], piece);
    }
  }

  lemma Continues(data: string, n: nat, rest: seq<string>)
    requires n <= |data| && Flatten(rest) <= data[n..]
    ensures Flatten([data[..n]] + rest) == data[..n] + Flatten(rest) <= data
    ensures Flatten([data[..n]] + rest) == data <==> Flatten(rest) == data[n..]
  {
    assert ([data[..n]] + rest)[1..] == rest;
    assert data == data[..n] + data[n..];
    var whole := data[..n] + Flatten(rest);
    assert whole[n..] == Flatten(rest);
  }

  /** An attribute whose values are notified directly. */
  class Characteristic {
    const link: Link
    /** Chunks the stack has taken, in order. */
    var sent: seq<string>

    constructor (link: Link)
      ensures this.link == link && sent == []
    {
      this.link := link;
      sent := [];
    }

    method NotifyChunked(data: string) returns (ret: Status)
      modifies this`sent, link`calls
      ensures !link.ready ==> ret == Err(ENODEV) && sent == old(sent) && link.calls == old(link.calls)
      ensures link.ready && !(link.conn && link.connected) ==>
                ret == Err(ENOTCONN) && sent == old(sent) && link.calls == old(link.calls)
      ensures link.ready && link.conn && link.connected ==>
                var o := Chunked(data, link.PayloadMax(), link.radio, old(link.calls));
                sent == old(sent) + o.sent && ret == o.ret && link.calls == o.call
    {
      if !link.ready {
        return Err(ENODEV);
      }
      if !link.conn || !link.connected {
        return Err(ENOTCONN);
      }
      var chunkMax := link.PayloadMax();
      ghost var before, o := sent, Chunked(data, chunkMax, link.radio, link.calls);
      ghost var left := o;
      var offset := 0;
      ret := Ok;
      assert data[0..] == data;
      while offset < |data|
        invariant offset <= |data| && chunkMax > 0
        invariant left == Chunked(data[offset..], chunkMax, link.radio, link.calls)
        invariant ToSend(before, sent, o, left)
      {
        var rest := data[offset..];
        var chunkLen;
        chunkLen, ret, chunkMax := NotifyNext(rest, chunkMax);
        if ret != Ok {
          return;
        }
        left := Chunked(rest[chunkLen..], chunkMax, link.radio, link.calls);
        ToSendStep(before, sent, o, rest[..chunkLen], left);
        sent := sent + [rest[..chunkLen]];
        offset := offset + chunkLen;
        assert rest[chunkLen..] == data[offset..];
      }
      return Ok;
    }

    /** One turn of the loop: one chunk, tried again at twenty bytes if it was too large. */
    method NotifyNext(rest: string, limit: nat) returns (chunkLen: nat, ret: Status, chunkMax: nat)
      modifies link`calls
      ensures (chunkLen, ret, link.calls, chunkMax) == Chunk(rest, limit, link.radio, old(link.calls))
    {
      chunkMax := limit;
      chunkLen := Head(rest, chunkMax);
      ret := link.NotifyOneChunk();
      if ret == Err(EMSGSIZE) && chunkMax > FALLBACK {
        chunkMax := FALLBACK;
        chunkLen := Head(rest, chunkMax);
        ret := link.NotifyOneChunk();
      }
    }
  }

  /** Out of the whole outcome, what is still to come. */
  ghost predicate ToSend(before: seq<string>, now: seq<string>, whole: Outcome, rest: Outcome) {
    now + rest.sent == before + whole.sent && rest.ret == whole.ret && rest.call == whole.call
  }

  lemma ToSendStep(before: seq<string>, now: seq<string>, whole: Outcome, chunk: string, rest: Outcome)
    requires ToSend(before, now, whole, rest.(sent := [chunk] + rest.sent))
    ensures ToSend(before, now + [chunk], whole, rest)
  {
    Assoc(now, [chunk], rest.sent);
  }
}

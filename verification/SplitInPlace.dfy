/** The splitter as it runs: two cursors in one buffer, tokens compacted over the text they came from. */
module SplitInPlace {
  import opened Errno
  import opened Text
  import opened Args

  // ----- one token, on values

  /** The scan that began at start has written some text and stands at read with a quote open or not. */
  ghost predicate Scanning(text: string, start: nat, read: nat, quote: char, written: string)
    requires start <= read <= |text|
  {
    var rem := ScanToken(text[read..], quote);
    ScanToken(text[start..], NUL) == Scan(written + rem.token, read - start + rem.used, rem.closed)
  }

  lemma ScanBegins(text: string, start: nat)
    requires start <= |text|
    ensures Scanning(text, start, start, NUL, "")
  {
    var rem := ScanToken(text[start..], NUL);
    assert "" + rem.token == rem.token;
  }

  lemma ScanKeeps(text: string, start: nat, read: nat, quote: char, written: string, c: char, n: nat, next: char)
    requires start <= read && read + n <= |text| && Scanning(text, start, read, quote, written)
    requires ScanToken(text[read..], quote) == Prepend(c, n, ScanToken(text[read + n..], next))
    ensures Scanning(text, start, read + n, next, written + [c])
  {
    var rem := ScanToken(text[read + n..], next);
    Assoc(written, [c], rem.token);
  }

  lemma ScanSkips(text: string, start: nat, read: nat, quote: char, written: string, next: char)
    requires start <= read < |text| && Scanning(text, start, read, quote, written)
    requires ScanToken(text[read..], quote) ==
             ScanToken(text[read + 1..], next).(used := ScanToken(text[read + 1..], next).used + 1)
    ensures Scanning(text, start, read + 1, next, written)
  {
  }

  lemma ScanAt(text: string, read: nat, quote: char)
    requires read < |text|
    ensures var c := text[read];
      var one, two := text[read + 1..], if read + 1 < |text| then text[read + 2..] else "";
      ScanToken(text[read..], quote) ==
        if quote != NUL then
          if c == '\\' && read + 1 < |text| then Prepend(Unescape(text[read + 1]), 2, ScanToken(two, quote))
          else if c == quote then ScanToken(one, NUL).(used := ScanToken(one, NUL).used + 1)
          else Prepend(c, 1, ScanToken(one, quote))
        else if c == '\'' || c == '"' then ScanToken(one, c).(used := ScanToken(one, c).used + 1)
        else if IsCmdSpace(c) then Scan("", 1, true)
        else if c == '\\' && read + 1 < |text| then Prepend(Unescape(text[read + 1]), 2, ScanToken(two, NUL))
        else Prepend(c, 1, ScanToken(one, NUL))
  {
    var s := text[read..];
    assert s[0] == text[read];
    assert s[1..] == text[read + 1..];
    if read + 1 < |text| {
      assert s[1] == text[read + 1];
      assert s[2..] == text[read + 2..];
    }
  }

  /** One character inside quotes: an escape, the closing quote, or itself. */
  lemma ScanInside(text: string, start: nat, read: nat, quote: char, written: string)
    requires start <= read < |text| && quote != NUL && Scanning(text, start, read, quote, written)
    ensures var c := text[read];
      if c == '\\' && read + 1 < |text| then
        Scanning(text, start, read + 2, quote, written + [Unescape(text[read + 1])])
      else if c == quote then Scanning(text, start, read + 1, NUL, written)
      else Scanning(text, start, read + 1, quote, written + [c])
  {
    var c := text[read];
    ScanAt(text, read, quote);
    if c == '\\' && read + 1 < |text| {
      ScanKeeps(text, start, read, quote, written, Unescape(text[read + 1]), 2, quote);
    } else if c == quote {
      ScanSkips(text, start, read, quote, written, NUL);
    } else {
      ScanKeeps(text, start, read, quote, written, c, 1, quote);
    }
  }

  /** One character outside quotes: an opening quote, a blank that ends the token, an escape, or itself. */
  lemma ScanOutside(text: string, start: nat, read: nat, written: string)
    requires start <= read < |text| && Scanning(text, start, read, NUL, written)
    ensures var c := text[read];
      if c == '\'' || c == '"' then Scanning(text, start, read + 1, c, written)
      else if IsCmdSpace(c) then ScanToken(text[start..], NUL) == Scan(written, read + 1 - start, true)
      else if c == '\\' && read + 1 < |text| then
        Scanning(text, start, read + 2, NUL, written + [Unescape(text[read + 1])])
      else Scanning(text, start, read + 1, NUL, written + [c])
  {
    var c := text[read];
    ScanAt(text, read, NUL);
    if c == '\'' || c == '"' {
      ScanSkips(text, start, read, NUL, written, c);
    } else if IsCmdSpace(c) {
      assert written + "" == written;
    } else if c == '\\' && read + 1 < |text| {
      ScanKeeps(text, start, read, NUL, written, Unescape(text[read + 1]), 2, NUL);
    } else {
      ScanKeeps(text, start, read, NUL, written, c, 1, NUL);
    }
  }

  lemma ScanEnds(text: string, start: nat, quote: char, written: string)
    requires start <= |text| && Scanning(text, start, |text|, quote, written)
    ensures ScanToken(text[start..], NUL) == Scan(written, |text| - start, quote == NUL)
  {
    assert text[|text|..] == "";
    assert written + "" == written;
  }

  // ----- one token, in place

  /** The buffer holds the text from read on, ended by a NUL; before the scan began nothing changes. */
  ghost predicate Unread(buf: seq<char>, old_: seq<char>, text: string, from: nat, read: nat) {
    && |buf| == |old_| && from <= read <= |text| < |buf|
    && buf[..from] == old_[..from]
    && buf[read..] == old_[read..]
    && old_[read..|text|] == text[read..] && old_[|text|] == NUL
  }

  /** Where a scan stands in the buffer: the token so far lies compacted at start, behind it the rest
      of the line is untouched. */
  ghost predicate Standing(buf: seq<char>, was: seq<char>, text: string, start: nat, read: nat, write: nat,
                           written: string)
  {
    && Unread(buf, was, text, start, read)
    && start <= write <= read
    && buf[start..write] == written
  }

  lemma PutKeeps(buf: seq<char>, was: seq<char>, text: string, start: nat, read: nat, write: nat, written: string,
                 c: char, next: nat)
    requires Standing(buf, was, text, start, read, write, written) && read < next <= |text|
    ensures Standing(buf[write := c], was, text, start, next, write + 1, written + [c])
  {
    var after := buf[write := c];
    assert after[start..write + 1] == buf[start..write] + [c];
    assert after[..start] == buf[..start];
    assert after[next..] == buf[next..] == buf[read..][next - read..] == was[next..];
    assert was[next..|text|] == was[read..|text|][next - read..] == text[next..];
  }

  lemma SkipKeeps(buf: seq<char>, was: seq<char>, text: string, start: nat, read: nat, write: nat, written: string,
                  next: nat)
    requires Standing(buf, was, text, start, read, write, written) && read < next <= |text|
    ensures Standing(buf, was, text, start, next, write, written)
  {
    assert buf[next..] == buf[read..][next - read..] == was[next..];
    assert was[next..|text|] == was[read..|text|][next - read..] == text[next..];
  }

  lemma CloseKeeps(buf: seq<char>, was: seq<char>, text: string, start: nat, read: nat, write: nat, written: string)
    requires Standing(buf, was, text, start, read, write, written) && (write < read || read == |text|)
    ensures var after := buf[write := NUL];
      && Unread(after, was, text, start, read)
      && after[start..start + |written|] == written && after[start + |written|] == NUL
  {
    var after := buf[write := NUL];
    assert after[start..write] == buf[start..write];
    if write == read {
      assert buf[read] == buf[read..][0] == was[read..][0] == NUL;
      assert after == buf;
    } else {
      assert after[read..] == buf[read..];
      assert after[..start] == buf[..start];
    }
  }

  lemma UnreadChar(buf: seq<char>, was: seq<char>, text: string, start: nat, read: nat)
    requires Unread(buf, was, text, start, read) && NulFree(text)
    ensures read < |text| ==> buf[read] == text[read] && buf[read] != NUL
    ensures read == |text| ==> buf[read] == NUL
    ensures read + 1 < |text| ==> buf[read + 1] == text[read + 1] && buf[read + 1] != NUL
    ensures read + 1 == |text| ==> buf[read + 1] == NUL
  {
    assert buf[read] == buf[read..][0] == was[read..][0];
    if read < |text| {
      assert buf[read + 1] == buf[read..][1] == was[read..][1];
      assert text[read] == text[read..][0] == was[read..|text|][0];
      assert text[read] in text;
      if read + 1 < |text| {
        assert text[read + 1] == text[read..][1] == was[read..|text|][1];
        assert text[read + 1] in text;
      }
    }
  }

  /** What a turn of the token loop does with what it has read: writes a character, writes nothing, or
      ends the token. */
  datatype Act = Put(c: char) | Skip | Stop

  /** Reads one or two characters. */
  method ReadChar(line: array<char>, start: nat, read0: nat, quote0: char,
                  ghost text: string, ghost was: seq<char>, ghost written: string)
      returns (read: nat, quote: char, act: Act)
    requires NulFree(text) && start <= read0 < |text| && Unread(line[..], was, text, start, read0)
    requires Scanning(text, start, read0, quote0, written)
    ensures read0 < read <= |text|
    ensures match act
      case Put(c) => Scanning(text, start, read, quote, written + [c])
      case Skip => Scanning(text, start, read, quote, written)
      case Stop => quote == NUL && ScanToken(text[start..], NUL) == Scan(written, read - start, true)
  {
    UnreadChar(line[..], was, text, start, read0);
    quote := quote0;
    var c := line[read0];
    read := read0 + 1;
    if quote != NUL {
      ScanInside(text, start, read0, quote, written);
      if c == '\\' && line[read] != NUL {
        c := Unescape(line[read]);
        read := read + 1;
      } else if c == quote {
        return read, NUL, Skip;
      }
    } else {
      ScanOutside(text, start, read0, written);
      if c == '\'' || c == '"' {
        return read, c, Skip;
      }
      if IsCmdSpace(c) {
        return read, quote, Stop;
      }
      if c == '\\' && line[read] != NUL {
        c := Unescape(line[read]);
        read := read + 1;
      }
    }
    act := Put(c);
  }

  /** One turn of the token loop: reads one or two characters and writes none or one. */
  method TakeChar(line: array<char>, start: nat, read0: nat, write0: nat, quote0: char,
                  ghost text: string, ghost was: seq<char>, ghost written0: string)
      returns (read: nat, write: nat, quote: char, stop: bool, ghost written: string)
    requires NulFree(text) && start <= read0 < |text|
    requires Standing(line[..], was, text, start, read0, write0, written0)
    requires Scanning(text, start, read0, quote0, written0)
    modifies line
    ensures read0 < read && Standing(line[..], was, text, start, read, write, written)
    ensures stop ==> write < read && quote == NUL && ScanToken(text[start..], NUL) == Scan(written, read - start, true)
    ensures !stop ==> Scanning(text, start, read, quote, written)
  {
    var act;
    read, quote, act := ReadChar(line, start, read0, quote0, text, was, written0);
    write, stop, written := write0, act.Stop?, written0;
    if act.Put? {
      PutKeeps(line[..], was, text, start, read0, write, written, act.c, read);
      line[write] := act.c;
      write := write + 1;
      written := written + [act.c];
    } else {
      SkipKeeps(line[..], was, text, start, read0, write, written, read);
    }
  }

  /** The token loop: compacts the token that begins at start over its own text and ends it. */
  method ScanTokenInPlace(line: array<char>, start: nat, ghost text: string) returns (read: nat, closed: bool)
    requires NulFree(text) && start < |text| && Unread(line[..], line[..], text, start, start)
    modifies line
    ensures var t := ScanToken(text[start..], NUL);
      && read == start + t.used && closed == t.closed
      && Unread(line[..], old(line[..]), text, start, read)
      && (closed ==>
            && line[start..start + |t.token|] == t.token && line[start + |t.token|] == NUL
            && (read < |text| ==> start + |t.token| < read))
  {
    var write: nat, quote, stop := start, NUL, false;
    read := start;
    ghost var written, was := "", line[..];
    ScanBegins(text, start);
    UnreadChar(line[..], was, text, start, read);
    while !stop && line[read] != NUL
      invariant read <= |text| && Standing(line[..], was, text, start, read, write, written)
      invariant stop ==> write < read && quote == NUL
      invariant stop ==> ScanToken(text[start..], NUL) == Scan(written, read - start, true)
      invariant !stop ==> Scanning(text, start, read, quote, written) && (line[read] == NUL <==> read == |text|)
      decreases |text| - read, !stop
    {
      read, write, quote, stop, written := TakeChar(line, start, read, write, quote, text, was, written);
      UnreadChar(line[..], was, text, start, read);
    }
    if !stop {
      ScanEnds(text, start, quote, written);
    }
    if quote != NUL {
      return read, false;
    }
    CloseKeeps(line[..], was, text, start, read, write, written);
    line[write] := NUL;
    return read, true;
  }

  // ----- the whole line

  /** The outcome of a line whose first tokens are known and whose rest comes to more. */
  function Resume(tokens: seq<string>, more: Result<seq<string>>): Result<seq<string>> {
    if more.Failure? then more else Value(tokens + more.value)
  }

  lemma ResumeFacts(tokens: seq<string>, token: string, more: Result<seq<string>>)
    ensures Resume([], more) == more
    ensures Resume(tokens, Value([])) == Value(tokens)
    ensures Resume(tokens, Resume([token], more)) == Resume(tokens + [token], more)
  {
    if more.Value? {
      assert [] + more.value == more.value;
      Assoc(tokens, [token], more.value);
    }
    assert tokens + [] == tokens;
  }

  /** The tokens found so far and the rest of the line make up the outcome. */
  ghost predicate Splitting(outcome: Result<seq<string>>, text: string, left: nat, read: nat, tokens: seq<string>)
    requires read <= |text|
  {
    outcome == Resume(tokens, Split(text[read..], left))
  }

  /** The blanks before a token make no difference. */
  lemma SplitSkips(text: string, read: nat, room: nat, next: nat)
    requires read <= |text| && next == read + Spaces(text[read..])
    ensures next <= |text| && Split(text[read..], room) == Split(text[next..], room)
    ensures next < |text| ==> !IsCmdSpace(text[next])
  {
    var s := text[read..];
    assert s[Spaces(s)..] == text[next..];
    if next < |text| {
      SpacesEnd(s);
      assert s[Spaces(s)] == text[next];
      var rest := text[next..];
      assert Spaces(rest) == 0;
      assert rest[0..] == rest;
    } else {
      assert text[next..] == "";
    }
  }

  /** At a token: too many, an unclosed quote, or one more token. */
  lemma SplitToken(text: string, read: nat, room: nat, t: Scan)
    requires read < |text| && !IsCmdSpace(text[read]) && t == ScanToken(text[read..], NUL)
    ensures 0 < t.used && read + t.used <= |text|
    ensures Split(text[read..], room) ==
      if room == 0 then Failure(E2BIG)
      else if !t.closed then Failure(EINVAL)
      else Resume([t.token], Split(text[read + t.used..], room - 1))
  {
    var rest := text[read..];
    SplitHead(rest, room);
    ScanProgress(rest, NUL);
    assert rest[t.used..] == text[read + t.used..];
  }

  lemma Chain(outcome: Result<seq<string>>, tokens: seq<string>, token: string,
              more: Result<seq<string>>, later: Result<seq<string>>)
    requires outcome == Resume(tokens, more) && more == Resume([token], later)
    ensures outcome == Resume(tokens + [token], later)
  {
    ResumeFacts(tokens, token, later);
  }

  lemma SplittingSkips(outcome: Result<seq<string>>, text: string, left: nat, read: nat, tokens: seq<string>, next: nat)
    requires read <= |text| && Splitting(outcome, text, left, read, tokens) && next == read + Spaces(text[read..])
    ensures next <= |text| && Splitting(outcome, text, left, next, tokens)
    ensures next < |text| ==> !IsCmdSpace(text[next])
  {
    SplitSkips(text, read, left, next);
  }

  lemma SplittingDone(outcome: Result<seq<string>>, text: string, left: nat, tokens: seq<string>)
    requires Splitting(outcome, text, left, |text|, tokens)
    ensures outcome == Value(tokens)
  {
    assert text[|text|..] == "";
    SplitNothing(left);
    ResumeFacts(tokens, "", Value([]));
  }

  lemma SplittingTakes(outcome: Result<seq<string>>, text: string, left: nat, read: nat, tokens: seq<string>,
                       t: Scan, next: nat)
    requires read < |text| && !IsCmdSpace(text[read]) && Splitting(outcome, text, left, read, tokens)
    requires t == ScanToken(text[read..], NUL) && next == read + t.used
    ensures read < next <= |text|
    ensures left == 0 ==> outcome == Failure(E2BIG)
    ensures left > 0 && !t.closed ==> outcome == Failure(EINVAL)
    ensures left > 0 && t.closed ==> Splitting(outcome, text, left - 1, next, tokens + [t.token])
  {
    SplitToken(text, read, left, t);
    if left > 0 && t.closed {
      Chain(outcome, tokens, t.token, Split(text[read..], left), Split(text[next..], left - 1));
    }
  }

  /** A round from read on: the blanks up to start, then nothing, or a token up to next. */
  lemma SplittingRound(outcome: Result<seq<string>>, text: string, left: nat, read: nat, tokens: seq<string>)
      returns (start: nat, t: Scan, next: nat)
    requires read <= |text| && Splitting(outcome, text, left, read, tokens)
    ensures start == read + Spaces(text[read..]) <= |text|
    ensures start == |text| ==> Splitting(outcome, text, left, start, tokens)
    ensures start < |text| ==>
      && t == ScanToken(text[start..], NUL) && next == start + t.used && start < next <= |text|
      && (left == 0 ==> outcome == Failure(E2BIG))
      && (left > 0 && !t.closed ==> outcome == Failure(EINVAL))
      && (left > 0 && t.closed ==> Splitting(outcome, text, left - 1, next, tokens + [t.token]))
  {
    start, t, next := read + Spaces(text[read..]), Scan("", 0, true), 0;
    SplittingSkips(outcome, text, left, read, tokens, start);
    if start < |text| {
      t := ScanToken(text[start..], NUL);
      next := start + t.used;
      SplittingTakes(outcome, text, left, start, tokens, t, next);
    }
  }

  /** Token k of the list lies in the buffer where argv[k] points, ended by a NUL, before anything that
      is still to be read, and before the next token. */
  ghost predicate Placed(buf: seq<char>, argv: seq<nat>, tokens: seq<string>, read: nat, len: nat) {
    && len < |buf| && read <= len && |tokens| <= |argv|
    && (forall k :: 0 <= k < |tokens| ==> Held(buf, argv[k], tokens[k], read, len))
    && (forall k :: 0 < k < |tokens| ==> argv[k - 1] + |tokens[k - 1]| < argv[k])
  }

  ghost predicate Held(buf: seq<char>, at: nat, token: string, read: nat, len: nat)
    requires len < |buf|
  {
    at + |token| <= len && (read < len ==> at + |token| < read)
    && buf[at..at + |token|] == token && buf[at + |token|] == NUL
  }

  lemma HeldKeeps(buf: seq<char>, after: seq<char>, at: nat, token: string, read: nat, next: nat, len: nat)
    requires |buf| == |after| && read < len < |buf| && Held(buf, at, token, read, len)
    requires read <= next && buf[..read] == after[..read]
    ensures Held(after, at, token, next, len)
  {
    assert after[at..at + |token|] == after[..read][at..at + |token|] == buf[..read][at..at + |token|];
    assert after[at + |token|] == after[..read][at + |token|] == buf[..read][at + |token|];
  }

  lemma PlacedKeeps(buf: seq<char>, after: seq<char>, argv: seq<nat>, tokens: seq<string>, read: nat, next: nat,
                    len: nat)
    requires |buf| == |after| && read < len && Placed(buf, argv, tokens, read, len)
    requires read <= next <= len && buf[..read] == after[..read]
    ensures Placed(after, argv, tokens, next, len)
  {
    forall k | 0 <= k < |tokens|
      ensures Held(after, argv[k], tokens[k], next, len)
    {
      HeldKeeps(buf, after, argv[k], tokens[k], read, next, len);
    }
  }

  /** Zeroes the blanks before a token. */
  method SkipSpaces(line: array<char>, read0: nat, ghost text: string) returns (read: nat)
    requires NulFree(text) && read0 <= |text| && Unread(line[..], line[..], text, 0, read0)
    modifies line
    ensures read == read0 + Spaces(text[read0..]) <= |text|
    ensures Unread(line[..], old(line[..]), text, read0, read)
  {
    read := read0;
    ghost var was := line[..];
    UnreadChar(line[..], was, text, 0, read);
    while line[read] != NUL && IsCmdSpace(line[read])
      invariant read0 <= read <= |text| && Unread(line[..], was, text, read0, read)
      invariant read + Spaces(text[read..]) == read0 + Spaces(text[read0..])
      invariant line[read] == if read < |text| then text[read] else NUL
      decreases |text| - read
    {
      assert text[read..][1..] == text[read + 1..];
      UnreadChar(line[..], was, text, read0, read);
      ghost var buf := line[..];
      line[read] := NUL;
      assert line[..] == buf[read := NUL];
      assert line[..][read + 1..] == buf[read..][1..];
      assert line[..][..read0] == buf[..read0];
      assert was[read + 1..] == was[read..][1..];
      assert was[read + 1..|text|] == was[read..|text|][1..];
      read := read + 1;
      UnreadChar(line[..], was, text, read0, read);
    }
  }

  lemma PlacedAdds(buf: seq<char>, after: seq<char>, argv: seq<nat>, argv': seq<nat>, tokens: seq<string>,
                   token: string, start: nat, read: nat, len: nat)
    requires |buf| == |after| && start < len && Placed(buf, argv, tokens, start, len)
    requires start <= read <= len && buf[..start] == after[..start]
    requires |tokens| < |argv'| && argv'[..|tokens|] == argv[..|tokens|] && argv'[|tokens|] == start
    requires Held(after, start, token, read, len)
    ensures Placed(after, argv', tokens + [token], read, len)
  {
    var all := tokens + [token];
    assert forall k :: 0 <= k < |tokens| ==> argv'[k] == argv'[..|tokens|][k] == argv[k];
    forall k | 0 <= k < |all|
      ensures Held(after, argv'[k], all[k], read, len)
    {
      if k < |tokens| {
        HeldKeeps(buf, after, argv[k], tokens[k], start, read, len);
      }
    }
    if tokens != [] {
      assert Held(buf, argv[|tokens| - 1], tokens[|tokens| - 1], start, len);
    }
  }

  lemma UnreadFrom(buf: seq<char>, was: seq<char>, text: string, read: nat)
    requires Unread(buf, was, text, 0, read)
    ensures Unread(buf, buf, text, 0, read) && Unread(buf, buf, text, read, read)
  {
    assert buf[read..|text|] == buf[read..][..|text| - read] == was[read..][..|text| - read] == was[read..|text|];
    assert buf[|text|] == buf[read..][|text| - read] == was[read..][|text| - read] == was[|text|];
  }

  lemma UnreadThen(was: seq<char>, mid: seq<char>, buf: seq<char>, text: string, read: nat, next: nat)
    requires Unread(mid, was, text, 0, read) && Unread(buf, mid, text, read, next)
    ensures Unread(buf, was, text, 0, next)
  {
    assert buf[next..] == mid[next..] == mid[read..][next - read..] == was[read..][next - read..] == was[next..];
    assert was[next..|text|] == was[read..|text|][next - read..] == text[next..];
  }

  lemma WholeUnread(buf: seq<char>)
    requires NUL in buf
    ensures Unread(buf, buf, CStr(buf), 0, 0)
  {
    CStrEnds(buf);
    assert buf[0..|CStr(buf)|] == CStr(buf)[0..];
  }

  /** The blanks before a token, seen from the whole line. */
  method SkipBlanks(line: array<char>, read0: nat, ghost text: string, ghost was: seq<char>,
                    ghost argv: seq<nat>, ghost tokens: seq<string>, ghost start: nat) returns (read: nat)
    requires NulFree(text) && read0 < |text| && Unread(line[..], was, text, 0, read0)
    requires Placed(line[..], argv, tokens, read0, |text|) && start == read0 + Spaces(text[read0..])
    modifies line
    ensures read0 <= read <= |text| && read == start
    ensures Unread(line[..], was, text, 0, read) && Placed(line[..], argv, tokens, read, |text|)
    ensures line[read] == NUL <==> read == |text|
  {
    ghost var a := line[..];
    UnreadFrom(a, was, text, read0);
    read := SkipSpaces(line, read0, text);
    ghost var b := line[..];
    UnreadThen(was, a, b, text, read0, read);
    PlacedKeeps(a, b, argv, tokens, read0, read, |text|);
    UnreadChar(b, was, text, 0, read);
  }

  /** One round of the splitter: the blanks up to start, then a token t up to next if there is one. */
  method NextToken(line: array<char>, argv: array<nat>, argvMax: nat, read0: nat, argc: nat,
                   ghost text: string, ghost was: seq<char>, ghost tokens: seq<string>,
                   ghost start: nat, ghost t: Scan, ghost next: nat)
      returns (read: nat, ret: Result<nat>)
    requires NulFree(text) && read0 < |text| && Unread(line[..], was, text, 0, read0)
    requires argc == |tokens| <= argvMax <= argv.Length && Placed(line[..], argv[..], tokens, read0, |text|)
    requires start == read0 + Spaces(text[read0..]) <= |text|
    requires start < |text| ==> t == ScanToken(text[start..], NUL) && next == start + t.used
    modifies line, argv
    ensures read <= |text| && Unread(line[..], was, text, 0, read)
    ensures if start == |text| then
        read == start && ret == Value(argc) && Placed(line[..], argv[..], tokens, read, |text|)
      else if argc == argvMax then ret == Failure(E2BIG)
      else if !t.closed then ret == Failure(EINVAL)
      else read == next && ret == Value(argc + 1) && Placed(line[..], argv[..], tokens + [t.token], read, |text|)
  {
    read := SkipBlanks(line, read0, text, was, argv[..], tokens, start);
    ret := Value(argc);
    if line[read] != NUL {
      if argc >= argvMax {
        ret := Failure(E2BIG);
      } else {
        var closed;
        read, closed := TakeToken(line, argv, read, argc, text, was, tokens, t, next);
        ret := if closed then Value(argc + 1) else Failure(EINVAL);
      }
    }
  }

  /** A token: recorded in argv and compacted. */
  method TakeToken(line: array<char>, argv: array<nat>, start: nat, argc: nat,
                   ghost text: string, ghost was: seq<char>, ghost tokens: seq<string>, ghost t: Scan, ghost next: nat)
      returns (read: nat, closed: bool)
    requires next == start + t.used
    requires NulFree(text) && start < |text| && Unread(line[..], was, text, 0, start)
    requires t == ScanToken(text[start..], NUL)
    requires argc == |tokens| < argv.Length && Placed(line[..], argv[..], tokens, start, |text|)
    modifies line, argv
    ensures read == next <= |text| && closed == t.closed && Unread(line[..], was, text, 0, read)
    ensures closed ==> Placed(line[..], argv[..], tokens + [t.token], read, |text|)
  {
    ghost var b, argvWas := line[..], argv[..];
    UnreadFrom(b, was, text, start);
    argv[argc] := start;
    ghost var argvNow := argv[..];
    assert argvNow[..argc] == argvWas[..argc] && argvNow[argc] == start;
    read, closed := ScanTokenInPlace(line, start, text);
    ghost var c := line[..];
    UnreadThen(was, b, c, text, start, read);
    if closed {
      assert Held(c, start, t.token, read, |text|);
      PlacedAdds(b, c, argvWas, argvNow, tokens, t.token, start, read, |text|);
    }
  }

  /** Splits a command line in its own buffer. The outcome is the tokenizer's: the same number of
      tokens, each lying in the buffer where its argv entry points, or the same error. Nothing beyond
      the line is touched. */
  method SplitArgsQuoted(line: array<char>, argv: array<nat>, argvMax: nat) returns (ret: Result<nat>)
    requires argvMax <= argv.Length && NUL in line[..]
    modifies line, argv
    ensures argvMax == 0 ==> ret == Failure(EINVAL) && line[..] == old(line[..])
    ensures var text := CStr(old(line[..]));
      && |text| < line.Length
      && line[|text|..] == old(line[..])[|text|..]
      && (argvMax > 0 ==>
            match Split(text, argvMax)
            case Failure(e) => ret == Failure(e)
            case Value(tokens) =>
              ret == Value(|tokens|) && Placed(line[..], argv[..], tokens, |text|, |text|))
  {
    ghost var was := line[..];
    ghost var text := CStr(was);
    WholeUnread(was);
    if argvMax == 0 {
      ret := Failure(EINVAL);
    } else {
      assert text[0..] == text;
      ResumeFacts([], "", Split(text, argvMax));
      ghost var tokens;
      ret, tokens := SplitLoop(line, argv, argvMax, text, was, Split(text, argvMax));
    }
  }

  /** The splitter's loop. */
  method SplitLoop(line: array<char>, argv: array<nat>, argvMax: nat,
                   ghost text: string, ghost was: seq<char>, ghost outcome: Result<seq<string>>)
      returns (ret: Result<nat>, ghost tokens: seq<string>)
    requires argvMax <= argv.Length && NulFree(text) && line[..] == was && Unread(was, was, text, 0, 0)
    requires Splitting(outcome, text, argvMax, 0, [])
    modifies line, argv
    ensures line[|text|..] == was[|text|..]
    ensures ret.Failure? ==> outcome == Failure(ret.error)
    ensures ret.Value? ==> outcome == Value(tokens) && ret.value == |tokens|
                           && Placed(line[..], argv[..], tokens, |text|, |text|)
  {
    var read: nat := 0;
    ret := Value(0);
    tokens := [];
    ghost var left: nat := argvMax;
    UnreadChar(was, was, text, 0, 0);
    while ret.Value? && line[read] != NUL
      invariant read <= |text| && Unread(line[..], was, text, 0, read)
      invariant ret.Failure? ==> outcome == Failure(ret.error)
      invariant ret.Value? ==>
        && Splitting(outcome, text, left, read, tokens) && ret.value == |tokens| && |tokens| + left == argvMax
        && Placed(line[..], argv[..], tokens, read, |text|) && (line[read] == NUL <==> read == |text|)
      decreases ret.Value?, |text| - read
    {
      ghost var start, t, next := SplittingRound(outcome, text, left, read, tokens);
      read, ret := NextToken(line, argv, argvMax, read, ret.value, text, was, tokens, start, t, next);
      UnreadChar(line[..], was, text, 0, read);
      if start < |text| {
        tokens, left := tokens + [t.token], if left > 0 then left - 1 else 0;
      }
    }
    UnreadBeyond(line[..], was, text, read);
    if ret.Value? {
      SplittingDone(outcome, text, left, tokens);
    }
  }

  lemma UnreadBeyond(buf: seq<char>, was: seq<char>, text: string, read: nat)
    requires Unread(buf, was, text, 0, read)
    ensures buf[|text|..] == was[|text|..]
  {
    assert buf[|text|..] == buf[read..][|text| - read..] == was[read..][|text| - read..];
  }

  // ----- reading argv back as C strings

  lemma {:induction false} ScanNulFree(s: string, quote: char)
    requires NulFree(s)
    ensures NulFree(ScanToken(s, quote).token)
    decreases |s|
  {
    if s != "" {
      assert s[0] in s;
      ScanNulFree(s[1..], quote);
      ScanNulFree(s[1..], NUL);
      ScanNulFree(s[1..], s[0]);
      if |s| > 1 {
        assert s[1] in s;
        ScanNulFree(s[2..], quote);
      }
    }
  }

  lemma {:induction false} SplitNulFree(s: string, room: nat)
    requires NulFree(s) && Split(s, room).Value?
    ensures forall token :: token in Split(s, room).value ==> NulFree(token)
    decreases |s|
  {
    var rest := s[Spaces(s)..];
    if rest != "" {
      ScanProgress(rest, NUL);
      ScanNulFree(rest, NUL);
      SplitNulFree(rest[ScanToken(rest, NUL).used..], room - 1);
    }
  }

  /** Every argv entry of a successful split is the C string of its token, and the strings do not
      overlap. */
  lemma ArgvHoldsTokens(buf: seq<char>, argv: seq<nat>, text: string, room: nat, k: nat)
    requires NulFree(text) && |text| < |buf| && Split(text, room).Value?
    requires Placed(buf, argv, Split(text, room).value, |text|, |text|) && k < |Split(text, room).value|
    ensures argv[k] <= |text| && CStr(buf[argv[k]..]) == Split(text, room).value[k]
    ensures k > 0 ==> argv[k - 1] + |CStr(buf[argv[k - 1]..])| < argv[k]
  {
    var tokens := Split(text, room).value;
    SplitNulFree(text, room);
    HeldReads(buf, argv[k], tokens[k], |text|);
    assert tokens[k] in tokens;
    if k > 0 {
      assert tokens[k - 1] in tokens;
      HeldReads(buf, argv[k - 1], tokens[k - 1], |text|);
    }
  }

  lemma HeldReads(buf: seq<char>, at: nat, token: string, len: nat)
    requires len < |buf| && Held(buf, at, token, len, len) && NulFree(token)
    ensures CStr(buf[at..]) == token
  {
    var rest := buf[at + |token|..];
    assert buf[at..] == buf[at..at + |token|] + rest;
    CStrOf(token, rest);
  }
}

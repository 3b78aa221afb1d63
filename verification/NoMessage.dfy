/** Transmit commands without a message of their own: the message is looked for on the raw line. */
module NoMessage {
  import opened Errno
  import opened Text
  import opened Args
  import opened RawLine
  import opened RawSplit
  import opened Payload
  import opened Transmit
  import CommandWrite

  /** A line as the command handler passes it on. */
  predicate Whole(line: string) {
    NulFree(line) && |line| < CommandWrite.CMD_TEXT_MAX
  }

  lemma ParsesWhole(line: string)
    requires Whole(line)
    ensures Parse(line) == var words := Tokens(line, ARGV_MAX);
      if words.Failure? then Unparsable(words.error) else Understand(words.value, line)
  {
    WholeCStr(line);
  }

  lemma RawWordsOf(words: seq<string>, line: string)
    requires Understand(words, line).TxRaw?
    ensures var rest := BehindPrefix(BehindId(words));
      |rest| == 2 && rest[0] == "tx" && IsBle(rest[1]) && Understand(words, line).tail == RawTail(line)
  {
  }

  lemma PrefixScans(t: string)
    requires RawPrefixed(t)
    ensures ScanToken(t, NUL).token == "wt"
  {
    PrefixIsWord(t);
    SpacesOnce(t);
    WordParts(t);
    ScanWord("wt", AfterWord(t));
  }

  lemma IdScans(t: string)
    requires t != "" && t[0] == '#'
    ensures ScanToken(t, NUL).token != "" && ScanToken(t, NUL).token[0] == '#'
  {
  }

  lemma WordBefore(t: string)
    ensures |WordOf(t)| <= |t| && forall i :: 0 <= i < |WordOf(t)| ==> !IsCmdSpace(t[i])
  {
    WordParts(t);
    forall i | 0 <= i < |WordOf(t)|
      ensures !IsCmdSpace(t[i])
    {
      assert t[i] == WordOf(t)[i];
    }
  }

  lemma WordPassed(t: string, u: nat, rest: string)
    requires 0 < u < |t| && IsCmdSpace(t[u - 1]) && rest == t[u..]
    ensures var v, e := AfterWord(t), |WordOf(t)|;
      && e < u && |v| == |t| - e && rest == v[u - e..] && v[0] == t[e] && v[u - e - 1] == t[u - 1]
  {
    var i := u - 1;
    WordBefore(t);
    WordParts(t);
    assert IsCmdSpace(t[i]);
    assert AfterWord(t) == t[|WordOf(t)|..];
  }

  /** A first word that begins with '#' on the raw line is a request id for the splitter as well; if the
      prefix follows on the raw line, two more words do. */
  lemma IdAndPrefix(line: string, t: string, u: nat, rest: string, left: nat, more: seq<string>)
    requires t == AfterSpaces(line) != "" && t[0] == '#' && 0 < u <= |t| && rest == t[u..]
    requires u == |t| || IsCmdSpace(t[u - 1])
    requires Tokens(rest, left) == Value(more) && |more| == 2 && more[0] == "tx"
    requires RawPrefixed(AfterToken(t))
    ensures Count(line) >= 4
  {
    var v, e := AfterWord(t), |WordOf(t)|;
    var t2, u2, rest2, left2, more2 := SplitsFirst(rest, left, more);
    WordPassed(t, u, rest);
    BlanksOrWord(v, u - e, rest);
    SpacesOnce(t);
    PrefixScans(AfterToken(t));
    assert AfterSpaces(rest) != AfterSpaces(v);
    SplitAtMost(rest, left, more);
    SameWords(line);
    assert RawWords(t) == [WordOf(t)] + RawWords(v);
  }

  lemma WithoutId(line: string, words: seq<string>, t: string)
    requires Understand(words, line).TxRaw? && |words| <= Count(line)
    requires words != [] && t == AfterSpaces(line) != "" && t[0] != '#' && words[0] == ScanToken(t, NUL).token
    ensures Count(line) >= Skipped(line) + 2
  {
    RawWordsOf(words, line);
    SameWords(line);
    SpacesOnce(t);
    WordParts(t);
    assert RawWords(line)[0] == WordOf(t);
    if RawPrefixed(t) {
      PrefixScans(t);
    }
  }

  lemma WithId(line: string, words: seq<string>, t: string, u: nat, rest: string, left: nat, more: seq<string>)
    requires Understand(words, line).TxRaw? && |words| <= Count(line)
    requires t == AfterSpaces(line) != "" && t[0] == '#' && 0 < u <= |t| && rest == t[u..]
    requires u == |t| || IsCmdSpace(t[u - 1])
    requires words == [ScanToken(t, NUL).token] + more && Tokens(rest, left) == Value(more)
    ensures Count(line) >= Skipped(line) + 2
  {
    RawWordsOf(words, line);
    IdScans(t);
    assert BehindId(words) == more;
    if RawPrefixed(RawBehindId(line)) && |more| == 2 {
      SpacesOnce(t);
      IdAndPrefix(line, t, u, rest, left, more);
    }
  }

  /** The splitter's two words of the command are at least two words on the raw line as well. */
  lemma TwoFollow(line: string)
    requires Whole(line) && Parse(line).TxRaw?
    ensures |RawWords(line)| >= Skipped(line) + 2 && Parse(line).tail == RawTail(line)
  {
    ParsesWhole(line);
    var words := Tokens(line, ARGV_MAX).value;
    RawWordsOf(words, line);
    SplitAtMost(line, ARGV_MAX, words);
    var t, u, rest, left, more := SplitsFirst(line, ARGV_MAX, words);
    if t[0] == '#' {
      WithId(line, words, t, u, rest, left, more);
    } else {
      WithoutId(line, words, t);
    }
  }

  lemma TailWords(tail: string)
    requires tail != "" && !IsCmdSpace(tail[0]) && |tail| < CommandWrite.CMD_TEXT_MAX
    ensures TailPayload(Some(tail)) ==
      var words := Tokens(tail, TAIL_ARGV_MAX);
      if words.Failure? then Failure(words.error) else Joined(words.value)
  {
    SplitHead(tail, TAIL_ARGV_MAX);
  }

  /** A transmit command without a message, exactly. On the raw line two words at least follow those
      skipped. If they are all, there is nothing to transmit; else the words behind them are the message,
      and it is transmitted unless they cannot be split or are too long when joined. */
  lemma RawPayloadExactly(line: string)
    requires Whole(line) && Parse(line).TxRaw?
    ensures var words, n, payload := RawWords(line), Skipped(line), PayloadOf(Parse(line));
      && |words| >= n + 2
      && (|words| == n + 2 <==> RawTail(line).None?)
      && (|words| == n + 2 ==> payload == Failure(EINVAL))
      && (|words| > n + 2 ==>
            RawWords(RawTail(line).value) == words[n + 2..]
            && payload == (var args := Split(RawTail(line).value, 12);
                           if args.Failure? then Failure(args.error)
                           else if |JoinArgs(args.value)| < 244 then Value(JoinArgs(args.value))
                           else Failure(EMSGSIZE)))
  {
    TwoFollow(line);
    TailExactly(line);
    if RawTail(line).Some? {
      TailWords(RawTail(line).value);
    }
  }

  /** Without quotes and backslashes a transmit command without a message transmits nothing exactly if it
      has no prefix, or one followed by a blank or a tab; a prefix followed by another white space is
      taken for the first word of the command, and what is transmitted is the command's second word. */
  lemma UnquotedTransmitsExactly(line: string)
    requires Unquoted(line) && Whole(line) && Parse(line).TxRaw?
    ensures var behindId, payload := RawWords(RawBehindId(line)), PayloadOf(Parse(line));
      && behindId != []
      && payload == if behindId[0] != "wt" || RawPrefixed(RawBehindId(line)) then Failure(EINVAL)
                    else Value(behindId[|behindId| - 1])
  {
    ParsesWhole(line);
    WordsUnquoted(line);
    SplitUnquoted(line, ARGV_MAX);
    var words, b := RawWords(line), RawBehindId(line);
    RawWordsOf(words, line);
    RawPayloadExactly(line);
    BehindIdWords(line);
    IdsAgree(line);
    assert RawWords(b) == BehindId(words);
    if RawPrefixed(b) {
      PrefixIsWord(b);
    } else if RawWords(b)[0] == "wt" {
      var name := words[|words| - 1];
      assert words[Skipped(line) + 2..] == [name];
      OneWordMessage(RawTail(line).value, name);
    }
  }

  lemma IdsAgree(line: string)
    ensures HasId(RawWords(line)) <==> RawWords(line) != [] && RawWords(line)[0][..1] == "#"
  {
    var t := AfterSpaces(line);
    if t != "" {
      WordParts(t);
      assert RawWords(line)[0] == WordOf(t);
      assert WordOf(t)[..1][0] == WordOf(t)[0];
    }
  }

  lemma OneWordMessage(tail: string, name: string)
    requires RawWords(tail) == [name] && IsBle(name)
    ensures Split(tail, TAIL_ARGV_MAX) == Value([name]) && JoinArgs([name]) == name
  {
    assert RawWords(tail)[0] == name;
    SplitUnquoted(tail, TAIL_ARGV_MAX);
  }

  // ----- printed commands without a message

  lemma TxAlone(id: Option<string>, prefixed: bool, name: string, line: string)
    requires IsBle(name)
    ensures Understand(TxWords(id, prefixed, name), line).TxRaw?
    ensures BehindId(TxWords(id, prefixed, name)) == TxWords(None, prefixed, name)
  {
    var words := TxWords(id, prefixed, name);
    assert BehindId(words) == TxWords(None, prefixed, name);
    assert BehindPrefix(TxWords(None, prefixed, name)) == ["tx", name];
  }

  lemma BareIsPlain(word: string)
    requires Bare(word)
    ensures Solid(word) && Unquoted(word)
  {
    assert forall i :: 0 <= i < |word| ==> !IsJsSpace(word[i]);
    assert forall i :: 0 <= i < |word| ==> word[i] in word;
  }

  lemma {:induction false} JoinUnquoted(words: seq<string>)
    requires forall w :: w in words ==> Unquoted(w)
    ensures Unquoted(JoinArgs(words))
  {
    if words != [] {
      assert words[0] in words && forall w :: w in words[1..] ==> w in words;
      JoinUnquoted(words[1..]);
    }
  }

  lemma PrintedBehindId(words: seq<string>)
    requires words != [] && words[0] != "" && forall w :: w in words ==> Solid(w)
    ensures RawBehindId(JoinArgs(words)) == JoinArgs(if words[0][..1] == "#" then words[1..] else words)
  {
    TokenOff(words);
    SpacesOnce(JoinArgs(words));
    assert words[0][..1][0] == words[0][0];
  }

  /** Printed with single blanks and without quotes, a transmit command without a message transmits
      nothing. */
  lemma NothingToTransmit(id: Option<string>, prefixed: bool, name: string)
    requires IsBle(name) && (id.Some? ==> Bare("#" + id.value))
    requires |JoinArgs(TxWords(id, prefixed, name))| < CommandWrite.CMD_TEXT_MAX
    ensures var c := Parse(JoinArgs(TxWords(id, prefixed, name)));
      c.TxRaw? && PayloadOf(c) == Failure(EINVAL)
  {
    var words := TxWords(id, prefixed, name);
    var line := JoinArgs(words);
    TxWordsBare(id, prefixed, name);
    assert words + Quoted([]) == words && words + [] == words;
    LineSplits(words, [], line);
    TxAlone(id, prefixed, name, line);
    PrintedPlain(words, line);
    PrintedPrefix(id, prefixed, name);
    UnquotedTransmitsExactly(line);
  }

  lemma PrintedPlain(words: seq<string>, line: string)
    requires (forall w :: w in words ==> Bare(w)) && line == JoinArgs(words)
    ensures Unquoted(line) && NulFree(line) && RawWords(line) == words
    ensures forall w :: w in words ==> Solid(w)
  {
    forall w | w in words
      ensures Solid(w) && Unquoted(w)
    {
      BareIsPlain(w);
    }
    JoinUnquoted(words);
    SolidWords(words);
  }

  lemma PrintedPrefix(id: Option<string>, prefixed: bool, name: string)
    requires IsBle(name) && (id.Some? ==> Bare("#" + id.value))
    ensures var b := RawBehindId(JoinArgs(TxWords(id, prefixed, name)));
      RawWords(b) == TxWords(None, prefixed, name) && (prefixed ==> RawPrefixed(b))
  {
    var words, behind := TxWords(id, prefixed, name), TxWords(None, prefixed, name);
    TxWordsBare(id, prefixed, name);
    TxWordsBare(None, prefixed, name);
    PrintedPlain(words, JoinArgs(words));
    PrintedPlain(behind, JoinArgs(behind));
    PrintedBehindId(words);
    assert id.Some? ==> ("#" + id.value)[..1] == "#" && words[1..] == behind;
    if prefixed {
      assert behind[0] == "wt" && behind[1..] == ["tx", name];
      assert JoinArgs(behind) == "wt" + " " + JoinArgs(behind[1..]);
    }
  }

  // ----- and those that transmit all the same

  /** Behind a line break the prefix counts as a word: the command's second word is transmitted. */
  lemma BreakTransmitsName(stop: char, name: string)
    requires (stop == '\n' || stop == '\r') && IsBle(name)
    ensures var c := Parse("wt" + [stop] + ("tx" + " " + name));
      c.TxRaw? && PayloadOf(c) == Value(name)
  {
    var tail := "tx" + " " + name;
    var line := "wt" + [stop] + tail;
    TxWordsBare(None, false, name);
    assert TxWords(None, false, name) == ["tx", name] && ["tx", name][1..] == [name];
    assert tail == JoinArgs(["tx", name]);
    PrintedPlain(["tx", name], tail);
    BreakWords(stop, tail, line);
    BreakParses(stop, name, line, tail);
  }

  lemma BreakWords(stop: char, tail: string, line: string)
    requires IsCmdSpace(stop) && line == "wt" + [stop] + tail && Unquoted(tail)
    ensures Unquoted(line) && RawWords(line) == ["wt"] + RawWords(tail)
    ensures RawBehindId(line) == line
  {
    var rest := [stop] + tail;
    assert line == "wt" + rest;
    SpacesOnce(line);
    WordEnds("wt", rest);
    assert rest[1..] == tail;
    SameWords(rest);
    SameWords(tail);
  }

  lemma UnquotedIsWhole(line: string)
    requires Unquoted(line) && |line| < CommandWrite.CMD_TEXT_MAX
    ensures Whole(line)
  {
    assert forall i :: 0 <= i < |line| ==> line[i] != NUL;
  }

  lemma UnquotedParses(line: string, words: seq<string>)
    requires Unquoted(line) && Whole(line) && RawWords(line) == words && |words| <= ARGV_MAX
    ensures Parse(line) == Understand(words, line)
  {
    ParsesWhole(line);
    WordsUnquoted(line);
    SplitUnquoted(line, ARGV_MAX);
  }

  lemma BreakParses(stop: char, name: string, line: string, tail: string)
    requires (stop == '\n' || stop == '\r') && IsBle(name) && line == "wt" + [stop] + tail
    requires |tail| <= 10 && RawWords(tail) == ["tx", name]
    requires Unquoted(line) && RawWords(line) == ["wt"] + RawWords(tail) && RawBehindId(line) == line
    ensures var c := Parse(line); c.TxRaw? && PayloadOf(c) == Value(name)
  {
    var words := TxWords(None, true, name);
    assert RawWords(line) == words;
    UnquotedIsWhole(line);
    UnquotedParses(line, words);
    TxAlone(None, true, name, line);
    UnquotedTransmitsExactly(line);
    assert line[2] == stop;
  }

  lemma JoinThree(a: string, b: string, c: string)
    ensures JoinArgs([a, b, c]) == a + " " + (b + " " + c)
  {
    var bc, abc := [b, c], [a, b, c];
    assert bc[1..] == [c] && abc[1..] == bc;
    assert JoinArgs(bc) == b + " " + JoinArgs([c]);
  }

  lemma QuotedThree(a: string, b: string, c: string)
    ensures Quoted([a, b, c]) == [QuoteArg(a), QuoteArg(b), QuoteArg(c)]
  {
    var abc, bc, last := [a, b, c], [b, c], [c];
    assert abc[1..] == bc && bc[1..] == last && last[1..] == [];
    assert Quoted(last) == [QuoteArg(c)] + Quoted([]);
    assert Quoted(bc) == [QuoteArg(b)] + Quoted(last);
  }

  lemma {:induction false} EscapePlain(s: string)
    requires forall i :: 0 <= i < |s| ==> EscapeChar(s[i]) == [s[i]]
    ensures Escape(s) == s
  {
    if s != "" {
      EscapePlain(s[1..]);
    }
  }

  lemma BareChars(word: string, i: nat)
    requires Bare(word) && i < |word|
    ensures EscapeChar(word[i]) == [word[i]] && !IsJsSpace(word[i])
  {
  }

  /** The quoted form of two bare words. */
  lemma QuoteTwo(x: string, b: string)
    requires Bare(x) && Bare(b)
    ensures QuoteArg(x + " " + b) == "\"" + (x + " " + b) + "\"" && NulFree(x + " " + b)
  {
    var text := x + " " + b;
    assert text[|x|] == ' ';
    forall i | 0 <= i < |text|
      ensures EscapeChar(text[i]) == [text[i]]
    {
      if i < |x| {
        BareChars(x, i);
      } else if i > |x| {
        BareChars(b, i - |x| - 1);
      }
    }
    QuotedForm(text);
    EscapePlain(text);
  }

  lemma BareQuote(word: string)
    requires Bare(word)
    ensures QuoteArg(word) == word && NulFree(word)
  {
  }

  /** The line of a transmit command whose quoted request id holds a blank. */
  function BlankIdLine(x: string, b: string, tx: string, name: string): string {
    JoinArgs([QuoteArg(x + " " + b), tx, name])
  }

  lemma BlankIdWords(x: string, b: string, tx: string, name: string)
    requires Bare(x) && Bare(b) && Bare(tx) && Bare(name)
    ensures var line := BlankIdLine(x, b, tx, name);
      Split(line, ARGV_MAX) == Value([x + " " + b, tx, name]) && CStr(line) == line
  {
    var args := [x + " " + b, tx, name];
    QuoteTwo(x, b);
    BareQuote(tx);
    BareQuote(name);
    QuotedThree(x + " " + b, tx, name);
    assert [] + Quoted(args) == Quoted(args) && [] + args == args;
    LineSplits([], args, BlankIdLine(x, b, tx, name));
  }

  /** What one sees of that line: four words, and none is skipped. */
  lemma BlankIdSeen(x: string, b: string, tx: string, name: string)
    requires Bare(x) && Bare(b) && Bare(tx) && Bare(name)
    ensures var line := BlankIdLine(x, b, tx, name);
      |RawWords(line)| == 4 && RawWords(line)[2..] == [tx, name] && Skipped(line) == 0
  {
    var line, head, second := BlankIdLine(x, b, tx, name), "\"" + x, b + "\"";
    var raws := [head, second, tx, name];
    QuoteTwo(x, b);
    JoinThree(QuoteArg(x + " " + b), tx, name);
    JoinThree(second, tx, name);
    assert raws[1..] == [second, tx, name];
    assert line == JoinArgs(raws) by {
      assert line == head + " " + (second + " " + (tx + " " + name));
    }
    BareIsPlain(x);
    BareIsPlain(b);
    BareIsPlain(tx);
    BareIsPlain(name);
    assert Solid(head) && Solid(second);
    SolidWords(raws);
    PrintedBehindId(raws);
    assert raws[0][..1] == "\"";
    assert line[0] == '"';
  }

  /** With a quoted request id that holds a blank one sees two words more than the splitter finds, and the
      command itself is transmitted as its message. */
  lemma BlankIdTransmitsCommand(a: string, b: string, name: string)
    requires Bare("#" + a) && Bare(b) && IsBle(name)
    requires |BlankIdLine("#" + a, b, "tx", name)| < CommandWrite.CMD_TEXT_MAX
    ensures var c := Parse(BlankIdLine("#" + a, b, "tx", name));
      c.TxRaw? && PayloadOf(c) == Value("tx" + " " + name)
  {
    assert Bare("tx") && Bare("ble") && Bare("bt");
    BlankIdParsed("#" + a, b, "tx", name);
  }

  lemma BlankIdParsed(x: string, b: string, tx: string, name: string)
    requires Bare(x) && Bare(b) && Bare(tx) && Bare(name) && x[0] == '#' && tx == "tx" && IsBle(name)
    requires |BlankIdLine(x, b, tx, name)| < CommandWrite.CMD_TEXT_MAX
    ensures var c := Parse(BlankIdLine(x, b, tx, name));
      c.TxRaw? && PayloadOf(c) == Value(tx + " " + name)
  {
    var line := BlankIdLine(x, b, tx, name);
    BlankIdWords(x, b, tx, name);
    ParsesWhole(line);
    UnderstandsRaw(x + " " + b, tx, name, line);
    BlankIdSeen(x, b, tx, name);
    RawPayloadExactly(line);
    TwoWordMessage(RawTail(line).value, tx, name);
  }

  lemma TwoWordMessage(tail: string, tx: string, name: string)
    requires RawWords(tail) == [tx, name] && Bare(tx) && Bare(name)
    ensures Split(tail, TAIL_ARGV_MAX) == Value([tx, name]) && JoinArgs([tx, name]) == tx + " " + name
  {
    BareIsPlain(tx);
    BareIsPlain(name);
    SplitUnquoted(tail, TAIL_ARGV_MAX);
    assert [tx, name][1..] == [name];
  }

  lemma UnderstandsRaw(id: string, tx: string, name: string, line: string)
    requires id != "" && id[0] == '#' && tx == "tx" && IsBle(name)
    ensures Understand([id, tx, name], line).TxRaw?
  {
    assert BehindId([id, tx, name]) == [tx, name];
  }
}

/** The transmit command over Bluetooth, from the command line to the transmit queue. */
module Transmit {
  import opened Errno
  import opened Text
  import opened Args
  import opened SplitInPlace
  import opened Payload
  import opened RawLine
  import opened OutQueue
  import opened Response
  import CommandWrite

  const ARGV_MAX: nat := 16
  const TAIL_ARGV_MAX: nat := 12

  /** What a command line asks for: nothing; a payload made of its arguments for Bluetooth alone or for
      Wi-Fi, the serial line and Bluetooth; a payload taken from the raw line; or another command, which
      is not executed here. */
  datatype Command =
    | Nothing
    | Unparsable(error: Error)
    | NoCommand(reqId: string)
    | Tx(reqId: string, args: seq<string>)
    | TxRaw(reqId: string, tail: Option<string>)
    | TxBoth(reqId: string, ip: string, port: string, args: seq<string>)
    | Other(reqId: string, words: seq<string>)

  function Cut(s: string, max: nat): (r: string)
    ensures |r| <= max
  {
    if |s| <= max then s else s[..max]
  }

  /** A first word that begins with '#' is the request id. */
  predicate HasId(words: seq<string>) {
    words != [] && words[0] != "" && words[0][0] == '#'
  }

  function IdOf(words: seq<string>): (id: string)
    ensures |id| <= REQ_ID_MAX
  {
    if HasId(words) then Cut(words[0][1..], REQ_ID_MAX) else ""
  }

  function BehindId(words: seq<string>): seq<string> {
    if HasId(words) then words[1..] else words
  }

  function BehindPrefix(words: seq<string>): seq<string> {
    if words != [] && words[0] == "wt" then words[1..] else words
  }

  predicate IsBle(word: string) {
    word == "ble" || word == "bt"
  }

  predicate IsBoth(word: string) {
    word == "both" || word == "all"
  }

  function Understand(words: seq<string>, line: string): (c: Command)
    ensures |RequestId(c)| <= REQ_ID_MAX
  {
    if words == [] then Nothing
    else
      var id, rest := IdOf(words), BehindPrefix(BehindId(words));
      if rest == [] then NoCommand(id)
      else if rest[0] == "tx" && |rest| >= 3 && IsBle(rest[1]) then Tx(id, rest[2..])
      else if rest[0] == "tx" && |rest| == 2 && IsBle(rest[1]) then TxRaw(id, RawTail(line))
      else if rest[0] == "tx" && |rest| >= 5 && IsBoth(rest[1]) then TxBoth(id, rest[2], rest[3], rest[4..])
      else Command.Other(id, rest)
  }

  function Parse(line: string): Command {
    var words := Split(Cut(CStr(line), CommandWrite.CMD_TEXT_MAX - 1), ARGV_MAX);
    if words.Failure? then Unparsable(words.error) else Understand(words.value, CStr(line))
  }

  // ----- payloads

  function Joined(args: seq<string>): (payload: Result<string>)
    ensures payload == Value(JoinArgs(args)) <==> |JoinArgs(args)| <= 243
    ensures payload.Failure? ==> payload.error == EMSGSIZE
  {
    if |JoinArgs(args)| < TX_PAYLOAD_MAX then Value(JoinArgs(args)) else Failure(EMSGSIZE)
  }

  function TailPayload(tail: Option<string>): Result<string> {
    if tail.None? || tail.value == "" then Failure(EINVAL)
    else
      var words := Split(Cut(tail.value, CommandWrite.CMD_TEXT_MAX - 1), TAIL_ARGV_MAX);
      if words.Failure? then Failure(words.error)
      else if words.value == [] then Failure(EINVAL)
      else Joined(words.value)
  }

  predicate Transmits(c: Command) {
    c.Tx? || c.TxRaw? || c.TxBoth?
  }

  function PayloadOf(c: Command): Result<string>
    requires Transmits(c)
  {
    if c.TxRaw? then TailPayload(c.tail) else Joined(c.args)
  }

  function RequestId(c: Command): string {
    if c.Nothing? || c.Unparsable? then "" else c.reqId
  }

  // ----- printed commands

  /** A word that needs no quotes. */
  predicate Bare(word: string) {
    word != "" && NulFree(word) && !NeedsQuotes(word)
  }

  lemma BarePrints(word: string)
    requires Bare(word)
    ensures Prints(word, word)
  {
    forall rest | rest == "" || rest[0] == ' '
      ensures ScanToken(word + rest, NUL) == Scan(word, |word| + (if rest == "" then 0 else 1), true)
    {
      ScanPlain(word, rest);
    }
    PlainTail(word);
  }

  lemma BareInFront(word: string, printed: seq<string>, tokens: seq<string>)
    requires Bare(word) && PrintsAll(printed, tokens)
    ensures PrintsAll([word] + printed, [word] + tokens)
  {
    BarePrints(word);
    assert ([word] + printed)[1..] == printed && ([word] + tokens)[1..] == tokens;
  }

  lemma {:induction false} WordsPrint(words: seq<string>, printed: seq<string>, tokens: seq<string>)
    requires (forall w :: w in words ==> Bare(w)) && PrintsAll(printed, tokens)
    ensures PrintsAll(words + printed, words + tokens)
    decreases words
  {
    if words == [] {
      assert words + printed == printed && words + tokens == tokens;
    } else {
      var word, rest := words[0], words[1..];
      assert word in words && forall w :: w in rest ==> w in words;
      WordsPrint(rest, printed, tokens);
      BareInFront(word, rest + printed, rest + tokens);
      assert words + printed == [word] + (rest + printed);
      assert words + tokens == [word] + (rest + tokens);
    }
  }

  lemma {:induction false} EscapeNulFree(s: string)
    requires NulFree(s)
    ensures NulFree(Escape(s))
  {
    if s != "" {
      assert s[0] in s;
      assert forall c :: c in s[1..] ==> c in s;
      EscapeNulFree(s[1..]);
    }
  }

  lemma QuoteNulFree(text: string)
    requires NulFree(text)
    ensures NulFree(QuoteArg(text))
  {
    if text == "" || NeedsQuotes(text) {
      QuotedForm(text);
      EscapeNulFree(text);
    }
  }

  lemma {:induction false} JoinNulFree(words: seq<string>)
    requires forall w :: w in words ==> NulFree(w)
    ensures NulFree(JoinArgs(words))
  {
    if words != [] {
      assert words[0] in words;
      assert forall w :: w in words[1..] ==> w in words;
      JoinNulFree(words[1..]);
    }
  }

  lemma {:induction false} QuotedNulFree(args: seq<string>)
    requires forall a :: a in args ==> NulFree(a)
    ensures forall p :: p in Quoted(args) ==> NulFree(p)
  {
    if args != [] {
      assert args[0] in args;
      QuoteNulFree(args[0]);
      assert forall a :: a in args[1..] ==> a in args;
      QuotedNulFree(args[1..]);
    }
  }

  lemma {:induction false} WholeCStr(s: string)
    requires NulFree(s)
    ensures CStr(s) == s
  {
    if s != "" {
      assert s[0] in s;
      WholeCStr(s[1..]);
    }
  }

  /** The words in front of a transmit command's message. */
  function TxWords(id: Option<string>, prefixed: bool, name: string): seq<string> {
    (if id.Some? then ["#" + id.value] else []) + (if prefixed then ["wt"] else []) + ["tx", name]
  }

  lemma UnderstandsTx(id: Option<string>, prefixed: bool, name: string, args: seq<string>, line: string)
    requires args != [] && IsBle(name)
    ensures Understand(TxWords(id, prefixed, name) + args, line) ==
            Tx(if id.Some? then Cut(id.value, REQ_ID_MAX) else "", args)
  {
    var words := TxWords(id, prefixed, name) + args;
    var front, tail := if prefixed then ["wt"] else [], ["tx", name] + args;
    assert BehindId(words) == front + tail;
    assert id.Some? ==> words[0] == "#" + id.value && ("#" + id.value)[1..] == id.value;
    assert BehindPrefix(front + tail) == tail;
    assert tail[2..] == args;
  }

  lemma TxWordsBare(id: Option<string>, prefixed: bool, name: string)
    requires IsBle(name) && (id.Some? ==> Bare("#" + id.value))
    ensures forall w :: w in TxWords(id, prefixed, name) ==> Bare(w)
  {
    assert Bare("wt") && Bare("tx") && Bare("ble") && Bare("bt");
    assert forall w :: w in TxWords(id, prefixed, name) ==>
             (id.Some? && w == "#" + id.value) || w == "wt" || w == "tx" || w == name;
  }

  /** Bare words and quoted arguments, printed on one line, are what the splitter finds there. */
  lemma LineSplits(words: seq<string>, args: seq<string>, line: string)
    requires (forall w :: w in words ==> Bare(w)) && (forall a :: a in args ==> NulFree(a))
    requires |words| + |args| <= ARGV_MAX && line == JoinArgs(words + Quoted(args))
    ensures Split(line, ARGV_MAX) == Value(words + args) && CStr(line) == line
  {
    QuotedPrints(args);
    QuotedNulFree(args);
    WordsPrint(words, Quoted(args), args);
    SplitPrinted(words + Quoted(args), words + args, ARGV_MAX);
    JoinNulFree(words + Quoted(args));
    WholeCStr(line);
  }

  /** A transmit command with quoted arguments, with or without a request id, is understood as exactly
      those arguments, whatever characters but NUL they hold, if it fits the command buffer and has no
      more words than the splitter has room for. */
  lemma TransmitIsUnderstood(id: Option<string>, prefixed: bool, name: string, args: seq<string>)
    requires args != [] && (forall a :: a in args ==> NulFree(a)) && (name == "ble" || name == "bt")
    requires id.Some? ==> Bare("#" + id.value)
    requires |TxWords(id, prefixed, name)| + |args| <= 16
    requires |JoinArgs(TxWords(id, prefixed, name) + Quoted(args))| < 255
    ensures Parse(JoinArgs(TxWords(id, prefixed, name) + Quoted(args))) ==
            Tx(if id.Some? then Cut(id.value, 23) else "", args)
  {
    var words := TxWords(id, prefixed, name);
    var line := JoinArgs(words + Quoted(args));
    TxWordsBare(id, prefixed, name);
    LineSplits(words, args, line);
    UnderstandsTx(id, prefixed, name, args, line);
  }

  /** So is one for Wi-Fi and Bluetooth: address and port first, and behind them the arguments. */
  lemma BothIsUnderstood(id: Option<string>, prefixed: bool, name: string, ip: string, port: string, args: seq<string>)
    requires name == "both" || name == "all"
    requires args != [] && (forall a :: a in [ip, port] + args ==> NulFree(a))
    requires id.Some? ==> Bare("#" + id.value)
    requires |TxWords(id, prefixed, name)| + 2 + |args| <= 16
    requires |JoinArgs(TxWords(id, prefixed, name) + Quoted([ip, port] + args))| < 255
    ensures Parse(JoinArgs(TxWords(id, prefixed, name) + Quoted([ip, port] + args))) ==
            TxBoth(if id.Some? then Cut(id.value, 23) else "", ip, port, args)
  {
    var words, all := TxWords(id, prefixed, name), [ip, port] + args;
    var line := JoinArgs(words + Quoted(all));
    BothWordsBare(id, prefixed, name);
    LineSplits(words, all, line);
    UnderstandsBoth(id, prefixed, name, ip, port, args, words + all, line);
  }

  lemma BothWordsBare(id: Option<string>, prefixed: bool, name: string)
    requires name == "both" || name == "all"
    requires id.Some? ==> Bare("#" + id.value)
    ensures forall w :: w in TxWords(id, prefixed, name) ==> Bare(w)
  {
    assert Bare("wt") && Bare("tx") && Bare("both") && Bare("all");
    assert forall w :: w in TxWords(id, prefixed, name) ==>
             (id.Some? && w == "#" + id.value) || w == "wt" || w == "tx" || w == name;
  }

  lemma UnderstandsBoth(id: Option<string>, prefixed: bool, name: string, ip: string, port: string, args: seq<string>,
                        words: seq<string>, line: string)
    requires args != [] && IsBoth(name) && words == TxWords(id, prefixed, name) + ([ip, port] + args)
    ensures Understand(words, line) == TxBoth(if id.Some? then Cut(id.value, 23) else "", ip, port, args)
  {
    Fronted(id, prefixed, name, [ip, port] + args);
    BothBehind(words, line, ["tx", name] + ([ip, port] + args), name, ip, port, args);
  }

  lemma BothBehind(words: seq<string>, line: string, rest: seq<string>, name: string, ip: string, port: string,
                   args: seq<string>)
    requires words != [] && rest == BehindPrefix(BehindId(words)) == ["tx", name] + ([ip, port] + args)
    requires args != [] && IsBoth(name)
    ensures Understand(words, line) == TxBoth(IdOf(words), ip, port, args)
  {
    UnderstandBehind(words, line, rest);
    assert rest[1] == name && rest[2] == ip && rest[3] == port && rest[4..] == args;
  }

  /** What lies behind the request id and the prefix. */
  lemma Fronted(id: Option<string>, prefixed: bool, name: string, more: seq<string>)
    ensures var words := TxWords(id, prefixed, name) + more;
      && words != [] && BehindPrefix(BehindId(words)) == ["tx", name] + more
      && IdOf(words) == if id.Some? then Cut(id.value, 23) else ""
  {
    var words := TxWords(id, prefixed, name) + more;
    var front, tail := if prefixed then ["wt"] else [], ["tx", name] + more;
    assert id.Some? ==> words[0] == "#" + id.value && ("#" + id.value)[1..] == id.value;
    assert BehindId(words) == front + tail;
    assert BehindPrefix(front + tail) == tail;
  }

  /** The words are those of a transmit command to one of two names, and more behind them. */
  ghost predicate TxTo(words: seq<string>, name: string, more: seq<string>) {
    exists id: Option<string>, prefixed: bool :: words == TxWords(id, prefixed, name) + more
  }

  lemma FrontOf(words: seq<string>, name: string, more: seq<string>)
    requires BehindPrefix(BehindId(words)) == ["tx", name] + more
    ensures TxTo(words, name, more)
  {
    var behindId := BehindId(words);
    var id := if HasId(words) then Some(words[0][1..]) else None;
    var prefixed := behindId != [] && behindId[0] == "wt";
    assert behindId == (if prefixed then ["wt"] else []) + (["tx", name] + more);
    assert HasId(words) ==> words[0] == "#" + words[0][1..] && words == [words[0]] + behindId;
    assert words == TxWords(id, prefixed, name) + more;
  }

  /** Exactly which lines of words are which transmit command: those printed for it, with a request id and
      the prefix "wt" or without, under either of its names. */
  lemma UnderstandExactly(words: seq<string>, line: string, more: seq<string>)
    ensures var c := Understand(words, line);
      && (c.Tx? && c.args == more <==> more != [] && (TxTo(words, "ble", more) || TxTo(words, "bt", more)))
      && (c.TxRaw? <==> TxTo(words, "ble", []) || TxTo(words, "bt", []))
      && (c.TxBoth? && [c.ip, c.port] + c.args == more <==>
            |more| >= 3 && (TxTo(words, "both", more) || TxTo(words, "all", more)))
  {
    var rest := BehindPrefix(BehindId(words));
    ToIsFront(words, "ble", rest);
    ToIsFront(words, "bt", rest);
    ToIsFront(words, "both", rest);
    ToIsFront(words, "all", rest);
    BehindTx(rest);
    UnderstandBehind(words, line, rest);
  }

  lemma BehindTx(rest: seq<string>)
    ensures |rest| >= 2 && rest[0] == "tx" ==> rest == ["tx", rest[1]] + rest[2..]
    ensures |rest| >= 4 ==> rest[2..] == [rest[2], rest[3]] + rest[4..]
  {
  }

  /** What is understood depends on what lies behind the request id and the prefix. */
  lemma UnderstandBehind(words: seq<string>, line: string, rest: seq<string>)
    requires rest == BehindPrefix(BehindId(words))
    ensures var c := Understand(words, line);
      && (c.Tx? <==> |rest| > 2 && rest[0] == "tx" && (rest[1] == "ble" || rest[1] == "bt"))
      && (c.Tx? ==> c.args == rest[2..])
      && (c.TxRaw? <==> |rest| == 2 && rest[0] == "tx" && (rest[1] == "ble" || rest[1] == "bt"))
      && (c.TxBoth? <==> |rest| > 4 && rest[0] == "tx" && (rest[1] == "both" || rest[1] == "all"))
      && (c.TxBoth? ==> c.ip == rest[2] && c.port == rest[3] && c.args == rest[4..] && c.reqId == IdOf(words))
  {
  }

  lemma ToIsFront(words: seq<string>, name: string, rest: seq<string>)
    requires rest == BehindPrefix(BehindId(words))
    ensures forall more :: TxTo(words, name, more) <==> rest == ["tx", name] + more
    ensures (exists more :: TxTo(words, name, more)) ==> words != []
  {
    forall more
      ensures TxTo(words, name, more) <==> rest == ["tx", name] + more
    {
      if TxTo(words, name, more) {
        var id: Option<string>, prefixed: bool :| words == TxWords(id, prefixed, name) + more;
        Fronted(id, prefixed, name, more);
      }
      if rest == ["tx", name] + more {
        FrontOf(words, name, more);
      }
    }
  }

  // ----- execution

  /** Reads back the C strings argv points to. */
  method ReadArgs(line: array<char>, argv: array<nat>, argc: nat, ghost text: string, ghost room: nat)
      returns (args: seq<string>)
    requires NulFree(text) && |text| < line.Length && Split(text, room).Value?
    requires Placed(line[..], argv[..], Split(text, room).value, |text|, |text|)
    requires argc == |Split(text, room).value|
    ensures args == Split(text, room).value
  {
    ghost var tokens := Split(text, room).value;
    args := [];
    for k := 0 to argc
      invariant args == tokens[..k]
    {
      ArgvHoldsTokens(line[..], argv[..], text, room, k);
      args := args + [CStr(line[argv[k]..])];
    }
  }

  /** Copies a text into a buffer of its own and splits it there. */
  method SplitLine(line: string, room: nat) returns (ret: Result<seq<string>>)
    requires room > 0
    ensures ret == Split(Cut(CStr(line), CommandWrite.CMD_TEXT_MAX - 1), room)
  {
    var text := Cut(CStr(line), CommandWrite.CMD_TEXT_MAX - 1);
    var buf := new char[CommandWrite.CMD_TEXT_MAX](i => if 0 <= i < |text| then text[i] else NUL);
    var argv := new nat[room];
    assert NulFree(text);
    assert buf[..] == text + buf[|text|..];
    CStrOf(text, buf[|text|..]);
    var argc := SplitArgsQuoted(buf, argv, room);
    if argc.Failure? {
      return Failure(argc.error);
    }
    var args := ReadArgs(buf, argv, argc.value, text, room);
    return Value(args);
  }

  /** Joins arguments into the payload buffer. */
  method JoinPayload(args: seq<string>) returns (payload: Result<string>)
    requires args != [] && forall a :: a in args ==> NulFree(a)
    ensures payload == Joined(args)
  {
    var buf := new char[TX_PAYLOAD_MAX];
    assert args[0..] == args;
    var len := BuildPayload(0, args, buf);
    if len.Failure? {
      return Failure(len.error);
    }
    return Value(buf[..len.value]);
  }

  method PayloadFromTail(tail: Option<string>) returns (payload: Result<string>)
    requires tail.Some? ==> NulFree(tail.value)
    ensures payload == TailPayload(tail)
  {
    if tail.None? || tail.value == "" {
      return Failure(EINVAL);
    }
    WholeCStr(tail.value);
    var words := SplitLine(tail.value, TAIL_ARGV_MAX);
    if words.Failure? {
      return Failure(words.error);
    }
    if words.value == [] {
      return Failure(EINVAL);
    }
    SplitNulFree(Cut(tail.value, CommandWrite.CMD_TEXT_MAX - 1), TAIL_ARGV_MAX);
    payload := JoinPayload(words.value);
  }

  lemma WordsNulFree(words: seq<string>, line: string)
    requires forall w :: w in words ==> NulFree(w)
    ensures var c := Understand(words, line);
      c.Tx? || c.TxBoth? ==> c.args != [] && forall a :: a in c.args ==> NulFree(a)
  {
    var c, rest := Understand(words, line), BehindPrefix(BehindId(words));
    assert forall w :: w in rest ==> w in words;
    if c.Tx? || c.TxBoth? {
      assert forall a :: a in c.args ==> a in rest;
    }
  }

  /** The transmit queue has not been touched, or the payload went the way of every payload. */
  ghost predicate Handed(f: Flow, g: Flow, way: Way, id: nat, payload: Option<string>, ret: Status) {
    if payload.None? then g == f else Transmitted(f, g, way, id, payload.value, ret)
  }

  /** What a command hands to Bluetooth when sending over Wi-Fi first, where it does, ends as udp. */
  function HandedOver(c: Command, udp: Status): Option<string>
    requires Transmits(c)
  {
    if PayloadOf(c).Failure? || (c.TxBoth? && udp != Ok) then None else Some(PayloadOf(c).value)
  }

  /** Executes a command line as far as its transmit commands go: the payload, if it can be formed, is
      handed to Bluetooth, for Wi-Fi and Bluetooth together only once Wi-Fi has taken it. A line that asks
      for nothing or cannot be parsed leaves the queue alone. */
  method Execute(sender: Sender, line: string, udp: Status) returns (command: Command, ret: Status)
    requires sender.Valid()
    modifies sender`reqId, sender.txIds, sender.rspBuf, sender.tx, sender.tx.item, sender.link`calls
    ensures sender.Valid() && sender.tx.enabled == old(sender.tx.enabled)
    ensures command == Parse(line) && sender.reqId == RequestId(command)
    ensures command.Nothing? || command.Unparsable? || command.NoCommand? ==>
              sender.tx.State() == old(sender.tx.State())
    ensures Transmits(command) ==>
      && Handed(old(sender.tx.State()), sender.tx.State(), old(sender.tx.Meets()), sender.txIds.next,
                HandedOver(command, udp), ret)
      && (PayloadOf(command).Failure? ==> ret == Err(PayloadOf(command).error))
      && (PayloadOf(command).Value? && HandedOver(command, udp).None? ==> ret == udp)
    ensures command.TxBoth? && udp != Ok ==> sender.tx.State() == old(sender.tx.State())
    ensures Transmits(command) && PayloadOf(command).Value? && (command.TxBoth? ==> udp == Ok) ==>
      Transmitted(old(sender.tx.State()), sender.tx.State(), old(sender.tx.Meets()), sender.txIds.next,
                  PayloadOf(command).value, ret)
  {
    ret := Ok;
    command := Read(line);
    sender.reqId := RequestId(command);
    if Transmits(command) {
      var payload := FormPayload(line, command);
      ret := HandOver(sender, command, payload, udp);
    }
  }

  method Read(line: string) returns (command: Command)
    ensures command == Parse(line) && |RequestId(command)| <= REQ_ID_MAX
  {
    var words := SplitLine(line, ARGV_MAX);
    command := if words.Failure? then Unparsable(words.error) else Understand(words.value, CStr(line));
  }

  method FormPayload(line: string, command: Command) returns (payload: Result<string>)
    requires command == Parse(line) && Transmits(command)
    ensures payload == PayloadOf(command)
  {
    if command.TxRaw? {
      TailNulFree(CStr(line));
      var tail := RawTxTail(CStr(line));
      payload := PayloadFromTail(tail);
    } else {
      var text := Cut(CStr(line), CommandWrite.CMD_TEXT_MAX - 1);
      SplitNulFree(text, ARGV_MAX);
      WordsNulFree(Split(text, ARGV_MAX).value, CStr(line));
      payload := JoinPayload(command.args);
    }
  }

  method HandOver(sender: Sender, command: Command, payload: Result<string>, udp: Status) returns (ret: Status)
    requires sender.Valid() && Transmits(command) && payload == PayloadOf(command)
    modifies sender.txIds, sender.rspBuf, sender.tx, sender.tx.item, sender.link`calls
    ensures sender.Valid() && sender.tx.enabled == old(sender.tx.enabled)
    ensures Handed(old(sender.tx.State()), sender.tx.State(), old(sender.tx.Meets()), sender.txIds.next,
                HandedOver(command, udp), ret)
    ensures payload.Failure? ==> ret == Err(payload.error)
    ensures payload.Value? && HandedOver(command, udp).None? ==> ret == udp
  {
    if payload.Failure? {
      return Err(payload.error);
    }
    if command.TxBoth? && udp != Ok {
      return udp;
    }
    ret := sender.TransmitPayload(payload.value);
  }
}

/** Quoted command lines: the firmware's in-place splitter, the console's printer and the joiner. */
module Args {
  import opened Errno
  import opened Text

  predicate IsCmdSpace(c: char) {
    c == ' ' || c == '\t' || c == '\r' || c == '\n'
  }

  function Unescape(c: char): char {
    match c
    case 'n' => '\n'
    case 'r' => '\r'
    case 't' => '\t'
    case _ => c
  }

  // ----- the tokenizer on values

  /** A token's text, how much of the line it took, and whether its last quote was closed. */
  datatype Scan = Scan(token: string, used: nat, closed: bool)

  function Prepend(c: char, n: nat, s: Scan): Scan {
    Scan([c] + s.token, s.used + n, s.closed)
  }

  /** Scans one token; quote is the open quote, or NUL. */
  function ScanToken(s: string, quote: char): (r: Scan)
    ensures r.used <= |s|
    ensures |r.token| <= r.used
    decreases |s|
  {
    if s == "" then Scan("", 0, quote == NUL)
    else if quote != NUL then
      if s[0] == '\\' && |s| > 1 then Prepend(Unescape(s[1]), 2, ScanToken(s[2..], quote))
      else if s[0] == quote then var t := ScanToken(s[1..], NUL); t.(used := t.used + 1)
      else Prepend(s[0], 1, ScanToken(s[1..], quote))
    else if s[0] == '\'' || s[0] == '"' then var t := ScanToken(s[1..], s[0]); t.(used := t.used + 1)
    else if IsCmdSpace(s[0]) then Scan("", 1, true)
    else if s[0] == '\\' && |s| > 1 then Prepend(Unescape(s[1]), 2, ScanToken(s[2..], NUL))
    else Prepend(s[0], 1, ScanToken(s[1..], NUL))
  }

  function Spaces(s: string): (n: nat)
    ensures n <= |s|
  {
    if s != "" && IsCmdSpace(s[0]) then 1 + Spaces(s[1..]) else 0
  }

  lemma {:induction false} SpacesEnd(s: string)
    requires Spaces(s) < |s|
    ensures !IsCmdSpace(s[Spaces(s)])
  {
    if IsCmdSpace(s[0]) {
      SpacesEnd(s[1..]);
    }
  }

  /** Splits a line into at most room tokens. */
  function Split(s: string, room: nat): (r: Result<seq<string>>)
    decreases |s|
  {
    var rest := s[Spaces(s)..];
    if rest == "" then Value([])
    else if room == 0 then Failure(E2BIG)
    else
      var t := ScanToken(rest, NUL);
      if !t.closed then Failure(EINVAL)
      else
        ScanProgress(rest, NUL);
        var more := Split(rest[t.used..], room - 1);
        if more.Failure? then more else Value([t.token] + more.value)
  }

  lemma ScanProgress(s: string, quote: char)
    requires s != ""
    ensures ScanToken(s, quote).used > 0
  {
  }

  // ----- the console's printer

  function ReplaceAll(s: string, c: char, sub: string): string {
    if s == "" then "" else (if s[0] == c then sub else [s[0]]) + ReplaceAll(s[1..], c, sub)
  }

  predicate NeedsQuotes(text: string) {
    exists i :: 0 <= i < |text| && (IsJsSpace(text[i]) || text[i] == '"' || text[i] == '\'' || text[i] == '\\')
  }

  function QuoteArg(text: string): string {
    if |text| == 0 then "\"\""
    else if !NeedsQuotes(text) then text
    else
      var a := ReplaceAll(text, '\\', "\\\\");
      var b := ReplaceAll(a, '\r', "\\r");
      var c := ReplaceAll(b, '\n', "\\n");
      var d := ReplaceAll(c, '\t', "\\t");
      "\"" + ReplaceAll(d, '"', "\\\"") + "\""
  }

  function JoinArgs(args: seq<string>): string {
    if args == [] then ""
    else if |args| == 1 then args[0]
    else args[0] + " " + JoinArgs(args[1..])
  }

  /** The five replacements one after the other amount to escaping character by character. */
  function Escape(s: string): string {
    if s == "" then "" else EscapeChar(s[0]) + Escape(s[1..])
  }

  function EscapeChar(c: char): string {
    match c
    case '\\' => "\\\\"
    case '\r' => "\\r"
    case '\n' => "\\n"
    case '\t' => "\\t"
    case '"' => "\\\""
    case _ => [c]
  }

  lemma {:induction false} ReplaceAppend(s: string, t: string, c: char, sub: string)
    ensures ReplaceAll(s + t, c, sub) == ReplaceAll(s, c, sub) + ReplaceAll(t, c, sub)
  {
    if s == "" {
      assert s + t == t;
    } else {
      assert (s + t)[1..] == s[1..] + t;
      ReplaceAppend(s[1..], t, c, sub);
    }
  }

  function Replaced(s: string): string {
    ReplaceAll(ReplaceAll(ReplaceAll(ReplaceAll(ReplaceAll(s, '\\', "\\\\"), '\r', "\\r"), '\n', "\\n"), '\t', "\\t"),
               '"', "\\\"")
  }

  lemma ReplacedAppend(s: string, t: string)
    ensures Replaced(s + t) == Replaced(s) + Replaced(t)
  {
    var s1, t1 := ReplaceAll(s, '\\', "\\\\"), ReplaceAll(t, '\\', "\\\\");
    var s2, t2 := ReplaceAll(s1, '\r', "\\r"), ReplaceAll(t1, '\r', "\\r");
    var s3, t3 := ReplaceAll(s2, '\n', "\\n"), ReplaceAll(t2, '\n', "\\n");
    var s4, t4 := ReplaceAll(s3, '\t', "\\t"), ReplaceAll(t3, '\t', "\\t");
    ReplaceAppend(s, t, '\\', "\\\\");
    ReplaceAppend(s1, t1, '\r', "\\r");
    ReplaceAppend(s2, t2, '\n', "\\n");
    ReplaceAppend(s3, t3, '\t', "\\t");
    ReplaceAppend(s4, t4, '"', "\\\"");
  }

  lemma ReplaceOne(c: char, x: char, sub: string)
    ensures ReplaceAll([c], x, sub) == if c == x then sub else [c]
  {
    assert [c][1..] == "";
  }

  lemma ReplaceTwo(a: char, b: char, x: char, sub: string)
    requires a != x && b != x
    ensures ReplaceAll([a, b], x, sub) == [a, b]
  {
    assert [a, b][1..] == [b];
    ReplaceOne(b, x, sub);
  }

  lemma ReplacedChar(c: char)
    ensures Replaced([c]) == EscapeChar(c)
  {
    ReplaceOne(c, '\\', "\\\\");
    ReplaceOne(c, '\r', "\\r");
    ReplaceOne(c, '\n', "\\n");
    ReplaceOne(c, '\t', "\\t");
    ReplaceOne(c, '"', "\\\"");
    ReplaceTwo('\\', '\\', '\r', "\\r");
    ReplaceTwo('\\', '\\', '\n', "\\n");
    ReplaceTwo('\\', '\\', '\t', "\\t");
    ReplaceTwo('\\', '\\', '"', "\\\"");
    ReplaceTwo('\\', 'r', '\n', "\\n");
    ReplaceTwo('\\', 'r', '\t', "\\t");
    ReplaceTwo('\\', 'r', '"', "\\\"");
    ReplaceTwo('\\', 'n', '\t', "\\t");
    ReplaceTwo('\\', 'n', '"', "\\\"");
    ReplaceTwo('\\', 't', '"', "\\\"");
  }

  lemma {:induction false} ReplacedIsEscape(s: string)
    ensures Replaced(s) == Escape(s)
  {
    if s != "" {
      assert s == [s[0]] + s[1..];
      ReplacedAppend([s[0]], s[1..]);
      ReplacedChar(s[0]);
      ReplacedIsEscape(s[1..]);
    }
  }

  // ----- splitting undoes printing

  lemma ScanOrdinary(c: char, tail: string, quote: char)
    requires c != '\\' && c != quote
    requires quote == NUL ==> c != '\'' && c != '"' && !IsCmdSpace(c)
    ensures ScanToken([c] + tail, quote) == Prepend(c, 1, ScanToken(tail, quote))
  {
    assert ([c] + tail)[1..] == tail;
  }

  lemma ScanEscape(c: char, tail: string, quote: char)
    requires quote != '\\'
    ensures ScanToken(['\\', c] + tail, quote) == Prepend(Unescape(c), 2, ScanToken(tail, quote))
  {
    assert (['\\', c] + tail)[2..] == tail;
  }

  lemma ScanQuote(quote: char, tail: string)
    requires quote == '"'
    ensures ScanToken([quote] + tail, quote) == ScanToken(tail, NUL).(used := ScanToken(tail, NUL).used + 1)
    ensures ScanToken([quote] + tail, NUL) == ScanToken(tail, quote).(used := ScanToken(tail, quote).used + 1)
  {
    assert ([quote] + tail)[1..] == tail;
  }

  lemma ScanEscapedChar(c: char, tail: string)
    ensures ScanToken(EscapeChar(c) + tail, '"') == Prepend(c, |EscapeChar(c)|, ScanToken(tail, '"'))
  {
    var e := EscapeChar(c);
    if |e| == 2 {
      assert e == ['\\', e[1]] && Unescape(e[1]) == c;
      ScanEscape(e[1], tail, '"');
    } else {
      ScanOrdinary(c, tail, '"');
    }
  }

  /** Inside double quotes the scanner reads an escaped text back and stops at the closing quote. */
  lemma {:induction false} ScanEscaped(text: string, rest: string)
    requires rest == "" || rest[0] == ' '
    ensures ScanToken(Escape(text) + ("\"" + rest), '"') ==
            Scan(text, |Escape(text)| + 1 + (if rest == "" then 0 else 1), true)
  {
    var close := "\"" + rest;
    if text == "" {
      assert Escape(text) + close == close;
      ScanQuote('"', rest);
      TokenEnds(rest);
    } else {
      ScanEscaped(text[1..], rest);
      ScanEscapedChar(text[0], Escape(text[1..]) + close);
      ScanFront(text[0], EscapeChar(text[0]), text[1..], Escape(text[1..]), close, '"');
      assert [text[0]] + text[1..] == text;
    }
  }

  /** If a printed character reads back in front of the rest, and the rest reads back, both do. */
  lemma ScanFront(c: char, printed: string, text: string, rest: string, close: string, quote: char)
    requires ScanToken(printed + (rest + close), quote) == Prepend(c, |printed|, ScanToken(rest + close, quote))
    requires ScanToken(rest + close, quote).token == text && ScanToken(rest + close, quote).closed
    ensures ScanToken(printed + rest + close, quote) ==
            Scan([c] + text, |printed| + ScanToken(rest + close, quote).used, true)
  {
    Assoc(printed, rest, close);
  }

  lemma TokenEnds(rest: string)
    requires rest == "" || rest[0] == ' '
    ensures ScanToken(rest, NUL) == Scan("", if rest == "" then 0 else 1, true)
  {
  }

  /** Outside quotes a text without special characters is read as it stands. */
  lemma {:induction false} ScanPlain(text: string, rest: string)
    requires !NeedsQuotes(text) && NulFree(text) && (rest == "" || rest[0] == ' ')
    ensures ScanToken(text + rest, NUL) == Scan(text, |text| + (if rest == "" then 0 else 1), true)
  {
    if text == "" {
      assert text + rest == rest;
      TokenEnds(rest);
    } else {
      assert [text[0]] + text[1..] == text;
      Assoc([text[0]], text[1..], rest);
      PlainTail(text);
      ScanPlain(text[1..], rest);
      ScanOrdinary(text[0], text[1..] + rest, NUL);
    }
  }

  lemma PlainTail(text: string)
    requires text != "" && !NeedsQuotes(text) && NulFree(text)
    ensures !NeedsQuotes(text[1..]) && NulFree(text[1..])
    ensures text[0] != '\\' && text[0] != '"' && text[0] != '\'' && !IsCmdSpace(text[0]) && text[0] != NUL
  {
    assert forall i :: 0 <= i < |text[1..]| ==> text[1..][i] == text[i + 1];
    assert !IsJsSpace(text[0]);
  }

  lemma ScanQuoted(text: string, rest: string)
    requires NulFree(text) && (rest == "" || rest[0] == ' ')
    ensures ScanToken(QuoteArg(text) + rest, NUL) ==
            Scan(text, |QuoteArg(text)| + (if rest == "" then 0 else 1), true)
    ensures QuoteArg(text) != "" && !IsCmdSpace(QuoteArg(text)[0])
  {
    if text != "" && !NeedsQuotes(text) {
      ScanPlain(text, rest);
      PlainTail(text);
    } else {
      QuotedForm(text);
      ScanEscaped(text, rest);
      ScanQuote('"', Escape(text) + ("\"" + rest));
      Around(Escape(text), rest);
    }
  }

  lemma Around(text: string, rest: string)
    ensures "\"" + text + "\"" + rest == "\"" + (text + ("\"" + rest))
  {
  }

  lemma QuotedForm(text: string)
    requires text == "" || NeedsQuotes(text)
    ensures QuoteArg(text) == "\"" + Escape(text) + "\""
  {
    ReplacedIsEscape(text);
  }

  /** The printed form reads back as the token wherever the line goes on with a blank or ends. */
  ghost predicate Prints(printed: string, token: string) {
    && printed != "" && !IsCmdSpace(printed[0])
    && forall rest :: rest == "" || rest[0] == ' ' ==>
         ScanToken(printed + rest, NUL) == Scan(token, |printed| + (if rest == "" then 0 else 1), true)
  }

  lemma QuoteArgPrints(text: string)
    requires NulFree(text)
    ensures Prints(QuoteArg(text), text)
  {
    forall rest | rest == "" || rest[0] == ' '
      ensures ScanToken(QuoteArg(text) + rest, NUL) ==
              Scan(text, |QuoteArg(text)| + (if rest == "" then 0 else 1), true)
    {
      ScanQuoted(text, rest);
    }
    ScanQuoted(text, "");
  }

  lemma SplitHead(line: string, room: nat)
    requires line != "" && !IsCmdSpace(line[0])
    ensures var t := ScanToken(line, NUL);
      Split(line, room) ==
        if room == 0 then Failure(E2BIG)
        else if !t.closed then Failure(EINVAL)
        else
          var more := Split(line[t.used..], room - 1);
          if more.Failure? then more else Value([t.token] + more.value)
  {
    assert Spaces(line) == 0;
    assert line[0..] == line;
    ScanProgress(line, NUL);
  }

  /** One printed token in front of a line: the splitter takes it off and goes on behind the blank. */
  lemma SplitFirst(line: string, printed: string, token: string, rest: string, tail: string, room: nat)
    requires Prints(printed, token) && (rest == "" || rest[0] == ' ')
    requires line == printed + rest && tail == if rest == "" then "" else rest[1..]
    ensures room == 0 ==> Split(line, room) == Failure(E2BIG)
    ensures room > 0 ==>
      var more := Split(tail, room - 1);
      Split(line, room) == if more.Failure? then more else Value([token] + more.value)
  {
    assert line[0] == printed[0];
    SplitHead(line, room);
    Beyond(printed, rest);
  }

  lemma Beyond(printed: string, rest: string)
    ensures (printed + rest)[|printed| + (if rest == "" then 0 else 1)..] == if rest == "" then "" else rest[1..]
  {
  }

  ghost predicate PrintsAll(printed: seq<string>, tokens: seq<string>)
    decreases tokens
  {
    if tokens == [] then printed == []
    else printed != [] && Prints(printed[0], tokens[0]) && PrintsAll(printed[1..], tokens[1..])
  }

  /** Splitting a line of printed tokens gives the tokens, or E2BIG when there are too many. */
  lemma {:induction false} SplitPrinted(printed: seq<string>, tokens: seq<string>, room: nat)
    requires PrintsAll(printed, tokens)
    ensures Split(JoinArgs(printed), room) == if |tokens| <= room then Value(tokens) else Failure(E2BIG)
    decreases tokens
  {
    if tokens == [] {
      SplitNothing(room);
    } else {
      if room > 0 {
        SplitPrinted(printed[1..], tokens[1..], room - 1);
      }
      var rest, tail := JoinRest(printed);
      SplitMore(JoinArgs(printed), printed[0], rest, tail, tokens, room);
    }
  }

  lemma SplitMore(line: string, printed: string, rest: string, tail: string, tokens: seq<string>, room: nat)
    requires tokens != [] && Prints(printed, tokens[0]) && (rest == "" || rest[0] == ' ')
    requires line == printed + rest && tail == if rest == "" then "" else rest[1..]
    requires room > 0 ==>
      Split(tail, room - 1) == if |tokens[1..]| <= room - 1 then Value(tokens[1..]) else Failure(E2BIG)
    ensures Split(line, room) == if |tokens| <= room then Value(tokens) else Failure(E2BIG)
  {
    SplitFirst(line, printed, tokens[0], rest, tail, room);
    if room > 0 {
      FirstAndRest(line, tail, tokens, room);
    }
  }

  lemma SplitNothing(room: nat)
    ensures Split("", room) == Value([])
  {
  }

  lemma FirstAndRest(line: string, tail: string, tokens: seq<string>, room: nat)
    requires tokens != [] && room > 0
    requires Split(tail, room - 1) == if |tokens| <= room then Value(tokens[1..]) else Failure(E2BIG)
    requires var more := Split(tail, room - 1);
      Split(line, room) == if more.Failure? then more else Value([tokens[0]] + more.value)
    ensures Split(line, room) == if |tokens| <= room then Value(tokens) else Failure(E2BIG)
  {
    assert [tokens[0]] + tokens[1..] == tokens;
  }

  lemma JoinRest(printed: seq<string>) returns (rest: string, tail: string)
    requires printed != []
    ensures JoinArgs(printed) == printed[0] + rest && (rest == "" || rest[0] == ' ')
    ensures tail == JoinArgs(printed[1..]) && tail == if rest == "" then "" else rest[1..]
  {
    tail := JoinArgs(printed[1..]);
    if |printed| == 1 {
      rest := "";
    } else {
      rest := " " + JoinArgs(printed[1..]);
      Assoc(printed[0], " ", JoinArgs(printed[1..]));
    }
  }

  function Quoted(args: seq<string>): (printed: seq<string>)
    ensures |printed| == |args|
  {
    if args == [] then [] else [QuoteArg(args[0])] + Quoted(args[1..])
  }

  lemma {:induction false} QuotedPrints(args: seq<string>)
    requires forall a :: a in args ==> NulFree(a)
    ensures PrintsAll(Quoted(args), args)
  {
    if args != [] {
      assert args[0] in args;
      QuoteArgPrints(args[0]);
      assert forall a :: a in args[1..] ==> a in args;
      QuotedPrints(args[1..]);
      QuotedTail(args);
    }
  }

  lemma QuotedTail(args: seq<string>)
    requires args != []
    ensures Quoted(args)[0] == QuoteArg(args[0]) && Quoted(args)[1..] == Quoted(args[1..])
  {
  }

  /** The splitter undoes the printer, for any list of NUL-free arguments, empty ones included: it
      gives back exactly that list, or E2BIG exactly when there are more than the caller has room for. */
  lemma SplitUndoesQuote(args: seq<string>, room: nat)
    requires forall a :: a in args ==> NulFree(a)
    ensures Split(JoinArgs(Quoted(args)), room) == if |args| <= room then Value(args) else Failure(E2BIG)
  {
    QuotedPrints(args);
    SplitPrinted(Quoted(args), args, room);
  }
}

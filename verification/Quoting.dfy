/** Command lines as they are written: words of plain, escaped and quoted characters, told apart by white
    space. The splitter reads every such line as it is meant, and there are no other lines but those with
    an open quote. */
module Quoting {
  import opened Errno
  import opened Text
  import opened Args

  /** A character as it is written: as itself, behind a backslash under the name of a control character, or
      behind a backslash as itself. */
  datatype Bit = Self(c: char) | LineFeed | Return | Tab | Escaped(c: char)

  /** A part of a word: a character outside quotes, or characters between two quotes of a kind. */
  datatype Part = Bare(bit: Bit) | Group(quote: char, bits: seq<Bit>)

  function Written(b: Bit): (s: string)
    ensures s != ""
  {
    match b
    case Self(c) => [c]
    case LineFeed => "\\n"
    case Return => "\\r"
    case Tab => "\\t"
    case Escaped(c) => ['\\', c]
  }

  function Meant(b: Bit): char {
    match b
    case Self(c) => c
    case LineFeed => '\n'
    case Return => '\r'
    case Tab => '\t'
    case Escaped(c) => c
  }

  predicate IsBlank(c: char) {
    c == ' ' || c == '\t' || c == '\r' || c == '\n'
  }

  predicate IsQuote(c: char) {
    c == '"' || c == '\''
  }

  /** A backslash never stands for itself, and the letters that name control characters are not escaped to
      stand for themselves. */
  predicate Sound(b: Bit) {
    match b
    case Self(c) => c != '\\'
    case Escaped(c) => c != 'n' && c != 'r' && c != 't'
    case _ => true
  }

  /** Between quotes only the quote itself is special, outside quotes both quotes and white space are. */
  predicate Fits(p: Part) {
    match p
    case Bare(b) => Sound(b) && (b.Self? ==> !IsQuote(b.c) && !IsBlank(b.c))
    case Group(q, bits) => IsQuote(q) && Inside(q, bits)
  }

  predicate Inside(q: char, bits: seq<Bit>) {
    forall i :: 0 <= i < |bits| ==> Sound(bits[i]) && bits[i] != Self(q)
  }

  predicate AllFit(parts: seq<Part>) {
    forall i :: 0 <= i < |parts| ==> Fits(parts[i])
  }

  function WrittenBits(bits: seq<Bit>): string {
    if bits == [] then "" else Written(bits[0]) + WrittenBits(bits[1..])
  }

  function MeantBits(bits: seq<Bit>): string {
    if bits == [] then "" else [Meant(bits[0])] + MeantBits(bits[1..])
  }

  function WrittenPart(p: Part): string {
    match p
    case Bare(b) => Written(b)
    case Group(q, bits) => [q] + (WrittenBits(bits) + [q])
  }

  function WrittenWord(parts: seq<Part>): string {
    if parts == [] then "" else WrittenPart(parts[0]) + WrittenWord(parts[1..])
  }

  function MeantWord(parts: seq<Part>): string {
    if parts == [] then ""
    else (if parts[0].Bare? then [Meant(parts[0].bit)] else MeantBits(parts[0].bits)) + MeantWord(parts[1..])
  }

  // ----- words are read as they are meant

  function Ahead(text: string, n: nat, s: Scan): Scan {
    Scan(text + s.token, n + s.used, s.closed)
  }

  lemma AheadTwice(a: string, m: nat, b: string, n: nat, s: Scan)
    ensures Ahead(a, m, Ahead(b, n, s)) == Ahead(a + b, m + n, s)
  {
    Assoc(a, b, s.token);
  }

  lemma ScanBit(b: Bit, rest: string, quote: char)
    requires Sound(b) && (b.Self? ==> if quote == NUL then !IsQuote(b.c) && !IsBlank(b.c) else b.c != quote)
    ensures ScanToken(Written(b) + rest, quote) == Ahead([Meant(b)], |Written(b)|, ScanToken(rest, quote))
  {
    var s := Written(b) + rest;
    if b.Self? {
      assert s[1..] == rest;
    } else {
      assert s[0] == '\\' && s[2..] == rest;
    }
  }

  lemma {:induction false} ScanBits(q: char, bits: seq<Bit>, rest: string)
    requires IsQuote(q) && Inside(q, bits)
    ensures ScanToken(WrittenBits(bits) + rest, q) == Ahead(MeantBits(bits), |WrittenBits(bits)|, ScanToken(rest, q))
    decreases bits
  {
    if bits == [] {
      assert "" + rest == rest;
      assert Ahead("", 0, ScanToken(rest, q)) == ScanToken(rest, q);
    } else {
      var b, more := bits[0], bits[1..];
      ScanBits(q, more, rest);
      ScanBit(b, WrittenBits(more) + rest, q);
      Assoc(Written(b), WrittenBits(more), rest);
      AheadTwice([Meant(b)], |Written(b)|, MeantBits(more), |WrittenBits(more)|, ScanToken(rest, q));
    }
  }

  lemma ScanOpening(q: char, rest: string)
    requires IsQuote(q)
    ensures ScanToken([q] + rest, NUL) == Ahead("", 1, ScanToken(rest, q))
    ensures ScanToken([q] + rest, q) == Ahead("", 1, ScanToken(rest, NUL))
  {
    assert ([q] + rest)[1..] == rest;
  }

  lemma ScanPart(p: Part, rest: string)
    requires Fits(p)
    ensures ScanToken(WrittenPart(p) + rest, NUL) ==
            Ahead(if p.Bare? then [Meant(p.bit)] else MeantBits(p.bits), |WrittenPart(p)|, ScanToken(rest, NUL))
  {
    if p.Bare? {
      ScanBit(p.bit, rest, NUL);
    } else {
      var q, w := p.quote, WrittenBits(p.bits);
      ScanOpening(q, w + ([q] + rest));
      ScanBits(q, p.bits, [q] + rest);
      ScanOpening(q, rest);
      assert [q] + (w + [q]) + rest == [q] + (w + ([q] + rest));
      AheadTwice(MeantBits(p.bits), |w|, "", 1, ScanToken(rest, NUL));
      assert MeantBits(p.bits) + "" == MeantBits(p.bits);
      AheadTwice("", 1, MeantBits(p.bits), |w| + 1, ScanToken(rest, NUL));
      assert "" + MeantBits(p.bits) == MeantBits(p.bits);
    }
  }

  /** In front of anything a word is read as what it means. */
  lemma {:induction false} ScanParts(parts: seq<Part>, rest: string)
    requires AllFit(parts)
    ensures ScanToken(WrittenWord(parts) + rest, NUL) ==
            Ahead(MeantWord(parts), |WrittenWord(parts)|, ScanToken(rest, NUL))
    decreases parts
  {
    if parts == [] {
      assert "" + rest == rest;
      assert Ahead("", 0, ScanToken(rest, NUL)) == ScanToken(rest, NUL);
    } else {
      var p, more := parts[0], parts[1..];
      var meant := if p.Bare? then [Meant(p.bit)] else MeantBits(p.bits);
      ScanParts(more, rest);
      ScanPart(p, WrittenWord(more) + rest);
      Assoc(WrittenPart(p), WrittenWord(more), rest);
      AheadTwice(meant, |WrittenPart(p)|, MeantWord(more), |WrittenWord(more)|, ScanToken(rest, NUL));
    }
  }

  /** What may follow a word: nothing, white space, or one last backslash of the line. */
  predicate Ends(tail: string) {
    tail == "" || IsBlank(tail[0]) || tail == "\\"
  }

  /** A quote that is never closed, and what follows it to the end of the line. */
  ghost predicate Opens(tail: string) {
    exists q: char, bits: seq<Bit>, slash: bool ::
      IsQuote(q) && Inside(q, bits) && tail == OpenText(q, bits, slash)
  }

  function OpenText(q: char, bits: seq<Bit>, slash: bool): string {
    [q] + (WrittenBits(bits) + if slash then "\\" else "")
  }

  /** A word that ends is read as what it means; a last backslash stands for itself; white space behind the
      word is taken with it. */
  lemma WordIsRead(parts: seq<Part>, tail: string)
    requires AllFit(parts) && Ends(tail)
    ensures ScanToken(WrittenWord(parts) + tail, NUL) ==
            Scan(MeantWord(parts) + (if tail == "\\" then tail else ""),
                 |WrittenWord(parts)| + (if tail == "" then 0 else 1), true)
  {
    ScanParts(parts, tail);
    assert tail != "" && tail != "\\" ==> ScanToken(tail, NUL) == Scan("", 1, true);
    assert tail == "\\" ==> tail[1..] == "" && ScanToken(tail, NUL) == Prepend('\\', 1, ScanToken("", NUL));
    assert ['\\'] + "" == "\\";
  }

  /** A word with an open quote is reported as such. */
  lemma OpenIsFound(parts: seq<Part>, tail: string)
    requires AllFit(parts) && Opens(tail)
    ensures !ScanToken(WrittenWord(parts) + tail, NUL).closed
  {
    var q: char, bits: seq<Bit>, slash: bool :| IsQuote(q) && Inside(q, bits) && tail == OpenText(q, bits, slash);
    var last := if slash then "\\" else "";
    ScanParts(parts, tail);
    ScanOpening(q, WrittenBits(bits) + last);
    ScanBits(q, bits, last);
    assert slash ==> last[1..] == "";
    assert !ScanToken(last, q).closed;
  }

  // ----- and there are no other words

  lemma BitOf(s: string) returns (b: Bit)
    requires s != "" && (s[0] == '\\' ==> |s| > 1)
    ensures Sound(b) && |Written(b)| <= |s| && s == Written(b) + s[|Written(b)|..]
    ensures b.Self? <==> s[0] != '\\'
    ensures b.Self? ==> b.c == s[0]
  {
    if s[0] != '\\' {
      b := Self(s[0]);
    } else if s[1] == 'n' {
      b := LineFeed;
    } else if s[1] == 'r' {
      b := Return;
    } else if s[1] == 't' {
      b := Tab;
    } else {
      b := Escaped(s[1]);
    }
    assert s[..|Written(b)|] == Written(b);
  }

  /** A text behind an opening quote: up to the closing one, or to the end of the line. */
  lemma {:induction false} QuoteEnds(s: string, q: char) returns (bits: seq<Bit>, closed: bool, rest: string)
    requires IsQuote(q)
    ensures Inside(q, bits) && |rest| <= |s|
    ensures if closed then s == WrittenBits(bits) + ([q] + rest) else s == WrittenBits(bits) + rest
    ensures !closed ==> rest == "" || rest == "\\"
    decreases |s|
  {
    bits, closed, rest := [], false, s;
    if s != "" && s[0] == q {
      closed, rest := true, s[1..];
    } else if s != "" && s != "\\" {
      var b := BitOf(s);
      var tail := s[|Written(b)|..];
      var more;
      more, closed, rest := QuoteEnds(tail, q);
      bits := [b] + more;
      assert bits[1..] == more;
      Assoc(Written(b), WrittenBits(more), if closed then [q] + rest else rest);
    }
  }

  lemma PartInFront(p: Part, more: seq<Part>, tail: string)
    requires Fits(p) && AllFit(more)
    ensures AllFit([p] + more) && WrittenWord([p] + more) + tail == WrittenPart(p) + (WrittenWord(more) + tail)
  {
    assert ([p] + more)[1..] == more;
    Assoc(WrittenPart(p), WrittenWord(more), tail);
  }

  /** Every text is a word that ends, or one with an open quote. */
  lemma {:induction false} EveryText(s: string) returns (parts: seq<Part>, tail: string)
    ensures AllFit(parts) && s == WrittenWord(parts) + tail
    ensures Ends(tail) || Opens(tail)
    decreases |s|
  {
    parts, tail := [], s;
    assert WrittenWord([]) + s == s;
    if !Ends(s) {
      var p, rest, open := FirstPart(s);
      if !open {
        var more;
        more, tail := EveryText(rest);
        PartInFront(p, more, tail);
        parts := [p] + more;
      }
    }
  }

  lemma FirstPart(s: string) returns (p: Part, rest: string, open: bool)
    requires !Ends(s)
    ensures open ==> Opens(s)
    ensures !open ==> Fits(p) && s == WrittenPart(p) + rest && |rest| < |s|
  {
    if IsQuote(s[0]) {
      var q := s[0];
      var bits;
      bits, open, rest := QuoteEnds(s[1..], q);
      open := !open;
      p := Group(q, bits);
      assert s == [q] + s[1..];
      if open {
        assert s == OpenText(q, bits, rest == "\\");
      } else {
        assert [q] + (WrittenBits(bits) + ([q] + rest)) == [q] + (WrittenBits(bits) + [q]) + rest;
      }
    } else {
      var b := BitOf(s);
      p, rest, open := Bare(b), s[|Written(b)|..], false;
    }
  }

  // ----- lines

  /** A word and the white space behind it. */
  datatype Spaced = Spaced(parts: seq<Part>, blanks: string)

  predicate Blanks(s: string) {
    forall i :: 0 <= i < |s| ==> IsBlank(s[i])
  }

  /** Every word is something, and white space stands between any two, and in front of what comes last. */
  predicate WellSpaced(words: seq<Spaced>, last: string) {
    forall i :: 0 <= i < |words| ==>
      AllFit(words[i].parts) && words[i].parts != [] && Blanks(words[i].blanks)
      && (i < |words| - 1 || last != "" ==> words[i].blanks != "")
  }

  /** What comes last is nothing, or a word with an open quote. */
  ghost predicate Last(last: string) {
    last == "" || exists parts, tail :: AllFit(parts) && Opens(tail) && last == WrittenWord(parts) + tail
  }

  function LineOf(words: seq<Spaced>, last: string): string {
    if words == [] then last else WrittenWord(words[0].parts) + (words[0].blanks + LineOf(words[1..], last))
  }

  function MeantLine(words: seq<Spaced>): (meant: seq<string>)
    ensures |meant| == |words|
  {
    if words == [] then [] else [MeantWord(words[0].parts)] + MeantLine(words[1..])
  }

  lemma {:induction false} SkipBlanks(blanks: string, rest: string, room: nat)
    requires Blanks(blanks)
    ensures Split(blanks + rest, room) == Split(rest, room)
  {
    if blanks == "" {
      assert blanks + rest == rest;
    } else {
      var s := blanks + rest;
      assert s[1..] == blanks[1..] + rest;
      SkipBlanks(blanks[1..], rest, room);
      assert s[Spaces(s)..] == s[1..][Spaces(s[1..])..];
    }
  }

  lemma WordBegins(parts: seq<Part>)
    requires parts != [] && AllFit(parts)
    ensures WrittenWord(parts) != "" && !IsCmdSpace(WrittenWord(parts)[0])
  {
    var p := parts[0];
    assert WrittenPart(p) != "" && WrittenWord(parts)[0] == WrittenPart(p)[0];
    assert Fits(p);
    if p.Bare? {
      assert !IsCmdSpace(Written(p.bit)[0]);
    }
  }

  /** What the splitter makes of a line. */
  function Tokens(line: string, room: nat): Result<seq<string>> {
    Split(line, room)
  }

  /** The words meant; or that there are too many, the open one included; or that a quote is open. */
  function Expected(meant: seq<string>, last: string, room: nat): Result<seq<string>> {
    if |meant| > room || (|meant| == room && last != "") then Failure(E2BIG)
    else if last != "" then Failure(EINVAL)
    else Value(meant)
  }

  /** The splitter reads every line of words as they are meant, the quotes removed and the escapes resolved,
      whatever the white space in front, between and behind them; or it reports that there are too many, or
      that the last one has an open quote. */
  lemma {:induction false} LineIsRead(lead: string, words: seq<Spaced>, last: string, room: nat)
    requires Blanks(lead) && WellSpaced(words, last) && Last(last)
    ensures Tokens(lead + LineOf(words, last), room) == Expected(MeantLine(words), last, room)
    decreases words, 1
  {
    SkipBlanks(lead, LineOf(words, last), room);
    if words == [] {
      LastIsRead(last, room);
    } else {
      WordsAreRead(words, last, room);
    }
  }

  lemma {:induction false} WordsAreRead(words: seq<Spaced>, last: string, room: nat)
    requires words != [] && WellSpaced(words, last) && Last(last)
    ensures Tokens(LineOf(words, last), room) == Expected(MeantLine(words), last, room)
    decreases words, 0
  {
    var w, rest := words[0], words[1..];
    var line := LineOf(rest, last);
    TailSpaced(words, rest, last);
    if room > 0 {
      LineIsRead(Behind(w), rest, last, room - 1);
    }
    assert LineOf(words, last) == WrittenWord(w.parts) + (w.blanks + line);
    assert MeantLine(words) == [MeantWord(w.parts)] + MeantLine(rest);
    FirstWord(w, line, MeantLine(rest), last, room);
  }

  lemma LastIsRead(last: string, room: nat)
    requires Last(last)
    ensures Tokens(last, room) == Expected([], last, room)
  {
    if last == "" {
      SplitNothing(room);
    } else {
      var parts, tail :| AllFit(parts) && Opens(tail) && last == WrittenWord(parts) + tail;
      OpenIsFound(parts, tail);
      if parts == [] {
        assert last == tail;
      } else {
        WordBegins(parts);
        assert last[0] == WrittenWord(parts)[0];
      }
      SplitHead(last, room);
    }
  }

  lemma TailSpaced(words: seq<Spaced>, rest: seq<Spaced>, last: string)
    requires words != [] && rest == words[1..] && WellSpaced(words, last)
    ensures WellSpaced(rest, last) && Blanks(Behind(words[0]))
    ensures LineOf(rest, last) != "" ==> words[0].blanks != ""
  {
    assert forall i :: 0 <= i < |rest| ==> rest[i] == words[i + 1];
  }

  /** The white space behind a word but for the first. */
  function Behind(w: Spaced): string {
    if w.blanks == "" then "" else w.blanks[1..]
  }

  /** One word in front of a line that is read as the words meant. */
  lemma FirstWord(w: Spaced, line: string, meant: seq<string>, last: string, room: nat)
    requires w.parts != [] && AllFit(w.parts) && Blanks(w.blanks) && (line != "" ==> w.blanks != "")
    requires room > 0 ==> Tokens(Behind(w) + line, room - 1) == Expected(meant, last, room - 1)
    ensures Tokens(WrittenWord(w.parts) + (w.blanks + line), room) ==
            Expected([MeantWord(w.parts)] + meant, last, room)
  {
    var used := WordTaken(w, line);
    HeadTaken(WrittenWord(w.parts) + (w.blanks + line), MeantWord(w.parts), used, Behind(w) + line, room);
  }

  lemma WordTaken(w: Spaced, line: string) returns (used: nat)
    requires w.parts != [] && AllFit(w.parts) && Blanks(w.blanks) && (line != "" ==> w.blanks != "")
    ensures var all := WrittenWord(w.parts) + (w.blanks + line);
      && all != "" && !IsCmdSpace(all[0])
      && ScanToken(all, NUL) == Scan(MeantWord(w.parts), used, true)
      && used <= |all| && all[used..] == Behind(w) + line
  {
    var word, tail := WrittenWord(w.parts), w.blanks + line;
    WordBegins(w.parts);
    assert (word + tail)[0] == word[0];
    assert tail == "" || (tail[0] == w.blanks[0] && IsBlank(tail[0]));
    WordIsRead(w.parts, tail);
    assert MeantWord(w.parts) + "" == MeantWord(w.parts);
    used := |word| + (if tail == "" then 0 else 1);
    BehindWord(w, word, line);
  }

  lemma BehindWord(w: Spaced, word: string, line: string)
    requires line != "" ==> w.blanks != ""
    ensures var tail := w.blanks + line;
      (word + tail)[|word| + (if tail == "" then 0 else 1)..] == Behind(w) + line
  {
  }

  lemma HeadTaken(line: string, token: string, used: nat, rest: string, room: nat)
    requires line != "" && !IsCmdSpace(line[0]) && ScanToken(line, NUL) == Scan(token, used, true)
    requires used <= |line| && line[used..] == rest
    ensures room == 0 ==> Tokens(line, room) == Failure(E2BIG)
    ensures room > 0 ==>
      var more := Tokens(rest, room - 1);
      Tokens(line, room) == if more.Failure? then more else Value([token] + more.value)
  {
    SplitHead(line, room);
  }
}

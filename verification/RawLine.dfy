/** Command lines as raw text: words told apart by blanks alone, and what lies behind them. */
module RawLine {
  import opened Text
  import opened Args

  /** A text without the blanks it begins with. */
  function AfterSpaces(s: string): (r: string)
    ensures |r| <= |s| && (r == "" || !IsCmdSpace(r[0]))
  {
    if s != "" && IsCmdSpace(s[0]) then AfterSpaces(s[1..]) else s
  }

  /** A text without the word it begins with. */
  function AfterWord(s: string): (r: string)
    ensures |r| <= |s| && (r == "" || IsCmdSpace(r[0]))
    ensures s != "" && !IsCmdSpace(s[0]) ==> |r| < |s|
  {
    if s != "" && !IsCmdSpace(s[0]) then AfterWord(s[1..]) else s
  }

  function AfterToken(s: string): string {
    AfterSpaces(AfterWord(AfterSpaces(s)))
  }

  predicate RawPrefixed(s: string) {
    |s| >= 2 && s[..2] == "wt" && (|s| == 2 || s[2] == ' ' || s[2] == '\t')
  }

  /** What lies behind the first tokens of a text, if anything does. */
  function AfterTokens(s: string, tokens: nat): (tail: Option<string>)
    ensures tail.Some? ==> |tail.value| <= |s|
    decreases tokens
  {
    if s == "" then None
    else if tokens == 0 then Some(s)
    else AfterTokens(AfterToken(s), tokens - 1)
  }

  /** The raw line behind a request id. */
  function RawBehindId(line: string): string {
    var s := AfterSpaces(line);
    if s != "" && s[0] == '#' then AfterToken(s) else s
  }

  function RawCommand(line: string): string {
    var t := RawBehindId(line);
    if RawPrefixed(t) then AfterToken(t) else t
  }

  /** Words of the raw line are told apart by blanks alone, whatever quotes they hold. */
  function RawTail(line: string): Option<string> {
    AfterTokens(RawCommand(line), 2)
  }

  // ----- exactly when there is a tail

  /** The word a text begins with. */
  function WordOf(s: string): string {
    if s != "" && !IsCmdSpace(s[0]) then [s[0]] + WordOf(s[1..]) else ""
  }

  lemma {:induction false} WordParts(s: string)
    ensures s == WordOf(s) + AfterWord(s)
    ensures forall i :: 0 <= i < |WordOf(s)| ==> !IsCmdSpace(WordOf(s)[i])
    ensures s != "" && !IsCmdSpace(s[0]) ==> WordOf(s) != "" && WordOf(s)[..1] == [s[0]]
  {
    if s != "" && !IsCmdSpace(s[0]) {
      WordParts(s[1..]);
      Assoc([s[0]], WordOf(s[1..]), AfterWord(s[1..]));
    }
  }

  /** The words of a text, told apart by blanks. */
  function RawWords(s: string): seq<string>
    decreases |s|
  {
    var t := AfterSpaces(s);
    if t == "" then [] else [WordOf(t)] + RawWords(AfterWord(t))
  }

  lemma {:induction false} SpacesOnce(s: string)
    requires s == "" || !IsCmdSpace(s[0])
    ensures AfterSpaces(s) == s
  {
  }

  lemma SameWords(s: string)
    ensures RawWords(AfterSpaces(s)) == RawWords(s)
  {
    SpacesOnce(AfterSpaces(s));
  }

  lemma TokenWords(s: string)
    ensures RawWords(AfterToken(s)) == if RawWords(s) == [] then [] else RawWords(s)[1..]
  {
    var t := AfterSpaces(s);
    SameWords(AfterWord(t));
    if t != "" {
      assert ([WordOf(t)] + RawWords(AfterWord(t)))[1..] == RawWords(AfterWord(t));
    }
  }

  /** Skipping tokens takes words off. */
  lemma {:induction false} TokensWords(s: string, n: nat)
    requires s == "" || !IsCmdSpace(s[0])
    ensures AfterTokens(s, n).None? <==> |RawWords(s)| <= n
    ensures AfterTokens(s, n).Some? ==>
      var t := AfterTokens(s, n).value;
      t != "" && !IsCmdSpace(t[0]) && |RawWords(s)| > n && RawWords(t) == RawWords(s)[n..]
    decreases n
  {
    SpacesOnce(s);
    if s != "" && n > 0 {
      TokenWords(s);
      TokensWords(AfterToken(s), n - 1);
      assert |RawWords(s)| > n ==> RawWords(s)[1..][n - 1..] == RawWords(s)[n..];
    }
  }

  /** How many words are skipped in front of the command: one that begins with '#', and a prefix that is
      followed by a blank or a tab, or ends the line. */
  function Skipped(line: string): nat {
    var words := RawWords(line);
    (if words != [] && words[0][..1] == "#" then 1 else 0) + (if RawPrefixed(RawBehindId(line)) then 1 else 0)
  }

  lemma PrefixIsWord(t: string)
    requires RawPrefixed(t)
    ensures RawWords(t) != [] && RawWords(t)[0] == "wt"
  {
    SpacesOnce(t);
    assert t[0] == t[..2][0] && t[1] == t[..2][1];
    assert WordOf(t) == [t[0]] + WordOf(t[1..]);
    assert t[1..][0] == t[1];
    assert WordOf(t[1..]) == [t[1]] + WordOf(t[1..][1..]);
    assert |t| > 2 ==> t[1..][1..][0] == t[2];
    assert WordOf(t[1..][1..]) == "";
  }

  lemma BehindIdWords(line: string)
    ensures var words, t := RawWords(line), RawBehindId(line);
      && RawWords(t) == (if words != [] && words[0][..1] == "#" then words[1..] else words)
      && (t == "" || !IsCmdSpace(t[0]))
  {
    var s := AfterSpaces(line);
    SameWords(line);
    TokenWords(s);
    if s != "" {
      SpacesOnce(s);
      WordParts(s);
      assert RawWords(line)[0] == WordOf(s);
    }
  }

  /** The message on the raw line, exactly: there is none if no more than two words follow those skipped,
      and else it consists of the words behind these two. */
  lemma TailExactly(line: string)
    ensures RawTail(line).None? <==> |RawWords(line)| <= Skipped(line) + 2
    ensures RawTail(line).Some? ==>
      var t := RawTail(line).value;
      t != "" && !IsCmdSpace(t[0]) && |RawWords(line)| > Skipped(line) + 2
      && RawWords(t) == RawWords(line)[Skipped(line) + 2..]
  {
    var words, t := RawWords(line), RawBehindId(line);
    BehindIdWords(line);
    if RawPrefixed(t) {
      PrefixIsWord(t);
      TokenWords(t);
    }
    TokensWords(RawCommand(line), 2);
    var n := Skipped(line);
    assert n <= |words| && RawWords(RawCommand(line)) == words[n..];
    if |words| > n + 2 {
      assert words[n..][2..] == words[n + 2..];
    }
  }

  // ----- lines of words

  /** A word one can see. */
  predicate Solid(word: string) {
    word != "" && forall i :: 0 <= i < |word| ==> !IsCmdSpace(word[i])
  }

  lemma {:induction false} WordEnds(word: string, rest: string)
    requires (forall i :: 0 <= i < |word| ==> !IsCmdSpace(word[i])) && (rest == "" || IsCmdSpace(rest[0]))
    ensures AfterWord(word + rest) == rest && WordOf(word + rest) == word
  {
    if word == "" {
      assert word + rest == rest;
    } else {
      assert (word + rest)[0] == word[0] && (word + rest)[1..] == word[1..] + rest;
      WordEnds(word[1..], rest);
    }
  }

  /** Skipping a token of a line of solid words takes the first one off. */
  lemma TokenOff(words: seq<string>)
    requires words != [] && forall w :: w in words ==> Solid(w)
    ensures var line := JoinArgs(words);
      line != "" && !IsCmdSpace(line[0]) && words[0] != "" && line[0] == words[0][0]
      && AfterToken(line) == JoinArgs(words[1..])
  {
    var word, tail := words[0], words[1..];
    assert word in words;
    var rest := if tail == [] then "" else " " + JoinArgs(tail);
    assert JoinArgs(words) == word + rest by {
      if tail != [] {
        Assoc(word, " ", JoinArgs(tail));
      }
    }
    WordEnds(word, rest);
    SpacesOnce(word + rest);
    if tail != [] {
      assert tail[0] in words;
      assert rest[1..] == JoinArgs(tail);
      assert JoinArgs(tail)[0] == tail[0][0];
      SpacesOnce(JoinArgs(tail));
    }
  }

  /** The words of a line of solid words are those. */
  lemma {:induction false} SolidWords(words: seq<string>)
    requires forall w :: w in words ==> Solid(w)
    ensures RawWords(JoinArgs(words)) == words
  {
    if words != [] {
      var word, tail := words[0], words[1..];
      assert word in words && forall w :: w in tail ==> w in words;
      SolidWords(tail);
      var rest := if tail == [] then "" else " " + JoinArgs(tail);
      assert JoinArgs(words) == word + rest by {
        if tail != [] {
          Assoc(word, " ", JoinArgs(tail));
        }
      }
      WordEnds(word, rest);
      SpacesOnce(word + rest);
      assert tail != [] ==> rest[1..] == JoinArgs(tail);
      SameWords(rest);
      if tail != [] {
        SameWords(JoinArgs(tail));
      }
      assert RawWords(rest) == tail;
      assert [word] + tail == words;
    }
  }

  // ----- the firmware's pointers

  method SkipSpacesRaw(line: string, p0: nat) returns (p: nat)
    requires p0 <= |line|
    ensures p0 <= p <= |line| && line[p..] == AfterSpaces(line[p0..])
  {
    p := p0;
    ghost var after := AfterSpaces(line[p0..]);
    while p < |line| && IsCmdSpace(line[p])
      invariant p0 <= p <= |line| && AfterSpaces(line[p..]) == after
    {
      SpacesStep(line, p);
      p := p + 1;
    }
    SpacesStep(line, p);
  }

  lemma SpacesStep(line: string, p: nat)
    requires p <= |line|
    ensures AfterSpaces(line[p..]) ==
            if p < |line| && IsCmdSpace(line[p]) then AfterSpaces(line[p + 1..]) else line[p..]
  {
    assert p < |line| ==> line[p..][0] == line[p] && line[p..][1..] == line[p + 1..];
  }

  lemma WordStep(line: string, p: nat)
    requires p <= |line|
    ensures AfterWord(line[p..]) ==
            if p < |line| && !IsCmdSpace(line[p]) then AfterWord(line[p + 1..]) else line[p..]
  {
    assert p < |line| ==> line[p..][0] == line[p] && line[p..][1..] == line[p + 1..];
  }

  method SkipWordRaw(line: string, p0: nat) returns (p: nat)
    requires p0 <= |line|
    ensures p0 <= p <= |line| && line[p..] == AfterWord(line[p0..])
  {
    p := p0;
    ghost var after := AfterWord(line[p0..]);
    while p < |line| && !IsCmdSpace(line[p])
      invariant p0 <= p <= |line| && AfterWord(line[p..]) == after
    {
      WordStep(line, p);
      p := p + 1;
    }
    WordStep(line, p);
  }

  method SkipTokenRaw(line: string, p0: nat) returns (p: nat)
    requires p0 <= |line|
    ensures p0 <= p <= |line| && line[p..] == AfterToken(line[p0..])
  {
    p := SkipSpacesRaw(line, p0);
    p := SkipWordRaw(line, p);
    p := SkipSpacesRaw(line, p);
  }

  /** Where the words of a command begin on its raw line, behind the request id and the prefix. */
  method SkipPrefixRaw(line: string) returns (p: nat)
    ensures p <= |line| && line[p..] == RawCommand(line)
  {
    assert line[0..] == line;
    p := SkipSpacesRaw(line, 0);
    if p < |line| && line[p] == '#' {
      p := SkipTokenRaw(line, p);
    }
    if RawPrefixed(line[p..]) {
      p := SkipTokenRaw(line, p);
    }
  }

  lemma AfterTokensStep(s: string, tokens: nat)
    requires s != "" && tokens > 0
    ensures AfterTokens(s, tokens) == AfterTokens(AfterToken(s), tokens - 1)
  {
  }

  method SkipTokensRaw(line: string, p0: nat, tokens: nat) returns (tail: Option<string>)
    requires p0 <= |line|
    ensures tail == AfterTokens(line[p0..], tokens)
  {
    var p: nat, i: nat := p0, 0;
    ghost var s, all := line[p0..], AfterTokens(line[p0..], tokens);
    while i < tokens
      invariant i <= tokens && p <= |line| && s == line[p..] && AfterTokens(s, tokens - i) == all
    {
      if p == |line| {
        return None;
      }
      AfterTokensStep(s, tokens - i);
      p := SkipTokenRaw(line, p);
      s := AfterToken(s);
      i := i + 1;
    }
    tail := if p == |line| then None else Some(line[p..]);
  }

  /** What lies behind the words of a transmit command on its raw line. */
  method RawTxTail(line: string) returns (tail: Option<string>)
    ensures tail == RawTail(line)
  {
    var p := SkipPrefixRaw(line);
    tail := SkipTokensRaw(line, p, 2);
  }

  // ----- no NUL comes in

  lemma {:induction false} AfterSpacesNulFree(s: string)
    requires NulFree(s)
    ensures NulFree(AfterSpaces(s))
  {
    if s != "" {
      assert forall c :: c in s[1..] ==> c in s;
      AfterSpacesNulFree(s[1..]);
    }
  }

  lemma {:induction false} AfterWordNulFree(s: string)
    requires NulFree(s)
    ensures NulFree(AfterWord(s))
  {
    if s != "" {
      assert forall c :: c in s[1..] ==> c in s;
      AfterWordNulFree(s[1..]);
    }
  }

  lemma AfterTokenNulFree(s: string)
    requires NulFree(s)
    ensures NulFree(AfterToken(s))
  {
    AfterSpacesNulFree(s);
    AfterWordNulFree(AfterSpaces(s));
    AfterSpacesNulFree(AfterWord(AfterSpaces(s)));
  }

  lemma AfterTokensNulFree(s: string, tokens: nat)
    requires NulFree(s)
    ensures AfterTokens(s, tokens).Some? ==> NulFree(AfterTokens(s, tokens).value)
    decreases tokens
  {
    if s != "" && tokens > 0 {
      AfterTokenNulFree(s);
      AfterTokensNulFree(AfterToken(s), tokens - 1);
    }
  }

  lemma TailNulFree(line: string)
    requires NulFree(line)
    ensures RawTail(line).Some? ==> NulFree(RawTail(line).value)
  {
    var s := AfterSpaces(line);
    AfterSpacesNulFree(line);
    AfterTokenNulFree(s);
    AfterTokenNulFree(AfterToken(s));
    assert NulFree(RawBehindId(line));
    AfterTokenNulFree(RawBehindId(line));
    AfterTokensNulFree(RawCommand(line), 2);
  }
}

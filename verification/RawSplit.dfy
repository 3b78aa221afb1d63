/** The splitter's words against the words one sees: the same without quotes, and never more. */
module RawSplit {
  import opened Errno
  import opened Text
  import opened Args
  import opened RawLine

  lemma {:induction false} SpacesAreAfter(s: string)
    ensures s[Spaces(s)..] == AfterSpaces(s)
  {
    if s != "" && IsCmdSpace(s[0]) {
      SpacesAreAfter(s[1..]);
      assert s[Spaces(s)..] == s[1..][Spaces(s[1..])..];
    }
  }

  /** What the splitter makes of a text, and how many words one sees in it. */
  function Tokens(s: string, room: nat): Result<seq<string>> {
    Split(s, room)
  }

  function Count(s: string): nat {
    |RawWords(s)|
  }

  // ----- words without quotes

  predicate Unquoted(s: string) {
    forall i :: 0 <= i < |s| ==> s[i] != '"' && s[i] != '\'' && s[i] != '\\' && s[i] != NUL
  }

  predicate UnquotedWords(words: seq<string>) {
    forall i :: 0 <= i < |words| ==> Unquoted(words[i])
  }

  lemma {:induction false} PartsUnquoted(s: string)
    requires Unquoted(s)
    ensures Unquoted(AfterSpaces(s)) && Unquoted(AfterWord(s)) && Unquoted(WordOf(s))
  {
    if s != "" {
      PartsUnquoted(s[1..]);
    }
  }

  lemma {:induction false} WordsUnquoted(s: string)
    requires Unquoted(s)
    ensures UnquotedWords(RawWords(s))
    decreases |s|
  {
    var t := AfterSpaces(s);
    PartsUnquoted(s);
    PartsUnquoted(t);
    if t != "" {
      WordsUnquoted(AfterWord(t));
    }
  }

  lemma {:induction false} ScanWord(word: string, rest: string)
    requires Unquoted(word) && (forall i :: 0 <= i < |word| ==> !IsCmdSpace(word[i]))
    requires rest == "" || IsCmdSpace(rest[0])
    ensures ScanToken(word + rest, NUL) == Scan(word, |word| + (if rest == "" then 0 else 1), true)
  {
    if word == "" {
      assert word + rest == rest;
    } else {
      Assoc([word[0]], word[1..], rest);
      assert [word[0]] + word[1..] == word;
      ScanWord(word[1..], rest);
      ScanOrdinary(word[0], word[1..] + rest, NUL);
    }
  }

  lemma BeyondBlank(word: string, rest: string)
    ensures (word + rest)[|word| + (if rest == "" then 0 else 1)..] == if rest == "" then "" else rest[1..]
  {
  }

  lemma BlankOff(rest: string)
    requires rest == "" || IsCmdSpace(rest[0])
    ensures RawWords(if rest == "" then "" else rest[1..]) == RawWords(rest)
  {
  }

  lemma FirstWord(s: string)
    requires RawWords(s) != [] && UnquotedWords(RawWords(s))
    ensures var t := AfterSpaces(s);
      && t != "" && RawWords(s) == [WordOf(t)] + RawWords(AfterWord(t))
      && Unquoted(WordOf(t)) && UnquotedWords(RawWords(AfterWord(t)))
  {
    var t := AfterSpaces(s);
    assert RawWords(s) == [WordOf(t)] + RawWords(AfterWord(t));
    assert RawWords(s)[0] == WordOf(t);
    assert forall i :: 0 <= i < |RawWords(AfterWord(t))| ==> RawWords(AfterWord(t))[i] == RawWords(s)[i + 1];
  }

  lemma SplitWordOff(s: string, room: nat, all: seq<string>)
      returns (rest: string, left: nat, more: seq<string>)
    requires all == RawWords(s) && all != [] && UnquotedWords(all) && room > 0
    ensures left + 1 == room && more == RawWords(rest) && UnquotedWords(more)
    ensures all == [all[0]] + more
    ensures var r := Tokens(rest, left);
      Tokens(s, room) == if r.Failure? then r else Value([all[0]] + r.value)
  {
    var t := AfterSpaces(s);
    SpacesAreAfter(s);
    FirstWord(s);
    WordParts(t);
    var word, behind := WordOf(t), AfterWord(t);
    ScanWord(word, behind);
    BeyondBlank(word, behind);
    BlankOff(behind);
    rest, left := if behind == "" then "" else behind[1..], room - 1;
    more := RawWords(rest);
  }

  lemma SplitAtOnce(s: string, room: nat)
    requires RawWords(s) == [] || room == 0
    ensures Tokens(s, room) == if RawWords(s) == [] then Value([]) else Failure(E2BIG)
  {
    SpacesAreAfter(s);
  }

  lemma OneWordMore(all: seq<string>, more: seq<string>, room: nat, rest: Result<seq<string>>, r: Result<seq<string>>)
    requires all != [] && all == [all[0]] + more && room > 0
    requires rest == if |more| <= room - 1 then Value(more) else Failure(E2BIG)
    requires r == if rest.Failure? then rest else Value([all[0]] + rest.value)
    ensures r == if |all| <= room then Value(all) else Failure(E2BIG)
  {
  }

  lemma {:induction false} SplitFinds(s: string, room: nat, all: seq<string>)
    requires all == RawWords(s) && UnquotedWords(all)
    ensures Tokens(s, room) == if |all| <= room then Value(all) else Failure(E2BIG)
    decreases room
  {
    if all == [] || room == 0 {
      SplitAtOnce(s, room);
    } else {
      var rest, left, more := SplitWordOff(s, room, all);
      SplitFinds(rest, left, more);
      OneWordMore(all, more, room, Tokens(rest, left), Tokens(s, room));
    }
  }

  /** Without quotes and backslashes the splitter finds the words one sees. */
  lemma SplitUnquoted(s: string, room: nat)
    requires UnquotedWords(RawWords(s))
    ensures Split(s, room) == if |RawWords(s)| <= room then Value(RawWords(s)) else Failure(E2BIG)
  {
    SplitFinds(s, room, RawWords(s));
    assert Tokens(s, room) == Split(s, room);
  }

  // ----- never more words than one sees

  /** The scan ended at the end of the text or behind a blank. */
  predicate Stops(s: string, t: Scan) {
    t.used < |s| ==> t.used > 0 && IsCmdSpace(s[t.used - 1])
  }

  lemma StopsLater(s: string, n: nat, t: Scan, r: Scan)
    requires n <= |s| && t.used <= |s| - n && Stops(s[n..], t) && r.used == n + t.used
    ensures Stops(s, r)
  {
    assert t.used > 0 && t.used < |s| - n ==> s[n..][t.used - 1] == s[n + t.used - 1];
  }

  /** A token that does not reach the end of the text ends at a blank. */
  lemma {:induction false} ScanStops(s: string, quote: char)
    ensures Stops(s, ScanToken(s, quote))
    decreases |s|
  {
    if s != "" {
      var r := ScanToken(s, quote);
      if s[0] == '\\' && |s| > 1 {
        ScanStops(s[2..], quote);
        StopsLater(s, 2, ScanToken(s[2..], quote), r);
      } else if quote == NUL && IsCmdSpace(s[0]) {
        assert r.used == 1;
      } else {
        var next := if quote != NUL && s[0] == quote then NUL
                    else if quote == NUL && (s[0] == '\'' || s[0] == '"') then s[0] else quote;
        ScanStops(s[1..], next);
        StopsLater(s, 1, ScanToken(s[1..], next), r);
      }
    }
  }

  /** One character less: a blank is no loss, the end of a word is one word less, else as many. */
  lemma CharOff(s: string)
    requires s != ""
    ensures |RawWords(s[1..])| ==
            |RawWords(s)| - if !IsCmdSpace(s[0]) && (|s| == 1 || IsCmdSpace(s[1])) then 1 else 0
  {
    if !IsCmdSpace(s[0]) {
      SpacesOnce(s);
      assert AfterWord(s) == AfterWord(s[1..]);
      if |s| > 1 && !IsCmdSpace(s[1]) {
        SpacesOnce(s[1..]);
      }
    }
  }

  lemma {:induction false} NoMoreWords(s: string, u: nat, rest: string)
    requires u <= |s| && rest == s[u..]
    ensures |RawWords(rest)| <= |RawWords(s)|
    decreases u
  {
    if u == 0 {
      assert rest == s;
    } else {
      var t := s[1..];
      CharOff(s);
      assert rest == t[u - 1..];
      NoMoreWords(t, u - 1, rest);
    }
  }

  /** Behind the end of a word there are fewer. */
  lemma {:induction false} WordBehind(s: string, u: nat, rest: string)
    requires 0 < u <= |s| && !IsCmdSpace(s[0]) && (u == |s| || IsCmdSpace(s[u - 1])) && rest == s[u..]
    ensures |RawWords(rest)| + 1 <= |RawWords(s)|
    decreases u
  {
    var t := s[1..];
    CharOff(s);
    assert rest == t[u - 1..];
    if |s| == 1 || IsCmdSpace(s[1]) {
      NoMoreWords(t, u - 1, rest);
    } else {
      assert u > 1 && t[0] == s[1] && (u < |s| ==> t[u - 2] == s[u - 1]);
      WordBehind(t, u - 1, rest);
    }
  }

  /** The splitter's first word, from the first character one sees, and the rest of the text. */
  lemma SplitsFirst(s: string, room: nat, words: seq<string>)
      returns (t: string, u: nat, rest: string, left: nat, more: seq<string>)
    requires Tokens(s, room) == Value(words) && words != []
    ensures t == AfterSpaces(s) != "" && left + 1 == room && 0 < u <= |t| && rest == t[u..]
    ensures u == |t| || IsCmdSpace(t[u - 1])
    ensures words == [ScanToken(t, NUL).token] + more && u == ScanToken(t, NUL).used
    ensures Tokens(rest, left) == Value(more)
    ensures Count(rest) + 1 <= Count(s)
  {
    t := AfterSpaces(s);
    SpacesAreAfter(s);
    ScanStops(t, NUL);
    ScanProgress(t, NUL);
    u := ScanToken(t, NUL).used;
    rest, left := t[u..], room - 1;
    more := Split(rest, left).value;
    WordBehind(t, u, rest);
    SameWords(s);
  }

  lemma OneMore(words: seq<string>, word: string, more: seq<string>, n: nat, m: nat)
    requires words == [word] + more && |more| <= m && m + 1 <= n
    ensures |words| <= n
  {
  }

  lemma {:induction false} SplitAtMost(s: string, room: nat, words: seq<string>)
    requires Tokens(s, room) == Value(words)
    ensures |words| <= Count(s)
    decreases room
  {
    if words != [] {
      var t, u, rest, left, more := SplitsFirst(s, room, words);
      SplitAtMost(rest, left, more);
      OneMore(words, ScanToken(t, NUL).token, more, Count(s), Count(rest));
    }
  }

  /** From a blank to behind another: only blanks lie between, or a whole word. */
  lemma {:induction false} BlanksOrWord(s: string, u: nat, rest: string)
    requires 0 < u <= |s| && IsCmdSpace(s[0]) && IsCmdSpace(s[u - 1]) && rest == s[u..]
    ensures AfterSpaces(rest) == AfterSpaces(s) || |RawWords(rest)| + 1 <= |RawWords(s)|
    decreases u
  {
    var t := s[1..];
    CharOff(s);
    assert rest == t[u - 1..];
    if u > 1 {
      assert t[0] == s[1] && t[u - 2] == s[u - 1];
      if IsCmdSpace(s[1]) {
        BlanksOrWord(t, u - 1, rest);
      } else {
        WordBehind(t, u - 1, rest);
      }
    }
  }
}

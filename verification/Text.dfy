/** C strings, three-digit numbers and lists of pieces, as the firmware and the console share them. */
module Text {
  const NUL: char := '\0'

  datatype Option<+T> = None | Some(value: T)

  predicate NulFree(s: string) {
    NUL !in s
  }

  /** What a C string function sees of a buffer: everything before the first NUL. */
  function CStr(s: string): (r: string)
    ensures r <= s && NulFree(r)
    ensures |r| < |s| ==> s[|r|] == NUL
  {
    if s == "" || s[0] == NUL then "" else [s[0]] + CStr(s[1..])
  }

  lemma CStrEnds(s: string)
    requires NUL in s
    ensures |CStr(s)| < |s|
  {
    assert |CStr(s)| < |s| || CStr(s) == s;
  }

  lemma CStrAt(s: string, i: nat)
    requires i <= |CStr(s)| < |s|
    ensures s[i] == NUL <==> i == |CStr(s)|
  {
    if i < |CStr(s)| {
      assert CStr(s)[i] == s[i] && CStr(s)[i] in CStr(s);
    }
  }

  lemma {:induction false} CStrOf(text: string, rest: string)
    requires NulFree(text) && rest != "" && rest[0] == NUL
    ensures CStr(text + rest) == text
  {
    if text == "" {
      assert text + rest == rest;
    } else {
      assert (text + rest)[1..] == text[1..] + rest;
      assert text[0] in text;
      CStrOf(text[1..], rest);
    }
  }

  /** Text without its trailing NULs. */
  function StripTrailingNuls(s: string): (r: string)
    ensures r <= s
    ensures forall i :: |r| <= i < |s| ==> s[i] == NUL
    ensures r != "" ==> r[|r| - 1] != NUL
  {
    if s != "" && s[|s| - 1] == NUL then StripTrailingNuls(s[..|s| - 1]) else s
  }

  lemma StripKeeps(s: string)
    requires s == "" || s[|s| - 1] != NUL
    ensures StripTrailingNuls(s) == s
  {
  }

  lemma {:induction false} StripAfter(a: string, b: string)
    requires a != "" && a[|a| - 1] != NUL
    ensures StripTrailingNuls(a + b) == a + StripTrailingNuls(b)
    decreases |b|
  {
    if b == "" {
      assert a + b == a;
    } else if b[|b| - 1] == NUL {
      assert (a + b)[..|a + b| - 1] == a + b[..|b| - 1];
      StripAfter(a, b[..|b| - 1]);
    }
  }

  // ----- white space as the console's script sees it

  predicate IsJsSpace(c: char) {
    var u := c as int;
    || 0x09 <= u <= 0x0D || u == 0x20 || u == 0xA0 || u == 0x1680 || 0x2000 <= u <= 0x200A
    || u == 0x2028 || u == 0x2029 || u == 0x202F || u == 0x205F || u == 0x3000 || u == 0xFEFF
  }

  function TrimEnd(s: string): (r: string)
    ensures r <= s
    ensures forall i :: |r| <= i < |s| ==> IsJsSpace(s[i])
    ensures r != "" ==> !IsJsSpace(r[|r| - 1])
  {
    if s != "" && IsJsSpace(s[|s| - 1]) then TrimEnd(s[..|s| - 1]) else s
  }

  // ----- three decimal digits

  predicate IsDigit(c: char) {
    '0' <= c <= '9'
  }

  function Digit(d: nat): (c: char)
    requires d < 10
    ensures IsDigit(c) && DigitValue(c) == d
  {
    ('0' as int + d) as char
  }

  function DigitValue(c: char): (d: nat)
    requires IsDigit(c)
    ensures d < 10
  {
    c as int - '0' as int
  }

  /** The conversion "%03u" for a number below one thousand. */
  function Pad3(n: nat): (s: string)
    requires n < 1000
    ensures |s| == 3 && AllDigits(s)
    ensures Value3(s) == n
  {
    ThreeDigits(n);
    [Digit(n / 100), Digit(n / 10 % 10), Digit(n % 10)]
  }

  lemma ThreeDigits(n: nat)
    requires n < 1000
    ensures n / 100 < 10 && n == 100 * (n / 100) + 10 * (n / 10 % 10) + n % 10
  {
    assert n / 10 / 10 == n / 100;
  }

  lemma DigitsApart(a: nat, b: nat, c: nat)
    requires a < 10 && b < 10 && c < 10
    ensures var n := 100 * a + 10 * b + c; n / 100 == a && n / 10 % 10 == b && n % 10 == c
  {
    assert (100 * a + 10 * b + c) / 10 == 10 * a + b;
  }

  /** The digits in their order: hundreds, tens, units, each as its character. */
  lemma Pad3Digits(a: nat, b: nat, c: nat)
    requires a < 10 && b < 10 && c < 10
    ensures Pad3(100 * a + 10 * b + c) == [(48 + a) as char, (48 + b) as char, (48 + c) as char]
  {
    DigitsApart(a, b, c);
  }

  predicate AllDigits(s: string) {
    forall i :: 0 <= i < |s| ==> IsDigit(s[i])
  }

  function Value3(s: string): (n: nat)
    requires |s| == 3 && AllDigits(s)
    ensures n < 1000
  {
    100 * DigitValue(s[0]) + 10 * DigitValue(s[1]) + DigitValue(s[2])
  }

  // ----- lists of pieces

  function Flatten(pieces: seq<string>): string {
    if pieces == [] then "" else pieces[0] + Flatten(pieces[1..])
  }

  lemma {:induction false} FlattenAppend(a: seq<string>, b: seq<string>)
    ensures Flatten(a + b) == Flatten(a) + Flatten(b)
  {
    if a == [] {
      assert a + b == b;
    } else {
      assert (a + b)[1..] == a[1..] + b;
      FlattenAppend(a[1..], b);
    }
  }

  lemma Assoc<T>(a: seq<T>, b: seq<T>, c: seq<T>)
    ensures a + b + c == a + (b + c)
  {
  }

  /** a arises from b by leaving elements out. */
  ghost predicate Subsequence<T>(a: seq<T>, b: seq<T>) {
    if a == [] then true
    else if b == [] then false
    else (a[0] == b[0] && Subsequence(a[1..], b[1..])) || Subsequence(a, b[1..])
  }

  lemma {:induction false} SubsequenceRefl<T>(a: seq<T>)
    ensures Subsequence(a, a)
  {
    if a != [] {
      SubsequenceRefl(a[1..]);
    }
  }

  lemma {:induction false} SubsequenceAppend<T>(a: seq<T>, b: seq<T>, c: seq<T>, d: seq<T>)
    requires Subsequence(a, b) && Subsequence(c, d)
    ensures Subsequence(a + c, b + d)
  {
    if b == [] {
      assert a + c == c && b + d == d;
    } else {
      assert (b + d)[1..] == b[1..] + d;
      if a == [] {
        assert a + c == c;
        SubsequenceAppend([], b[1..], c, d);
        assert [] + c == c;
      } else if a[0] == b[0] && Subsequence(a[1..], b[1..]) {
        assert (a + c)[1..] == a[1..] + c;
        SubsequenceAppend(a[1..], b[1..], c, d);
      } else {
        SubsequenceAppend(a, b[1..], c, d);
      }
    }
  }

  lemma {:induction false} SubsequenceMember<T>(a: seq<T>, b: seq<T>, x: T)
    requires Subsequence(a, b) && x in a
    ensures x in b
  {
    if a[0] == b[0] && Subsequence(a[1..], b[1..]) {
      if x != a[0] {
        SubsequenceMember(a[1..], b[1..], x);
      }
    } else {
      SubsequenceMember(a, b[1..], x);
    }
  }
}

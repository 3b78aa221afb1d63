/** Request ids in front of responses: when a response carries one, and how the console takes it off. */
module ResponseIds {
  import opened Text
  import opened Response

  predicate Spaces(s: string) {
    forall i :: 0 <= i < |s| ==> IsJsSpace(s[i])
  }

  predicate Solid(s: string) {
    forall i :: 0 <= i < |s| ==> !IsJsSpace(s[i])
  }

  // ----- the console's view

  /** A text without the white space it begins with. */
  function TrimStart(s: string): (r: string)
    ensures |r| <= |s| && (r != "" ==> !IsJsSpace(r[0]))
  {
    if s != "" && IsJsSpace(s[0]) then TrimStart(s[1..]) else s
  }

  lemma {:induction false} TrimStartParts(s: string) returns (front: string)
    ensures s == front + TrimStart(s) && Spaces(front)
  {
    if s != "" && IsJsSpace(s[0]) {
      var more := TrimStartParts(s[1..]);
      front := [s[0]] + more;
      assert s == [s[0]] + (more + TrimStart(s[1..]));
      Assoc([s[0]], more, TrimStart(s[1..]));
    } else {
      front := "";
    }
  }

  function Trim(s: string): string {
    TrimEnd(TrimStart(s))
  }

  /** The word a text begins with, if it does not begin with white space. */
  function Word(s: string): (w: string)
    ensures w <= s && Solid(w) && (|w| < |s| ==> IsJsSpace(s[|w|]))
  {
    if s != "" && !IsJsSpace(s[0]) then [s[0]] + Word(s[1..]) else ""
  }

  /** The pattern of the console: '#', at least one character that is no white space, and at least one
      that is, at the beginning of the text, are taken off; then the text is trimmed. */
  function StripRequestId(text: string): string {
    if text != "" && text[0] == '#' && 0 < |Word(text[1..])| < |text| - 1 then
      Trim(text[1 + |Word(text[1..])|..])
    else Trim(text)
  }

  // ----- trimming

  lemma {:induction false} TrimFront(a: string, b: string)
    requires Spaces(a)
    ensures TrimStart(a + b) == TrimStart(b)
  {
    if a == "" {
      assert a + b == b;
    } else {
      assert (a + b)[1..] == a[1..] + b;
      TrimFront(a[1..], b);
    }
  }

  lemma {:induction false} TrimBack(a: string, b: string)
    requires !Spaces(b)
    ensures TrimEnd(a + b) == a + TrimEnd(b)
    decreases |b|
  {
    if IsJsSpace(b[|b| - 1]) {
      var c := b[..|b| - 1];
      assert (a + b)[..|a + b| - 1] == a + c;
      assert !Spaces(c) by {
        var i :| 0 <= i < |b| && !IsJsSpace(b[i]);
        assert c[i] == b[i];
      }
      TrimBack(a, c);
    } else {
      assert (a + b)[|a + b| - 1] == b[|b| - 1];
    }
  }

  lemma TrimSpaces(s: string)
    requires Spaces(s)
    ensures TrimStart(s) == "" && TrimEnd(s) == ""
  {
    var front := TrimStartParts(s);
    SpacesBoth(front, TrimStart(s));
  }

  lemma SpacesBoth(a: string, b: string)
    ensures Spaces(a + b) <==> Spaces(a) && Spaces(b)
  {
    forall i | 0 <= i < |a + b|
      ensures (a + b)[i] == if i < |a| then a[i] else b[i - |a|]
    {
    }
    if Spaces(a + b) {
      assert forall i :: 0 <= i < |a| ==> (a + b)[i] == a[i];
      assert forall i :: 0 <= i < |b| ==> (a + b)[|a| + i] == b[i];
    }
  }

  lemma TrimDots(s: string)
    requires !Spaces(s)
    ensures TrimEnd(s) != "" && !Spaces(TrimStart(s))
  {
    var front := TrimStartParts(s);
    SpacesBoth(front, TrimStart(s));
  }

  lemma TrimLess(b: string)
    requires !Spaces(b)
    ensures |Trim(b)| <= |TrimEnd(b)|
  {
    var front := TrimStartParts(b);
    TrimDots(b);
    TrimBack(front, TrimStart(b));
  }

  /** More in front makes the trimmed text longer, unless it is white space. */
  lemma TrimLonger(a: string, b: string, t: string)
    requires a != "" && !IsJsSpace(a[0]) && t == a + b
    ensures |Trim(t)| > |Trim(b)|
  {
    assert t[0] == a[0] && TrimStart(t) == t;
    if Spaces(b) {
      TrimSpaces(b);
      TrimDots(t);
    } else {
      TrimBack(a, b);
      TrimLess(b);
    }
  }

  // ----- exactly

  /** The request id stands in front of a response, with '#' before it and a blank behind, exactly if there
      is one and the response does not begin with '#' itself. */
  lemma TaggedExactly(text: string, reqId: string)
    ensures WithId(text, reqId) ==
            if reqId != "" && (text == "" || text[0] != '#') then "#" + reqId + " " + text else text
    ensures WithId(text, reqId) == text <==> reqId == "" || (text != "" && text[0] == '#')
  {
    assert |"#" + reqId + " " + text| > |text|;
  }

  /** The console sees the response's own text behind its request id exactly if the id is a word, perhaps
      with white space behind it. */
  lemma IdComesOff(text: string, reqId: string)
    requires reqId != "" && (text == "" || text[0] != '#')
    ensures StripRequestId(WithId(text, reqId)) == Trim(text) <==> Word(reqId) != "" && Spaces(reqId[|Word(reqId)|..])
  {
    var w := Word(reqId);
    var rest := reqId[|w|..];
    assert reqId == w + rest;
    TaggedExactly(text, reqId);
    assert "#" + reqId + " " + text == "#" + (w + (rest + (" " + text)));
    PartsComeOff(w, rest, text);
  }

  lemma PartsComeOff(w: string, rest: string, text: string)
    requires Solid(w) && (rest == "" || IsJsSpace(rest[0]))
    ensures StripRequestId("#" + (w + (rest + (" " + text)))) == Trim(text) <==> w != "" && Spaces(rest)
  {
    var tail := rest + (" " + text);
    Stripped(w, tail);
    if w == "" {
      assert "#" + (w + tail) == "#" + rest + " " + text;
      TrimLonger("#" + rest + " ", text, "#" + (w + tail));
    } else {
      Behind(rest, text, tail);
    }
  }

  lemma Stripped(w: string, tail: string)
    requires Solid(w) && tail != "" && IsJsSpace(tail[0])
    ensures StripRequestId("#" + (w + tail)) == Trim(if w == "" then "#" + (w + tail) else tail)
  {
    var whole := "#" + (w + tail);
    WordStops(w, tail);
    assert whole[1..] == w + tail;
    assert whole[1 + |w|..] == tail;
  }

  lemma {:induction false} WordStops(w: string, tail: string)
    requires Solid(w) && tail != "" && IsJsSpace(tail[0])
    ensures Word(w + tail) == w
  {
    if w == "" {
      assert w + tail == tail;
    } else {
      assert (w + tail)[1..] == w[1..] + tail;
      WordStops(w[1..], tail);
    }
  }

  lemma Behind(rest: string, text: string, tail: string)
    requires tail == rest + (" " + text)
    ensures Trim(tail) == Trim(text) <==> Spaces(rest)
  {
    if Spaces(rest) {
      TrimFront(rest + " ", text);
      assert tail == rest + " " + text;
    } else {
      var front := TrimStartParts(rest);
      var s := TrimStart(rest);
      var behind := s + (" " + text);
      TrimDots(rest);
      Assoc(front, s, " " + text);
      TrimFront(front, behind);
      assert behind == s + " " + text;
      TrimLonger(s + " ", text, behind);
    }
  }
}

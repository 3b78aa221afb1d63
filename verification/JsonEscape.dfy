/** Escaping network names for JSON text (section 7 of RFC 8259) into a bounded buffer. */
module JsonEscape {
  import opened Text
  import ScanTable

  /** The characters written with a backslash, and the letter behind it. */
  function Letter(c: char): Option<char> {
    match c
    case '"' => Some('"')
    case '\\' => Some('\\')
    case '\n' => Some('n')
    case '\r' => Some('r')
    case '\t' => Some('t')
    case _ => None
  }

  predicate IsControl(c: char) {
    c as int < 0x20
  }

  /** All characters are kept but those below 32 other than tab, line feed and carriage return. */
  predicate Kept(c: char) {
    c as int >= 32 || c as int == 9 || c as int == 10 || c as int == 13
  }

  function EscapeChar(c: char): (r: string)
    ensures |r| <= 2
  {
    if Letter(c).Some? then ['\\', Letter(c).value] else if IsControl(c) then "" else [c]
  }

  function Escape(s: string): (r: string)
    ensures |r| <= 2 * |s|
  {
    if s == "" then "" else EscapeChar(s[0]) + Escape(s[1..])
  }

  function KeptOf(s: string): string {
    if s == "" then "" else (if Kept(s[0]) then [s[0]] else "") + KeptOf(s[1..])
  }

  // ----- a reader of JSON string bodies

  function Named(c: char): Option<char> {
    match c
    case '"' => Some('"')
    case '\\' => Some('\\')
    case 'n' => Some('\n')
    case 'r' => Some('\r')
    case 't' => Some('\t')
    case _ => None
  }

  /** The text a string body stands for, if it is one: no bare quote, no character below 32, and every
      backslash in front of a letter that names a character. */
  function Unescape(s: string): Option<string>
    decreases |s|
  {
    if s == "" then Some("")
    else if s[0] == '"' || s[0] as int < 32 then None
    else if s[0] == '\\' then
      if |s| > 1 && Named(s[1]).Some? then Then(Named(s[1]).value, Unescape(s[2..])) else None
    else Then(s[0], Unescape(s[1..]))
  }

  function Then(c: char, rest: Option<string>): Option<string> {
    if rest.None? then None else Some([c] + rest.value)
  }

  lemma UnescapeChar(c: char, tail: string)
    ensures Unescape(EscapeChar(c) + tail) == if Kept(c) then Then(c, Unescape(tail)) else Unescape(tail)
  {
    if Letter(c).Some? {
      UnescapePair(c, tail);
    } else if IsControl(c) {
      assert "" + tail == tail;
    } else {
      assert ([c] + tail)[1..] == tail;
    }
  }

  lemma UnescapePair(c: char, tail: string)
    requires Letter(c).Some?
    ensures Kept(c) && Unescape(EscapeChar(c) + tail) == Then(c, Unescape(tail))
  {
    var e := EscapeChar(c);
    assert (e + tail)[2..] == tail;
    assert Named(e[1]) == Some(c);
  }

  // ----- with limited room

  /** What one character turns into when room bytes are left in front of the terminator: an escape
      needs two of them; at the last byte a quote or backslash goes out bare, the other three are
      dropped. */
  function Written(c: char, room: nat): (r: string)
    requires room > 0
    ensures |r| <= room
  {
    if Letter(c).Some? && room >= 2 then ['\\', Letter(c).value]
    else if IsControl(c) then ""
    else [c]
  }

  function Fill(s: string, room: nat): (r: string)
    ensures |r| <= room
    decreases s, room
  {
    if s == "" || room == 0 then ""
    else
      var e := Written(s[0], room);
      e + Fill(s[1..], room - |e|)
  }

  /** The output is the whole escaped text exactly if that fits. */
  lemma {:induction false} FillIsEscape(s: string, room: nat)
    ensures Fill(s, room) == Escape(s) <==> |Escape(s)| <= room
  {
    if s != "" && room > 0 {
      var e := EscapeChar(s[0]);
      if |e| <= room {
        FillIsEscape(s[1..], room - |e|);
        assert Fill(s, room) == e + Fill(s[1..], room - |e|);
        assert forall t :: (e + t)[|e|..] == t;
      }
    }
  }

  /** What does not fit is cut: all but the last byte of the room holds the escaped text as far as it goes. */
  lemma {:induction false} FillBegins(s: string, room: nat)
    requires room > 0 && |Escape(s)| > room
    ensures var f := Fill(s, room);
      room - 1 <= |f| <= room && f[..room - 1] == Escape(s)[..room - 1]
    decreases |s|
  {
    var e := EscapeChar(s[0]);
    if |e| < room {
      FillBegins(s[1..], room - |e|);
      assert Fill(s, room) == e + Fill(s[1..], room - |e|);
    }
  }

  /** The first character after position k that is written at all is a quote or a backslash. */
  ghost predicate BareNext(s: string, k: nat)
    requires k <= |s|
  {
    exists j :: k <= j < |s| && (s[j] == '"' || s[j] == '\\') && forall i :: k <= i < j ==> IsControl(s[i])
  }

  /** One byte is left in front of position k, and a quote or backslash is due there. */
  ghost predicate TightAt(s: string, k: nat, room: nat)
    requires k <= |s|
  {
    |Escape(s[..k])| + 1 == room && BareNext(s, k)
  }

  /** One byte is left when a quote or backslash is due. */
  ghost predicate Tight(s: string, room: nat) {
    exists k: nat :: k <= |s| && TightAt(s, k, room)
  }

  /** Whatever the size of the buffer, the output is the body of a JSON string unless one byte is left
      when a quote or a backslash is due; and then it is not. */
  lemma {:induction false} WellFormedExactly(s: string, room: nat)
    ensures Unescape(Fill(s, room)).None? <==> Tight(s, room)
    decreases |s|
  {
    if s == "" || room == 0 {
      assert Fill(s, room) == "";
    } else {
      var e, rest := EscapeChar(s[0]), s[1..];
      if |e| <= room {
        assert Fill(s, room) == e + Fill(rest, room - |e|);
        UnescapeChar(s[0], Fill(rest, room - |e|));
        WellFormedExactly(rest, room - |e|);
        TightFront(s, room);
      } else if IsControl(s[0]) {
        WellFormedExactly(rest, 1);
        TightLast(s);
      } else {
        assert Fill(s, room) == [s[0]];
        assert s[..0] == "";
        assert TightAt(s, 0, room);
      }
    }
  }

  lemma EscapeFront(s: string, k: nat)
    requires 0 < k <= |s|
    ensures Escape(s[..k]) == EscapeChar(s[0]) + Escape(s[1..][..k - 1])
  {
    assert s[..k][1..] == s[1..][..k - 1];
  }

  lemma BareNextShift(s: string, k: nat)
    requires 0 < k <= |s|
    ensures BareNext(s, k) <==> BareNext(s[1..], k - 1)
  {
    if BareNext(s, k) {
      var j :| k <= j < |s| && (s[j] == '"' || s[j] == '\\') && forall i :: k <= i < j ==> IsControl(s[i]);
      assert s[1..][j - 1] == s[j];
    }
    if BareNext(s[1..], k - 1) {
      var j :| k - 1 <= j < |s[1..]| && (s[1..][j] == '"' || s[1..][j] == '\\')
               && forall i :: k - 1 <= i < j ==> IsControl(s[1..][i]);
      assert s[j + 1] == s[1..][j];
      assert forall i :: k <= i < j + 1 ==> s[i] == s[1..][i - 1];
    }
  }

  lemma EscapeGrows(s: string, k: nat)
    requires k <= |s|
    ensures k > 0 ==> |Escape(s[..k])| >= |EscapeChar(s[0])|
  {
    if k > 0 {
      EscapeFront(s, k);
    }
  }

  lemma TightAtFront(s: string, k: nat, room: nat)
    requires 0 < k <= |s| && |EscapeChar(s[0])| <= room
    ensures TightAt(s, k, room) <==> TightAt(s[1..], k - 1, room - |EscapeChar(s[0])|)
  {
    EscapeFront(s, k);
    BareNextShift(s, k);
  }

  lemma TightAtStart(s: string, room: nat)
    requires s != "" && |EscapeChar(s[0])| <= room && TightAt(s, 0, room)
    ensures TightAt(s, 1, room)
  {
    assert s[..0] == "";
    BareControl(s, 0);
    EscapeFront(s, 1);
    assert s[1..][..0] == "";
  }

  lemma TightFront(s: string, room: nat)
    requires s != "" && room > 0 && |EscapeChar(s[0])| <= room
    ensures Tight(s, room) <==> Tight(s[1..], room - |EscapeChar(s[0])|)
  {
    var rest, left := s[1..], room - |EscapeChar(s[0])|;
    if Tight(s, room) {
      var k: nat :| k <= |s| && TightAt(s, k, room);
      if k == 0 {
        TightAtStart(s, room);
        TightAtFront(s, 1, room);
        assert TightAt(rest, 0, left);
      } else {
        TightAtFront(s, k, room);
        assert TightAt(rest, k - 1, left);
      }
    }
    if Tight(rest, left) {
      var k: nat :| k <= |rest| && TightAt(rest, k, left);
      TightAtFront(s, k + 1, room);
      assert TightAt(s, k + 1, room);
    }
  }

  lemma TightLast(s: string)
    requires s != "" && IsControl(s[0]) && |EscapeChar(s[0])| == 2
    ensures Tight(s, 1) <==> Tight(s[1..], 1)
  {
    var rest := s[1..];
    BareNextShift(s, 1);
    BareControl(s, 0);
    assert s[..0] == "" && rest[..0] == "";
    if Tight(s, 1) {
      var k: nat :| k <= |s| && TightAt(s, k, 1);
      assert k == 0 by {
        EscapeGrows(s, k);
      }
      assert TightAt(rest, 0, 1);
    }
    if Tight(rest, 1) {
      var k: nat :| k <= |rest| && TightAt(rest, k, 1);
      Dropped(rest, k);
      assert TightAt(s, 0, 1);
    }
  }

  lemma BareControl(s: string, k: nat)
    requires k < |s| && IsControl(s[k])
    ensures BareNext(s, k) <==> BareNext(s, k + 1)
  {
    if BareNext(s, k + 1) {
      var j :| k + 1 <= j < |s| && (s[j] == '"' || s[j] == '\\') && forall i :: k + 1 <= i < j ==> IsControl(s[i]);
      assert k <= j < |s| && forall i :: k <= i < j ==> IsControl(s[i]);
    }
  }

  /** Characters that leave no trace in the output are control characters. */
  lemma {:induction false} Dropped(s: string, k: nat)
    requires k <= |s| && Escape(s[..k]) == "" && BareNext(s, k)
    ensures BareNext(s, 0)
  {
    if k > 0 {
      assert s[..k] == s[..k - 1] + [s[k - 1]];
      EscapeLast(s[..k - 1], s[k - 1]);
      BareControl(s, k - 1);
      Dropped(s, k - 1);
    }
  }

  lemma EscapeLast(s: string, c: char)
    ensures Escape(s + [c]) == Escape(s) + EscapeChar(c)
  {
    EscapeAppend(s, [c]);
    assert [c][1..] == "";
    assert Escape([c]) == EscapeChar(c) + Escape("");
  }

  lemma {:induction false} EscapeAppend(s: string, t: string)
    ensures Escape(s + t) == Escape(s) + Escape(t)
  {
    if s == "" {
      assert s + t == t;
    } else {
      assert (s + t)[1..] == s[1..] + t;
      EscapeAppend(s[1..], t);
      Assoc(EscapeChar(s[0]), Escape(s[1..]), Escape(t));
    }
  }

  lemma {:induction false} AllKept(s: string)
    ensures KeptOf(s) == s <==> forall i :: 0 <= i < |s| ==> Kept(s[i])
    ensures |KeptOf(s)| <= |s|
  {
    if s != "" {
      AllKept(s[1..]);
      assert Kept(s[0]) ==> ([s[0]] + KeptOf(s[1..]))[1..] == KeptOf(s[1..]);
      assert forall i :: 0 < i < |s| ==> s[i] == s[1..][i - 1];
      if Kept(s[0]) && KeptOf(s) == s {
        assert KeptOf(s[1..]) == s[1..];
      }
    }
  }

  /** A text reads back as it was exactly if it has no character below 32 but tab, line feed and carriage
      return; blanks and all other printable characters survive. */
  lemma ReadsBackExactly(s: string)
    ensures Unescape(Escape(s)) == Some(s) <==>
            forall i :: 0 <= i < |s| ==> s[i] as int >= 32 || s[i] == '\n' || s[i] == '\r' || s[i] == '\t'
  {
    UnescapeEscape(s);
    AllKept(s);
  }

  /** Reading the escaped text back gives the source without its other characters below 32. */
  lemma {:induction false} UnescapeEscape(s: string)
    ensures Unescape(Escape(s)) == Some(KeptOf(s))
  {
    if s == "" {
      assert Escape(s) == "";
    } else {
      UnescapeEscape(s[1..]);
      UnescapeChar(s[0], Escape(s[1..]));
      assert Escape(s) == EscapeChar(s[0]) + Escape(s[1..]);
      assert "" + KeptOf(s[1..]) == KeptOf(s[1..]);
    }
  }

  // ----- the firmware's loop

  /** Escapes a C string into dst. Returns the length; dst holds the text and its terminator. */
  method EscapeInto(dst: array<char>, src: Option<array<char>>) returns (len: nat)
    requires src.Some? ==> src.value != dst && NUL in src.value[..]
    modifies dst
    ensures dst.Length == 0 ==> len == 0
    ensures dst.Length > 0 ==>
      var text := if src.Some? then Fill(CStr(src.value[..]), dst.Length - 1) else "";
      len == |text| < dst.Length && dst[..len] == text && dst[len] == NUL
  {
    len := 0;
    if dst.Length == 0 {
      return;
    }
    if src.None? {
      dst[0] := NUL;
      return;
    }
    len := EscapeLoop(dst, src.value);
    dst[len] := NUL;
  }

  method EscapeLoop(dst: array<char>, src: array<char>) returns (len: nat)
    requires src != dst && NUL in src[..] && dst.Length > 0
    modifies dst
    ensures len < dst.Length && dst[..len] == Fill(CStr(src[..]), dst.Length - 1)
  {
    ghost var buf, text, room := src[..], CStr(src[..]), dst.Length - 1;
    CStrEnds(buf);
    len := 0;
    var i: nat := 0;
    CStrAt(buf, i);
    assert text[0..] == text;
    while src[i] != NUL && len + 1 < dst.Length
      invariant i <= |text| < src.Length && len < dst.Length
      invariant src[i] == NUL <==> i == |text|
      invariant ToFill(dst[..len], text, i, room)
      decreases |text| - i
    {
      ToFillStep(dst[..len], text, i, room);
      assert buf[i] == text[i];
      len := EscapeNext(dst, len, src[i]);
      i := i + 1;
      CStrAt(buf, i);
    }
    ToFillEnd(dst[..len], text, i, room);
  }

  /** The output so far and what the rest of the text will fill up make the whole output. */
  ghost predicate ToFill(now: string, text: string, i: nat, room: nat) {
    i <= |text| && |now| <= room && now + Fill(text[i..], room - |now|) == Fill(text, room)
  }

  lemma ToFillStep(now: string, text: string, i: nat, room: nat)
    requires ToFill(now, text, i, room) && i < |text| && |now| < room
    ensures ToFill(now + Written(text[i], room - |now|), text, i + 1, room)
  {
    var e := Written(text[i], room - |now|);
    assert text[i..][1..] == text[i + 1..];
    Assoc(now, e, Fill(text[i + 1..], room - |now| - |e|));
  }

  lemma ToFillEnd(now: string, text: string, i: nat, room: nat)
    requires ToFill(now, text, i, room) && (i == |text| || |now| == room)
    ensures now == Fill(text, room)
  {
    assert now + "" == now;
  }

  /** One turn of the loop. */
  method EscapeNext(dst: array<char>, off: nat, c: char) returns (next: nat)
    requires off + 1 < dst.Length
    modifies dst
    ensures next < dst.Length && dst[..next] == old(dst[..off]) + Written(c, dst.Length - 1 - off)
  {
    next := off;
    if (c == '"' || c == '\\') && off + 2 < dst.Length {
      dst[off], dst[off + 1] := '\\', c;
      next := off + 2;
    } else if c == '\n' && off + 2 < dst.Length {
      dst[off], dst[off + 1] := '\\', 'n';
      next := off + 2;
    } else if c == '\r' && off + 2 < dst.Length {
      dst[off], dst[off + 1] := '\\', 'r';
      next := off + 2;
    } else if c == '\t' && off + 2 < dst.Length {
      dst[off], dst[off + 1] := '\\', 't';
      next := off + 2;
    } else if IsControl(c) {
    } else {
      dst[off] := c;
      next := off + 1;
    }
  }

  // ----- network names

  /** A listed network's name, at most 32 bytes, always fits the buffer of 65: what is sent in the JSON
      reads back as the name, but for characters below 32 other than tab, line feed and carriage return;
      as the very name exactly if it has none of them. */
  lemma NameReadsBack(r: ScanTable.Report)
    requires ScanTable.WellSized(r)
    ensures var name := ScanTable.Name(r);
      && Unescape(Fill(name, 64)) == Some(KeptOf(name))
      && (Unescape(Fill(name, 64)) == Some(name) <==>
            forall i :: 0 <= i < |name| ==>
              name[i] as int >= 32 || name[i] == '\n' || name[i] == '\r' || name[i] == '\t')
  {
    var name := ScanTable.Name(r);
    ScanTable.NameExactly(r);
    FillIsEscape(name, 64);
    UnescapeEscape(name);
    ReadsBackExactly(name);
  }
}

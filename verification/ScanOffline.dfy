/** The scan table against the answer one would compute from the whole scan at once. */
module ScanOffline {
  import opened Text
  import opened ScanTable

  // ----- two rankings of the same things

  function SetOf(names: seq<string>): set<string> {
    set n | n in names
  }

  ghost predicate Distinct(names: seq<string>) {
    forall i, j :: 0 <= i < j < |names| ==> names[i] != names[j]
  }

  ghost predicate Falling(values: seq<int>) {
    forall i, j :: 0 <= i < j < |values| ==> values[i] >= values[j]
  }

  lemma {:induction false} SetSize(names: seq<string>)
    ensures |SetOf(names)| <= |names|
    ensures Distinct(names) ==> |SetOf(names)| == |names|
  {
    if names != [] {
      var n := |names| - 1;
      SetSize(names[..n]);
      assert SetOf(names) == SetOf(names[..n]) + {names[n]};
    }
  }

  lemma FewerNames(a: seq<string>, b: seq<string>)
    requires Distinct(a) && forall n :: n in a ==> n in b
    ensures |a| <= |b|
  {
    SetSize(a);
    SetSize(b);
    assert SetOf(a) <= SetOf(b);
    assert SetOf(b) == SetOf(a) + (SetOf(b) - SetOf(a));
  }

  /** Some names with their values, strongest first, out of all names with theirs: values agree, and
      nothing left out is stronger than anything taken, nor is anything left out while there is room. */
  ghost predicate Best(rows: seq<string>, signal: seq<int>, names: seq<string>, value: seq<int>, room: nat) {
    && |signal| == |rows| <= room && |value| == |names|
    && Distinct(rows) && Distinct(names) && Falling(signal) && Falling(value)
    && (forall n :: n in rows ==> n in names)
    && (forall k, l :: 0 <= k < |rows| && 0 <= l < |names| && rows[k] == names[l] ==> signal[k] == value[l])
    && (forall l :: 0 <= l < |names| && names[l] !in rows ==>
          |rows| == room && forall k :: 0 <= k < |rows| ==> value[l] <= signal[k])
  }

  lemma SameLength(rows: seq<string>, signal: seq<int>, names: seq<string>, value: seq<int>, room: nat)
    requires Best(rows, signal, names, value, room)
    ensures |rows| == Min(room, |names|)
  {
    FewerNames(rows, names);
    if |rows| < room {
      forall n | n in names
        ensures n in rows
      {
        var l :| 0 <= l < |names| && names[l] == n;
      }
      FewerNames(names, rows);
    }
  }

  /** If row i were stronger than the i-th name, i + 1 rows would share the first i names. */
  lemma NotStronger(rows: seq<string>, signal: seq<int>, names: seq<string>, value: seq<int>, room: nat, i: nat)
    requires Best(rows, signal, names, value, room) && i < |rows| && i < |names|
    ensures signal[i] <= value[i]
  {
    if signal[i] > value[i] {
      var a, b := rows[..i + 1], names[..i];
      forall n | n in a
        ensures n in b
      {
        var k :| 0 <= k < |a| && a[k] == n;
        assert rows[k] in names;
        var l :| 0 <= l < |names| && names[l] == rows[k];
        assert value[l] == signal[k] >= signal[i];
        assert b[l] == n;
      }
      FewerNames(a, b);
    }
  }

  /** If it were weaker, i + 1 names would share the first i rows. */
  lemma NotWeaker(rows: seq<string>, signal: seq<int>, names: seq<string>, value: seq<int>, room: nat, i: nat)
    requires Best(rows, signal, names, value, room) && i < |rows| && i < |names|
    ensures value[i] <= signal[i]
  {
    if value[i] > signal[i] {
      var a, b := names[..i + 1], rows[..i];
      forall n | n in a
        ensures n in b
      {
        var l :| 0 <= l < |a| && a[l] == n;
        assert value[l] >= value[i];
        assert names[l] in rows;
        var k :| 0 <= k < |rows| && rows[k] == names[l];
        assert signal[k] == value[l] > signal[i];
        assert b[k] == n;
      }
      FewerNames(a, b);
    }
  }

  // ----- the scan

  /** The strongest signal ever reported under a name. */
  ghost predicate Peak(seen: seq<Report>, name: string, value: int)
    requires AllSized(seen)
  {
    && (exists r :: r in seen && Name(r) == name && r.rssi == value)
    && (forall r :: r in seen && Name(r) == name ==> r.rssi <= value)
  }

  /** The offline answer: all names seen, each once, strongest first, with their strongest signals. */
  ghost predicate Ranking(names: seq<string>, value: seq<int>, seen: seq<Report>)
    requires AllSized(seen)
  {
    && |names| == |value| && Distinct(names) && Falling(value)
    && (forall r :: r in seen ==> Name(r) in names)
    && (forall i :: 0 <= i < |names| ==> Peak(seen, names[i], value[i]))
  }

  // ----- the offline answer exists

  ghost predicate Peaks(names: seq<string>, value: seq<int>, seen: seq<Report>)
    requires AllSized(seen)
  {
    |names| == |value| && forall i :: 0 <= i < |names| ==> Peak(seen, names[i], value[i])
  }

  ghost predicate Below(value: seq<int>, bound: int) {
    forall i :: 0 <= i < |value| ==> value[i] <= bound
  }

  lemma InFront(names: seq<string>, value: seq<int>, name: string, v: int)
    requires |names| == |value| && Distinct(names) && Falling(value) && name !in names && Below(value, v)
    ensures Distinct([name] + names) && Falling([v] + value) && Below([v] + value, v)
  {
    assert forall i :: 0 <= i < |names| ==> names[i] in names;
  }

  lemma PeaksInFront(names: seq<string>, value: seq<int>, name: string, v: int, seen: seq<Report>)
    requires AllSized(seen) && Peaks(names, value, seen) && Peak(seen, name, v)
    ensures Peaks([name] + names, [v] + value, seen)
  {
  }

  /** A name with its strongest signal put in its place among others. */
  lemma {:induction false} Placed(names: seq<string>, value: seq<int>, name: string, v: int, seen: seq<Report>)
      returns (all: seq<string>, signals: seq<int>)
    requires AllSized(seen) && Peaks(names, value, seen) && Peak(seen, name, v)
    requires Distinct(names) && Falling(value) && name !in names
    ensures Peaks(all, signals, seen) && Distinct(all) && Falling(signals)
    ensures forall n :: n in all <==> n == name || n in names
    ensures forall bound :: v <= bound && Below(value, bound) ==> Below(signals, bound)
    decreases |names|
  {
    if names == [] || value[0] <= v {
      all, signals := [name] + names, [v] + value;
      InFront(names, value, name, v);
      PeaksInFront(names, value, name, v, seen);
    } else {
      var n, x := names[0], value[0];
      assert names == [n] + names[1..] && value == [x] + value[1..];
      all, signals := Placed(names[1..], value[1..], name, v, seen);
      assert Below(value[1..], x);
      InFront(all, signals, n, x);
      PeaksInFront(all, signals, n, x, seen);
      all, signals := [n] + all, [x] + signals;
      forall bound | v <= bound && Below(value, bound)
        ensures Below(signals, bound)
      {
        assert value[0] <= bound;
      }
    }
  }

  /** A list without its element i. */
  function Without<T>(s: seq<T>, i: nat): (r: seq<T>)
    requires i < |s|
    ensures |r| == |s| - 1
    ensures forall j :: 0 <= j < |r| ==> r[j] == s[Source(i, j)]
  {
    s[..i] + s[i + 1..]
  }

  function Source(i: nat, j: nat): (k: nat)
    ensures k != i && (k == j || k == j + 1)
  {
    if j < i then j else j + 1
  }

  lemma Removed(names: seq<string>, value: seq<int>, i: nat)
      returns (rest: seq<string>, signals: seq<int>)
    requires |names| == |value| && i < |names| && Distinct(names) && Falling(value)
    ensures |rest| == |signals| && Distinct(rest) && Falling(signals)
    ensures forall n :: n in rest <==> n in names && n != names[i]
    ensures |rest| == |names| - 1
    ensures forall j :: 0 <= j < |rest| ==> rest[j] == names[Source(i, j)] && signals[j] == value[Source(i, j)]
  {
    rest, signals := Without(names, i), Without(value, i);
    forall n
      ensures n in rest <==> n in names && n != names[i]
    {
      NamesWithout(names, i, n);
    }
  }

  lemma NamesWithout(names: seq<string>, i: nat, n: string)
    requires i < |names| && Distinct(names)
    ensures n in Without(names, i) <==> n in names && n != names[i]
  {
    var rest := Without(names, i);
    if n in rest {
      var j :| 0 <= j < |rest| && rest[j] == n;
      assert names[Source(i, j)] == n;
    }
    if n in names && n != names[i] {
      var k :| 0 <= k < |names| && names[k] == n;
      assert rest[if k < i then k else k - 1] == n;
    }
  }

  lemma PeakStays(seen: seq<Report>, r: Report, name: string, v: int)
    requires AllSized(seen) && WellSized(r) && Peak(seen, name, v) && (Name(r) == name ==> r.rssi <= v)
    ensures AllSized(seen + [r]) && Peak(seen + [r], name, v)
  {
    var s :| s in seen && Name(s) == name && s.rssi == v;
    assert s in seen + [r];
  }

  lemma PeakNew(seen: seq<Report>, r: Report)
    requires AllSized(seen) && WellSized(r)
    requires forall s :: s in seen && Name(s) == Name(r) ==> s.rssi <= r.rssi
    ensures AllSized(seen + [r]) && Peak(seen + [r], Name(r), r.rssi)
  {
    assert r in seen + [r];
  }

  /** One more result in an offline answer that does not list its name, or no longer. */
  lemma Ranked(names: seq<string>, value: seq<int>, seen: seq<Report>, r: Report)
      returns (all: seq<string>, signals: seq<int>)
    requires AllSized(seen) && WellSized(r) && Peaks(names, value, seen) && Distinct(names) && Falling(value)
    requires Name(r) !in names && forall s :: s in seen ==> Name(s) in names || Name(s) == Name(r)
    requires forall s :: s in seen && Name(s) == Name(r) ==> s.rssi <= r.rssi
    ensures AllSized(seen + [r]) && Ranking(all, signals, seen + [r])
  {
    PeakNew(seen, r);
    forall i | 0 <= i < |names|
      ensures Peak(seen + [r], names[i], value[i])
    {
      PeakStays(seen, r, names[i], value[i]);
    }
    all, signals := Placed(names, value, Name(r), r.rssi, seen + [r]);
  }

  /** There is an offline answer to every scan. */
  lemma {:induction false} RankingExists(seen: seq<Report>) returns (names: seq<string>, value: seq<int>)
    requires AllSized(seen)
    ensures Ranking(names, value, seen)
    decreases |seen|
  {
    if seen == [] {
      names, value := [], [];
    } else {
      var before, r := seen[..|seen| - 1], seen[|seen| - 1];
      assert seen == before + [r];
      names, value := RankingExists(before);
      names, value := RankedNext(names, value, before, r);
    }
  }

  lemma RankedNext(names: seq<string>, value: seq<int>, seen: seq<Report>, r: Report)
      returns (all: seq<string>, signals: seq<int>)
    requires AllSized(seen) && WellSized(r) && Ranking(names, value, seen)
    ensures AllSized(seen + [r]) && Ranking(all, signals, seen + [r])
  {
    if i :| 0 <= i < |names| && names[i] == Name(r) {
      if r.rssi <= value[i] {
        all, signals := names, value;
        forall j | 0 <= j < |names|
          ensures Peak(seen + [r], names[j], value[j])
        {
          PeakStays(seen, r, names[j], value[j]);
        }
      } else {
        var rest, left := Removed(names, value, i);
        assert Peak(seen, names[i], value[i]);
        all, signals := Ranked(rest, left, seen, r);
      }
    } else {
      all, signals := Ranked(names, value, seen, r);
    }
  }

  function Ssids(t: seq<Entry>): (names: seq<string>)
    ensures |names| == |t| && forall i :: 0 <= i < |t| ==> names[i] == t[i].ssid
  {
    seq(|t|, i requires 0 <= i < |t| => t[i].ssid)
  }

  function Rssis(t: seq<Entry>): (values: seq<int>)
    ensures |values| == |t| && forall i :: 0 <= i < |t| ==> values[i] == t[i].rssi
  {
    seq(|t|, i requires 0 <= i < |t| => t[i].rssi)
  }

  lemma RowsDistinct(t: seq<Entry>, seen: seq<Report>)
    requires AllSized(seen) && TopOf(multiset(t), seen)
    ensures Distinct(Ssids(t))
  {
    forall i, j | 0 <= i < j < |t|
      ensures t[i].ssid != t[j].ssid
    {
      assert t[i] in multiset(t) && t[j] in multiset(t);
      Twice(t, i, j);
    }
  }

  lemma Twice(t: seq<Entry>, i: nat, j: nat)
    requires i < j < |t|
    ensures t[i] == t[j] ==> multiset(t)[t[j]] >= 2
  {
    assert t == t[..j] + ([t[j]] + t[j + 1..]);
    assert t[i] in t[..j];
  }

  lemma RowPeak(t: seq<Entry>, seen: seq<Report>, k: nat)
    requires AllSized(seen) && TopOf(multiset(t), seen) && k < |t|
    ensures Peak(seen, t[k].ssid, t[k].rssi)
  {
    assert t[k] in multiset(t);
    assert Strongest(t[k], seen);
    var r :| r in seen && EntryOf(r) == t[k];
  }

  lemma OnePeak(seen: seq<Report>, name: string, v: int, w: int)
    requires AllSized(seen) && Peak(seen, name, v) && Peak(seen, name, w)
    ensures v == w
  {
  }

  lemma Outside(t: seq<Entry>, seen: seq<Report>, name: string, value: int)
    requires AllSized(seen) && TopOf(multiset(t), seen) && Peak(seen, name, value)
    requires name !in Ssids(t)
    ensures |t| == MAX_RESULTS && forall k :: 0 <= k < |t| ==> value <= t[k].rssi
  {
    var r :| r in seen && Name(r) == name && r.rssi == value;
    assert Covered(r, multiset(t));
    forall e | e in multiset(t)
      ensures e.ssid != name
    {
      assert e in t;
      var k :| 0 <= k < |t| && t[k] == e;
      assert Ssids(t)[k] == e.ssid;
    }
    assert forall k :: 0 <= k < |t| ==> t[k] in multiset(t);
  }

  lemma TableIsBest(t: seq<Entry>, seen: seq<Report>, names: seq<string>, value: seq<int>)
    requires AllSized(seen) && Sorted(t) && TopOf(multiset(t), seen) && Ranking(names, value, seen)
    ensures Best(Ssids(t), Rssis(t), names, value, MAX_RESULTS)
  {
    var rows, signal := Ssids(t), Rssis(t);
    RowsDistinct(t, seen);
    forall k | 0 <= k < |rows|
      ensures rows[k] in names
    {
      RowPeak(t, seen, k);
    }
    forall k, l | 0 <= k < |rows| && 0 <= l < |names| && rows[k] == names[l]
      ensures signal[k] == value[l]
    {
      RowPeak(t, seen, k);
      OnePeak(seen, names[l], signal[k], value[l]);
    }
    forall l | 0 <= l < |names| && names[l] !in rows
      ensures |rows| == MAX_RESULTS && forall k :: 0 <= k < |rows| ==> value[l] <= signal[k]
    {
      Outside(t, seen, names[l], value[l]);
    }
  }

  /** The streaming table forgets what it evicts, yet after any sequence of results it has as many rows
      as the first ten of the offline answer, and row by row the same signal strengths. */
  lemma TableIsTopTen(t: seq<Entry>, seen: seq<Report>, names: seq<string>, value: seq<int>)
    requires AllSized(seen) && Sorted(t) && TopOf(multiset(t), seen) && Ranking(names, value, seen)
    ensures |t| == Min(MAX_RESULTS, |names|)
    ensures forall i :: 0 <= i < |t| ==> t[i].rssi == value[i]
  {
    TableIsBest(t, seen, names, value);
    SameLength(Ssids(t), Rssis(t), names, value, MAX_RESULTS);
    forall i | 0 <= i < |t|
      ensures t[i].rssi == value[i]
    {
      NotStronger(Ssids(t), Rssis(t), names, value, MAX_RESULTS, i);
      NotWeaker(Ssids(t), Rssis(t), names, value, MAX_RESULTS, i);
    }
  }
}

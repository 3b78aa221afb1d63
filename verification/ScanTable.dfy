/** The table of the ten strongest networks of a Wi-Fi scan, kept while results come in one by one. */
module ScanTable {
  import opened Text

  const MAX_RESULTS: nat := 10
  const SSID_MAX: nat := 32
  const MAC_LEN: nat := 6

  /** One scan result as the driver reports it. */
  datatype Report = Report(ssid: string, ssidLength: nat, band: nat, channel: nat, security: int, mfp: int,
                           rssi: int, mac: seq<nat>, macLength: nat)

  /** The driver's buffers have fixed sizes. */
  predicate WellSized(r: Report) {
    |r.ssid| == SSID_MAX && |r.mac| == MAC_LEN
  }

  datatype Entry = Entry(used: bool, ssid: string, ssidLen: nat, band: nat, channel: nat, security: int, mfp: int,
                         rssi: int, mac: seq<nat>)

  const Unused: Entry := Entry(false, "", 0, 0, 0, 0, 0, 0, [])

  function Min(a: nat, b: nat): nat {
    if a < b then a else b
  }

  /** The name a network is listed under: cut to 32 bytes and read as a C string. */
  function Name(r: Report): string
    requires WellSized(r)
  {
    CStr(r.ssid[..Min(r.ssidLength, SSID_MAX)])
  }

  function EntryOf(r: Report): Entry
    requires WellSized(r)
  {
    Entry(true, Name(r), Min(r.ssidLength, SSID_MAX), r.band, r.channel, r.security, r.mfp, r.rssi,
          r.mac[..Min(MAC_LEN, r.macLength)])
  }

  /** What precedes the first NUL is the longest beginning without one. */
  lemma {:induction false} LongestPart(s: string, p: string)
    requires p <= s && NulFree(p)
    ensures p <= CStr(s)
  {
    if p != "" {
      assert p[0] in p && forall c :: c in p[1..] ==> c in p;
      LongestPart(s[1..], p[1..]);
    }
  }

  /** The name is the longest part of the report's network name without a NUL, within its length and
      within 32 bytes. */
  lemma NameExactly(r: Report)
    requires WellSized(r)
    ensures var name := Name(r);
      && name <= r.ssid && NulFree(name) && |name| <= r.ssidLength && |name| <= 32
      && (forall p: string :: p <= r.ssid && NulFree(p) && |p| <= r.ssidLength && |p| <= 32 ==> p <= name)
  {
    var name, cut := Name(r), r.ssid[..Min(r.ssidLength, SSID_MAX)];
    assert name <= cut;
    forall p: string | p <= r.ssid && NulFree(p) && |p| <= r.ssidLength && |p| <= 32
      ensures p <= name
    {
      assert p <= cut;
      LongestPart(cut, p);
    }
  }

  /** A row shows a report: its name, its length and everything else the driver said of it. */
  ghost predicate Shows(e: Entry, r: Report)
    requires WellSized(r)
  {
    && e.used && e.ssid == Name(r) && e.ssidLen == (if r.ssidLength < 32 then r.ssidLength else 32)
    && e.band == r.band && e.channel == r.channel && e.security == r.security && e.mfp == r.mfp
    && e.rssi == r.rssi && e.mac <= r.mac && |e.mac| == (if r.macLength < 6 then r.macLength else 6)
  }

  ghost predicate AllSized(seen: seq<Report>) {
    forall r :: r in seen ==> WellSized(r)
  }

  // ----- what the table says about everything seen

  ghost predicate Sorted(t: seq<Entry>) {
    forall i, j :: 0 <= i < j < |t| ==> t[i].rssi >= t[j].rssi
  }

  ghost predicate Listed(m: multiset<Entry>, name: string) {
    exists e :: e in m && e.ssid == name
  }

  /** A listed network is shown by its strongest report. */
  ghost predicate Strongest(e: Entry, seen: seq<Report>)
    requires AllSized(seen)
  {
    && (exists r :: r in seen && EntryOf(r) == e)
    && (forall r :: r in seen && Name(r) == e.ssid ==> r.rssi <= e.rssi)
  }

  /** A network that is not listed is no stronger than any entry of a full table. */
  ghost predicate Covered(r: Report, m: multiset<Entry>)
    requires WellSized(r)
  {
    Listed(m, Name(r)) || (|m| == MAX_RESULTS && forall e :: e in m ==> r.rssi <= e.rssi)
  }

  /** The entries are the strongest networks of everything seen. */
  ghost predicate TopOf(m: multiset<Entry>, seen: seq<Report>)
    requires AllSized(seen)
  {
    && |m| <= MAX_RESULTS
    && (forall e :: e in m ==> m[e] == 1 && e.used && Strongest(e, seen))
    && (forall e, f :: e in m && f in m && e.ssid == f.ssid ==> e == f)
    && (forall r :: r in seen ==> Covered(r, m))
  }

  /** The law in full: at most ten rows, by falling signal and of distinct names; each shows the strongest
      report of its network; every network seen is listed, or no stronger than any row of a full table. */
  ghost predicate Law(t: seq<Entry>, seen: seq<Report>)
    requires AllSized(seen)
  {
    && |t| <= 10
    && (forall i, j :: 0 <= i < j < |t| ==> t[i].rssi >= t[j].rssi && t[i].ssid != t[j].ssid)
    && (forall i :: 0 <= i < |t| ==> ShowsStrongest(t[i], seen))
    && (forall r :: r in seen ==> ListedOrWeaker(r, t))
  }

  ghost predicate ShowsStrongest(e: Entry, seen: seq<Report>)
    requires AllSized(seen)
  {
    exists r :: r in seen && Shows(e, r) && forall s :: s in seen && Name(s) == Name(r) ==> s.rssi <= r.rssi
  }

  ghost predicate ListedOrWeaker(r: Report, t: seq<Entry>)
    requires WellSized(r)
  {
    (exists i :: 0 <= i < |t| && t[i].ssid == Name(r))
    || (|t| == 10 && forall i :: 0 <= i < |t| ==> r.rssi <= t[i].rssi)
  }

  lemma TopIsLaw(t: seq<Entry>, seen: seq<Report>)
    requires AllSized(seen) && Sorted(t) && TopOf(multiset(t), seen)
    ensures Law(t, seen)
  {
    forall i, j | 0 <= i < j < |t|
      ensures t[i].ssid != t[j].ssid
    {
      TwoRows(t, i, j);
      assert t[i] in multiset(t) && t[j] in multiset(t);
    }
    forall i | 0 <= i < |t|
      ensures ShowsStrongest(t[i], seen)
    {
      assert t[i] in multiset(t);
      StrongestShows(t[i], seen);
    }
    forall r | r in seen
      ensures ListedOrWeaker(r, t)
    {
      CoveredRow(r, t);
    }
  }

  lemma TwoRows(t: seq<Entry>, i: nat, j: nat)
    requires i < j < |t|
    ensures t[i] == t[j] ==> multiset(t)[t[j]] >= 2
  {
    assert t == t[..j] + ([t[j]] + t[j + 1..]);
    assert t[i] in t[..j];
  }

  lemma StrongestShows(e: Entry, seen: seq<Report>)
    requires AllSized(seen) && Strongest(e, seen)
    ensures ShowsStrongest(e, seen)
  {
    var r :| r in seen && EntryOf(r) == e;
    assert Shows(e, r);
  }

  lemma CoveredRow(r: Report, t: seq<Entry>)
    requires WellSized(r) && Covered(r, multiset(t))
    ensures ListedOrWeaker(r, t)
  {
    if Listed(multiset(t), Name(r)) {
      var e :| e in multiset(t) && e.ssid == Name(r);
      var i :| 0 <= i < |t| && t[i] == e;
    } else {
      assert forall i :: 0 <= i < |t| ==> t[i] in multiset(t);
    }
  }

  // ----- what one report changes

  /** The report is stronger than its network's row or, if the network is not listed, there is a free row
      or a weaker one. */
  ghost predicate Counts(m: multiset<Entry>, r: Report)
    requires WellSized(r)
  {
    if Listed(m, Name(r)) then exists e :: e in m && e.ssid == Name(r) && e.rssi < r.rssi
    else |m| < 10 || exists e :: e in m && e.rssi < r.rssi
  }

  /** The row the report takes the place of: its network's own, or the weakest of a full table. */
  ghost predicate Leaves(m: multiset<Entry>, e: Entry, r: Report)
    requires WellSized(r)
  {
    && e in m && e.rssi < r.rssi
    && (e.ssid == Name(r) || (!Listed(m, Name(r)) && |m| == 10 && forall f :: f in m ==> e.rssi <= f.rssi))
  }

  /** The rows after a report that counts: its own is new, and at most one has left. */
  ghost predicate Updated(m: multiset<Entry>, n: multiset<Entry>, r: Report)
    requires WellSized(r)
  {
    || (!Listed(m, Name(r)) && |m| < 10 && n == m + multiset{EntryOf(r)})
    || (exists e :: Leaves(m, e, r) && n == m - multiset{e} + multiset{EntryOf(r)})
  }

  lemma StrongestStays(e: Entry, seen: seq<Report>, r: Report)
    requires AllSized(seen) && WellSized(r) && Strongest(e, seen)
    requires Name(r) == e.ssid ==> r.rssi <= e.rssi
    ensures AllSized(seen + [r]) && Strongest(e, seen + [r])
  {
    var r0 :| r0 in seen && EntryOf(r0) == e;
    assert r0 in seen + [r];
  }

  lemma StrongestNew(seen: seq<Report>, r: Report)
    requires AllSized(seen) && WellSized(r)
    requires forall s :: s in seen && Name(s) == Name(r) ==> s.rssi <= r.rssi
    ensures AllSized(seen + [r]) && Strongest(EntryOf(r), seen + [r])
  {
    assert r in seen + [r];
  }

  /** A report that is no stronger than its own entry, or than a full table, changes nothing. */
  lemma IgnoredReport(m: multiset<Entry>, seen: seq<Report>, r: Report)
    requires AllSized(seen) && WellSized(r) && TopOf(m, seen)
    requires Covered(r, m) && forall e :: e in m && e.ssid == Name(r) ==> r.rssi <= e.rssi
    ensures AllSized(seen + [r]) && TopOf(m, seen + [r])
  {
    forall e | e in m
      ensures Strongest(e, seen + [r])
    {
      StrongestStays(e, seen, r);
    }
  }

  /** Some entries are kept and one is added for r: what has to be checked is who is covered then. */
  lemma Insert(m: multiset<Entry>, kept: multiset<Entry>, seen: seq<Report>, r: Report)
    requires AllSized(seen) && WellSized(r) && TopOf(m, seen)
    requires kept <= m && |kept| < MAX_RESULTS && (forall f :: f in kept ==> f.ssid != Name(r))
    requires forall s :: s in seen && Name(s) == Name(r) ==> s.rssi <= r.rssi
    requires Covered(r, kept + multiset{EntryOf(r)})
    requires forall s :: s in seen ==> Covered(s, kept + multiset{EntryOf(r)})
    ensures AllSized(seen + [r]) && TopOf(kept + multiset{EntryOf(r)}, seen + [r])
  {
    var e, n := EntryOf(r), kept + multiset{EntryOf(r)};
    assert |n| == |kept| + 1;
    forall f | f in n
      ensures n[f] == 1 && f.used && Strongest(f, seen + [r])
    {
      InsertEach(m, kept, seen, r, f);
    }
    InsertDistinct(m, kept, e);
  }

  lemma InsertDistinct(m: multiset<Entry>, kept: multiset<Entry>, e: Entry)
    requires kept <= m && (forall f :: f in kept ==> f.ssid != e.ssid)
    requires forall f, g :: f in m && g in m && f.ssid == g.ssid ==> f == g
    ensures forall f, g :: f in kept + multiset{e} && g in kept + multiset{e} && f.ssid == g.ssid ==> f == g
  {
    var n := kept + multiset{e};
    forall f, g | f in n && g in n && f.ssid == g.ssid
      ensures f == g
    {
      if f != e && g != e {
        assert f in m && g in m;
      }
    }
  }

  lemma InsertEach(m: multiset<Entry>, kept: multiset<Entry>, seen: seq<Report>, r: Report, f: Entry)
    requires AllSized(seen) && WellSized(r) && TopOf(m, seen)
    requires kept <= m && (forall g :: g in kept ==> g.ssid != Name(r))
    requires forall s :: s in seen && Name(s) == Name(r) ==> s.rssi <= r.rssi
    requires f in kept + multiset{EntryOf(r)}
    ensures AllSized(seen + [r])
    ensures (kept + multiset{EntryOf(r)})[f] == 1 && f.used && Strongest(f, seen + [r])
  {
    if f == EntryOf(r) {
      assert f !in kept;
      StrongestNew(seen, r);
    } else {
      assert f in kept && f in m && m[f] == 1;
      StrongestStays(f, seen, r);
    }
  }

  /** A stronger report of a listed network takes its entry's place. */
  lemma BetterReport(m: multiset<Entry>, seen: seq<Report>, r: Report, old_: Entry)
    requires AllSized(seen) && WellSized(r) && TopOf(m, seen)
    requires old_ in m && old_.ssid == Name(r) && old_.rssi < r.rssi
    ensures AllSized(seen + [r]) && TopOf(m - multiset{old_} + multiset{EntryOf(r)}, seen + [r])
  {
    var kept := m - multiset{old_};
    var n := kept + multiset{EntryOf(r)};
    assert |kept| == |m| - 1 && |n| == |m|;
    assert m[old_] == 1 && Strongest(old_, seen);
    forall s | s in seen || s == r
      ensures Covered(s, n)
    {
      if s != r {
        assert Covered(s, m);
      }
      BetterCovers(m, n, r, old_, s);
    }
    Insert(m, kept, seen, r);
  }

  lemma BetterCovers(m: multiset<Entry>, n: multiset<Entry>, r: Report, old_: Entry, s: Report)
    requires WellSized(r) && WellSized(s) && old_ in m && old_.ssid == Name(r) && old_.rssi < r.rssi
    requires n == m - multiset{old_} + multiset{EntryOf(r)} && |n| == |m|
    requires s == r || Covered(s, m)
    ensures Covered(s, n)
  {
    assert EntryOf(r) in n;
    if s != r && Listed(m, Name(s)) {
      var f :| f in m && f.ssid == Name(s);
      if f.ssid != Name(r) {
        assert f in n;
      }
    }
  }

  /** A network that is not listed yet takes a free place, or the place of the weakest entry. */
  lemma NewReport(m: multiset<Entry>, seen: seq<Report>, r: Report)
    requires AllSized(seen) && WellSized(r) && TopOf(m, seen) && |m| < MAX_RESULTS && !Listed(m, Name(r))
    ensures AllSized(seen + [r]) && TopOf(m + multiset{EntryOf(r)}, seen + [r])
  {
    var n := m + multiset{EntryOf(r)};
    assert EntryOf(r) in n;
    assert Listed(n, Name(r));
    forall s | s in seen
      ensures Covered(s, n) && Name(s) != Name(r)
    {
      assert Covered(s, m);
      var f :| f in m && f.ssid == Name(s);
      assert f in n;
    }
    Insert(m, m, seen, r);
  }

  lemma EvictingReport(m: multiset<Entry>, seen: seq<Report>, r: Report, weakest: Entry)
    requires AllSized(seen) && WellSized(r) && TopOf(m, seen) && |m| == MAX_RESULTS && !Listed(m, Name(r))
    requires weakest in m && (forall e :: e in m ==> weakest.rssi <= e.rssi) && weakest.rssi < r.rssi
    ensures AllSized(seen + [r]) && TopOf(m - multiset{weakest} + multiset{EntryOf(r)}, seen + [r])
  {
    var kept := m - multiset{weakest};
    var n := kept + multiset{EntryOf(r)};
    assert |kept| == |m| - 1 && |n| == |m|;
    assert EntryOf(r) in n;
    assert Listed(n, Name(r));
    forall s | s in seen
      ensures Covered(s, n) && (Name(s) == Name(r) ==> s.rssi <= r.rssi)
    {
      assert Covered(s, m);
      EvictionCovers(m, n, seen, r, weakest, s);
    }
    Insert(m, kept, seen, r);
  }

  lemma EvictionCovers(m: multiset<Entry>, n: multiset<Entry>, seen: seq<Report>, r: Report, weakest: Entry, s: Report)
    requires AllSized(seen) && WellSized(r) && TopOf(m, seen) && s in seen
    requires weakest in m && (forall e :: e in m ==> weakest.rssi <= e.rssi) && weakest.rssi < r.rssi
    requires n == m - multiset{weakest} + multiset{EntryOf(r)} && |n| == |m| == MAX_RESULTS && Covered(s, m)
    ensures Covered(s, n)
  {
    if Listed(m, Name(s)) {
      var f :| f in m && f.ssid == Name(s);
      if f == weakest {
        assert Strongest(f, seen) && s.rssi <= f.rssi;
      } else {
        assert f in n;
      }
    }
  }

  // ----- the table

  class Table {
    const results: array<Entry>
    var count: nat
    /** Every result that was processed, in order; the table itself forgets what it evicts. */
    ghost var seen: seq<Report>

    function Rows(): seq<Entry>
      requires count <= results.Length
      reads this, results
    {
      results[..count]
    }

    ghost predicate Valid()
      reads this, results
    {
      && results.Length == MAX_RESULTS && count <= MAX_RESULTS
      && AllSized(seen) && Sorted(Rows()) && TopOf(multiset(Rows()), seen)
    }

    constructor ()
      ensures Valid() && Rows() == [] && seen == [] && fresh(results)
    {
      results := new Entry[MAX_RESULTS](_ => Unused);
      count := 0;
      seen := [];
    }

    method Clear()
      requires Valid()
      modifies this, results
      ensures Valid() && Rows() == [] && seen == []
    {
      forall i | 0 <= i < results.Length {
        results[i] := Unused;
      }
      count := 0;
      seen := [];
      assert Rows() == [];
    }

    /** The first row of a network, or -1. */
    method FindBySsid(name: string) returns (slot: int)
      requires results.Length == MAX_RESULTS && count <= MAX_RESULTS
      ensures -1 <= slot < count
      ensures slot >= 0 ==> results[slot].used && results[slot].ssid == name
      ensures forall k :: 0 <= k < (if slot < 0 then count else slot) ==> !(results[k].used && results[k].ssid == name)
    {
      for i := 0 to count
        invariant forall k :: 0 <= k < i ==> !(results[k].used && results[k].ssid == name)
      {
        if results[i].used && results[i].ssid == name {
          return i;
        }
      }
      return -1;
    }

    /** Exchange sort by falling signal strength. */
    method Sort()
      requires results.Length == MAX_RESULTS && count <= MAX_RESULTS
      modifies results
      ensures Sorted(Rows()) && multiset(Rows()) == multiset(old(Rows()))
      ensures Sorted(old(Rows())) ==> Rows() == old(Rows())
    {
      ghost var was := Rows();
      var i := 0;
      while i < count
        invariant 0 <= i <= count
        invariant Sorting(was, Rows(), i)
      {
        Select(i, was);
        i := i + 1;
      }
    }

    /** The inner loop: brings the strongest of the rows from i on to row i. */
    method Select(i: nat, ghost was: seq<Entry>)
      requires results.Length == MAX_RESULTS && i < count <= MAX_RESULTS && Sorting(was, Rows(), i)
      modifies results
      ensures Sorting(was, Rows(), i + 1)
    {
      var j := i + 1;
      while j < count
        invariant i < j <= count
        invariant Sorting(was, Rows(), i)
        invariant forall l :: i < l < j ==> results[i].rssi >= results[l].rssi
      {
        if results[j].rssi > results[i].rssi {
          SwapKeeps(was, Rows(), i, j);
          Swap(i, j);
        }
        j := j + 1;
      }
    }

    /** Takes in one scan result. Results without a name are skipped, and so are results that find the
        table locked. */
    method StoreResult(entry: Option<Report>, gotLock: bool)
      requires Valid() && (entry.Some? ==> WellSized(entry.value))
      modifies this, results
      ensures Valid()
      ensures seen == if entry.Some? && entry.value.ssidLength != 0 && gotLock then old(seen) + [entry.value]
                      else old(seen)
      ensures Law(Rows(), seen)
      ensures if entry.Some? && entry.value.ssidLength != 0 && gotLock && old(Counts(multiset(Rows()), entry.value))
              then Updated(multiset(old(Rows())), multiset(Rows()), entry.value)
              else Rows() == old(Rows())
    {
      TopIsLaw(Rows(), seen);
      if entry.None? || entry.value.ssidLength == 0 {
        return;
      }
      if !gotLock {
        return;
      }
      Rank(entry.value);
      TopIsLaw(Rows(), seen);
    }

    /** The locked part: choose a row, store the result there, sort. */
    method Rank(r: Report)
      requires Valid() && WellSized(r)
      modifies this, results
      ensures Valid() && seen == old(seen) + [r]
      ensures if old(Counts(multiset(Rows()), r)) then Updated(multiset(old(Rows())), multiset(Rows()), r)
              else Rows() == old(Rows())
    {
      var slot, store;
      ghost var next;
      slot, store, next := Choose(r);
      Finish(slot, store, r, next);
    }

    /** The chosen row, if any, gets the result, which counts as seen from now on. */
    method Finish(slot: nat, store: bool, r: Report, ghost next: multiset<Entry>)
      requires results.Length == MAX_RESULTS && slot < count <= MAX_RESULTS && WellSized(r)
      requires store || Sorted(Rows())
      requires next == if store then multiset(Rows()) - multiset{Rows()[slot]} + multiset{EntryOf(r)}
                       else multiset(Rows())
      requires AllSized(seen + [r]) && TopOf(next, seen + [r])
      modifies this`seen, results
      ensures Valid() && seen == old(seen) + [r]
      ensures multiset(Rows()) == next && (!store ==> Rows() == old(Rows()))
    {
      if store {
        Put(slot, r);
      }
      assert multiset(Rows()) == next;
      seen := seen + [r];
    }

    /** A stronger report of a listed network replaces its row; a new network takes a free row, or the
        weakest row if it is stronger. */
    method Choose(r: Report) returns (slot: int, store: bool, ghost next: multiset<Entry>)
      requires Valid() && WellSized(r)
      modifies this`count, results
      ensures AllSized(seen + [r]) && TopOf(next, seen + [r]) && count <= MAX_RESULTS
      ensures 0 <= slot < count && (!store ==> Rows() == old(Rows()))
      ensures store <==> old(Counts(multiset(Rows()), r))
      ensures store ==> Updated(multiset(old(Rows())), next, r)
      ensures next == if store then multiset(Rows()) - multiset{Rows()[slot]} + multiset{EntryOf(r)}
                      else multiset(Rows())
    {
      slot := FindBySsid(Name(r));
      if slot >= 0 {
        store, next := ChooseKnown(slot, r);
      } else {
        NotListed(Rows(), Name(r));
        if count >= MAX_RESULTS {
          slot, store, next := ChooseWeakest(r);
        } else {
          slot, store, next := ChooseFree(r);
        }
      }
    }

    method ChooseKnown(slot: nat, r: Report) returns (store: bool, ghost next: multiset<Entry>)
      requires Valid() && WellSized(r) && slot < count && results[slot].ssid == Name(r)
      ensures AllSized(seen + [r]) && TopOf(next, seen + [r])
      ensures next == if store then multiset(Rows()) - multiset{Rows()[slot]} + multiset{EntryOf(r)}
                      else multiset(Rows())
      ensures store <==> Counts(multiset(Rows()), r)
      ensures store ==> Updated(multiset(Rows()), next, r)
    {
      ghost var t := Rows();
      FoundRow(t, slot);
      store := r.rssi > results[slot].rssi;
      next := KnownReport(multiset(t), seen, r, t[slot]);
    }

    method ChooseWeakest(r: Report) returns (slot: nat, store: bool, ghost next: multiset<Entry>)
      requires Valid() && WellSized(r) && count == MAX_RESULTS && !Listed(multiset(Rows()), Name(r))
      modifies results
      ensures AllSized(seen + [r]) && TopOf(next, seen + [r]) && slot < count
      ensures next == if store then multiset(Rows()) - multiset{Rows()[slot]} + multiset{EntryOf(r)}
                      else multiset(Rows())
      ensures Rows() == old(Rows())
      ensures store <==> old(Counts(multiset(Rows()), r))
      ensures store ==> Updated(multiset(old(Rows())), next, r)
    {
      ghost var m := multiset(Rows());
      slot := count - 1;
      Sort();
      ghost var t := Rows();
      assert multiset(t) == m;
      WeakestRow(t);
      store := r.rssi > results[slot].rssi;
      next := UnknownReport(m, seen, r, t[slot]);
    }

    method ChooseFree(r: Report) returns (slot: nat, store: bool, ghost next: multiset<Entry>)
      requires Valid() && WellSized(r) && count < MAX_RESULTS && !Listed(multiset(Rows()), Name(r))
      modifies this`count
      ensures AllSized(seen + [r]) && TopOf(next, seen + [r]) && slot < count <= MAX_RESULTS && store
      ensures next == multiset(Rows()) - multiset{Rows()[slot]} + multiset{EntryOf(r)}
      ensures Updated(multiset(old(Rows())), next, r)
    {
      ghost var was := Rows();
      slot, store := count, true;
      count := count + 1;
      assert Rows()[..slot] == was;
      next := FreeRow(Rows(), slot, multiset(was), seen, r);
    }

    method Put(slot: nat, r: Report)
      requires results.Length == MAX_RESULTS && slot < count <= MAX_RESULTS && WellSized(r)
      modifies results
      ensures Sorted(Rows())
      ensures multiset(Rows()) == multiset(old(Rows())) - multiset{old(Rows())[slot]} + multiset{EntryOf(r)}
    {
      ghost var was := Rows();
      results[slot] := EntryOf(r);
      assert Rows() == was[slot := EntryOf(r)];
      Sort();
    }

    method Swap(i: nat, j: nat)
      requires i < j < count <= results.Length
      modifies results
      ensures Rows() == old(Rows()[i := results[j]][j := results[i]])
    {
      var tmp := results[i];
      results[i] := results[j];
      results[j] := tmp;
    }
  }

  /** The first i rows are in place: each at least as strong as everything behind it. The rows are
      those the sort began with, untouched if they were sorted. */
  ghost predicate Sorting(was: seq<Entry>, t: seq<Entry>, i: nat) {
    && (forall k, l :: 0 <= k < i && k < l < |t| ==> t[k].rssi >= t[l].rssi)
    && multiset(t) == multiset(was)
    && (Sorted(was) ==> t == was)
  }

  lemma SwapKeeps(was: seq<Entry>, t: seq<Entry>, i: nat, j: nat)
    requires i < j < |t| && Sorting(was, t, i) && t[j].rssi > t[i].rssi
    ensures Sorting(was, t[i := t[j]][j := t[i]], i)
  {
    var u := t[i := t[j]][j := t[i]];
    assert multiset(u) == multiset(t);
    forall k, l | 0 <= k < i && k < l < |u|
      ensures u[k].rssi >= u[l].rssi
    {
      assert t[k].rssi >= t[l].rssi && t[k].rssi >= t[i].rssi && t[k].rssi >= t[j].rssi;
    }
  }

  lemma FoundRow(t: seq<Entry>, slot: nat)
    requires slot < |t|
    ensures t[slot] in multiset(t)
  {
  }

  lemma NotListed(t: seq<Entry>, name: string)
    requires forall k :: 0 <= k < |t| ==> !(t[k].used && t[k].ssid == name)
    requires forall e :: e in multiset(t) ==> e.used
    ensures !Listed(multiset(t), name)
  {
    forall e | e in multiset(t)
      ensures e.ssid != name
    {
      assert e in t;
    }
  }

  lemma WeakestRow(t: seq<Entry>)
    requires t != [] && Sorted(t)
    ensures t[|t| - 1] in multiset(t) && forall e :: e in multiset(t) ==> t[|t| - 1].rssi <= e.rssi
  {
    forall e | e in multiset(t)
      ensures t[|t| - 1].rssi <= e.rssi
    {
      assert e in t;
    }
  }

  lemma FreeRow(t: seq<Entry>, slot: nat, m: multiset<Entry>, seen: seq<Report>, r: Report)
      returns (next: multiset<Entry>)
    requires |t| == slot + 1 <= MAX_RESULTS && multiset(t[..slot]) == m
    requires AllSized(seen) && WellSized(r) && TopOf(m, seen) && !Listed(m, Name(r))
    ensures AllSized(seen + [r]) && TopOf(next, seen + [r])
    ensures next == multiset(t) - multiset{t[slot]} + multiset{EntryOf(r)}
  {
    assert t == t[..slot] + [t[slot]];
    assert multiset(t) - multiset{t[slot]} == m;
    assert |m| == slot;
    NewReport(m, seen, r);
    next := m + multiset{EntryOf(r)};
  }

  lemma KnownReport(m: multiset<Entry>, seen: seq<Report>, r: Report, e: Entry) returns (next: multiset<Entry>)
    requires AllSized(seen) && WellSized(r) && TopOf(m, seen) && e in m && e.ssid == Name(r)
    ensures AllSized(seen + [r]) && TopOf(next, seen + [r])
    ensures next == if r.rssi > e.rssi then m - multiset{e} + multiset{EntryOf(r)} else m
  {
    if r.rssi > e.rssi {
      BetterReport(m, seen, r, e);
      next := m - multiset{e} + multiset{EntryOf(r)};
    } else {
      assert Listed(m, Name(r));
      IgnoredReport(m, seen, r);
      next := m;
    }
  }

  lemma UnknownReport(m: multiset<Entry>, seen: seq<Report>, r: Report, weakest: Entry) returns (next: multiset<Entry>)
    requires AllSized(seen) && WellSized(r) && TopOf(m, seen) && |m| == MAX_RESULTS && !Listed(m, Name(r))
    requires weakest in m && forall e :: e in m ==> weakest.rssi <= e.rssi
    ensures AllSized(seen + [r]) && TopOf(next, seen + [r])
    ensures next == if r.rssi > weakest.rssi then m - multiset{weakest} + multiset{EntryOf(r)} else m
  {
    if r.rssi > weakest.rssi {
      EvictingReport(m, seen, r, weakest);
      next := m - multiset{weakest} + multiset{EntryOf(r)};
    } else {
      IgnoredReport(m, seen, r);
      next := m;
    }
  }
}

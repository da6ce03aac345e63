/**
 The audit's reading of the review ledgers: all files merged by effective date, then file,
 then line; and exactly when that is the order in which the lines were recorded.
 */
module ReviewMerge {
  import opened Prelude
  import opened Sorting
  import opened ReviewLog

  datatype Entry = Entry(eff: nat, fi: nat, li: nat, record: Record)

  /** The merge key: effective date, then file, then line. */
  predicate Earlier(a: Entry, b: Entry) {
    a.eff < b.eff || (a.eff == b.eff && (a.fi < b.fi || (a.fi == b.fi && a.li <= b.li)))
  }

  function ByDate(): (Entry, Entry) -> bool {
    (a, b) => Earlier(a, b)
  }

  function EntriesIn(s: seq<Record>, fi: nat, n: nat, a: Addr): seq<Entry>
    requires n <= |s|
  {
    if n == 0 then []
    else EntriesIn(s, fi, n - 1, a)
         + (if s[n - 1].addr == a then [Entry(Effective(s, n - 1), fi, n - 1, s[n - 1])] else [])
  }

  function EntriesOver(w: Ledgers, files: seq<Path>, a: Addr): seq<Entry>
    requires forall p :: p in files ==> p in w
  {
    if files == [] then []
    else EntriesOver(w, Init(files), a) + EntriesIn(w[Last(files)], |files| - 1, |w[Last(files)]|, a)
  }

  function Recorded(s: seq<Entry>): seq<Record> {
    seq(|s|, i requires 0 <= i < |s| => s[i].record)
  }

  /** The lines about `a`, first recorded first, each once. */
  ghost predicate RecordingOrder(w: Ledgers, a: Addr, r: seq<Record>) {
    && (forall i, j :: 0 <= i < j < |r| ==> r[i].number < r[j].number)
    && (forall x :: x in r <==> Holds(w, x) && x.addr == a)
  }

  function ListOf(byAddr: map<Addr, seq<Entry>>, a: Addr): seq<Entry> {
    if a in byAddr then byAddr[a] else []
  }

  /** The lines about `a` as the audit reads them. */
  function Merged(w: Ledgers, files: seq<Path>, a: Addr): seq<Record>
    requires forall p :: p in files ==> p in w
  {
    Recorded(Sort(EntriesOver(w, files, a), ByDate()))
  }

  /** Two lines of the listed files, the first recorded earlier: the merge puts it first. */
  ghost predicate PutFirst(w: Ledgers, files: seq<Path>, fi: nat, i: nat, fj: nat, j: nat)
    requires fi < |files| && fj < |files| && There(w, files[fi], i) && There(w, files[fj], j)
  {
    var x, y := Effective(w[files[fi]], i), Effective(w[files[fj]], j);
    x < y || (x == y && (fi < fj || (fi == fj && i < j)))
  }

  /** A line about `a` in a listed file. */
  ghost predicate About(w: Ledgers, files: seq<Path>, a: Addr, fi: nat, i: nat) {
    fi < |files| && There(w, files[fi], i) && w[files[fi]][i].addr == a
  }

  ghost predicate InMergeOrder(w: Ledgers, files: seq<Path>, a: Addr) {
    forall fi: nat, i: nat, fj: nat, j: nat :: About(w, files, a, fi, i) && About(w, files, a, fj, j) ==>
      w[files[fi]][i].number < w[files[fj]][j].number ==> PutFirst(w, files, fi, i, fj, j)
  }

  /** The audit's reading of all ledgers: for every address its lines, and these are in
      recording order exactly when the dates, files and lines put them so. */
  method Records(w: Ledgers, files: seq<Path>, ghost count: nat) returns (byAddr: map<Addr, seq<Record>>)
    requires forall p :: p in files <==> p in w
    requires Distinct(files) && Numbered(w, count)
    ensures forall a :: a in byAddr <==> exists r :: Holds(w, r) && r.addr == a
    ensures forall a :: a in byAddr ==> byAddr[a] == Merged(w, files, a)
    ensures forall a :: a in byAddr ==> (RecordingOrder(w, a, byAddr[a]) <==> InMergeOrder(w, files, a))
  {
    var entries := Gather(w, files);
    forall a
      ensures RecordingOrder(w, a, Merged(w, files, a)) <==> InMergeOrder(w, files, a)
    {
      MergeIsRecordingOrder(w, files, count, a);
    }
    forall a
      ensures a in entries <==> exists r :: Holds(w, r) && r.addr == a
    {
      SomeLine(w, files, a);
      SortPermutes(ListOf(entries, a), ByDate());
    }
    byAddr := map a | a in entries :: Recorded(Sort(entries[a], ByDate()));
  }

  /** Every address that has lines has an entry in the table, and no other. */
  ghost predicate Listed(byAddr: map<Addr, seq<Entry>>) {
    forall a :: a in byAddr <==> ListOf(byAddr, a) != []
  }

  method Gather(w: Ledgers, files: seq<Path>) returns (byAddr: map<Addr, seq<Entry>>)
    requires forall p :: p in files ==> p in w
    ensures forall a :: ListOf(byAddr, a) == EntriesOver(w, files, a)
    ensures Listed(byAddr)
  {
    hide ListOf, Listed, EntriesIn;
    byAddr := map[];
    NothingListed(byAddr);
    var fi := 0;
    while fi < |files|
      invariant 0 <= fi <= |files|
      invariant forall a :: ListOf(byAddr, a) == EntriesOver(w, files[..fi], a)
      invariant Listed(byAddr)
    {
      byAddr := GatherFile(byAddr, w[files[fi]], fi);
      assert Init(files[..fi + 1]) == files[..fi] && Last(files[..fi + 1]) == files[fi];
      fi := fi + 1;
    }
    assert files[..fi] == files;
  }

  lemma NothingListed(byAddr: map<Addr, seq<Entry>>)
    requires byAddr == map[]
    ensures Listed(byAddr) && forall a :: ListOf(byAddr, a) == []
  {
  }

  /** One file, read line by line under its running maximum. */
  method GatherFile(start: map<Addr, seq<Entry>>, s: seq<Record>, fi: nat) returns (byAddr: map<Addr, seq<Entry>>)
    requires Listed(start)
    ensures forall a :: ListOf(byAddr, a) == ListOf(start, a) + EntriesIn(s, fi, |s|, a)
    ensures Listed(byAddr)
  {
    hide ListOf, Listed;
    byAddr := start;
    var eff, li := 0, 0;
    while li < |s|
      invariant 0 <= li <= |s| && eff == (if li == 0 then 0 else Effective(s, li - 1))
      invariant forall a :: ListOf(byAddr, a) == ListOf(start, a) + EntriesIn(s, fi, li, a)
      invariant Listed(byAddr)
    {
      eff := Max(eff, s[li].date);
      var a := s[li].addr;
      Noted(byAddr, a, Entry(eff, fi, li, s[li]));
      byAddr := byAddr[a := ListOf(byAddr, a) + [Entry(eff, fi, li, s[li])]];
      li := li + 1;
    }
  }

  lemma Noted(byAddr: map<Addr, seq<Entry>>, a: Addr, e: Entry)
    requires Listed(byAddr)
    ensures var n := byAddr[a := ListOf(byAddr, a) + [e]];
      Listed(n) && forall b :: ListOf(n, b) == if b == a then ListOf(byAddr, b) + [e] else ListOf(byAddr, b)
  {
  }

  /* ---- Why the merge is the recording order ---- */

  /** The entry says what its line says. */
  ghost predicate Reads(w: Ledgers, files: seq<Path>, a: Addr, e: Entry) {
    && e.fi < |files| && There(w, files[e.fi], e.li) && w[files[e.fi]][e.li] == e.record
    && e.record.addr == a && e.eff == Effective(w[files[e.fi]], e.li)
  }

  lemma {:induction false} EntriesInRead(s: seq<Record>, fi: nat, n: nat, a: Addr)
    requires n <= |s|
    ensures forall e :: e in EntriesIn(s, fi, n, a) <==>
      e.fi == fi && e.li < n && s[e.li] == e.record && e.record.addr == a && e.eff == Effective(s, e.li)
    ensures Distinct(EntriesIn(s, fi, n, a))
  {
    hide Effective;
    if n > 0 { EntriesInRead(s, fi, n - 1, a); }
  }

  lemma {:induction false} EntriesOverRead(w: Ledgers, files: seq<Path>, a: Addr)
    requires forall p :: p in files ==> p in w
    ensures forall e :: e in EntriesOver(w, files, a) <==> Reads(w, files, a, e)
    ensures Distinct(EntriesOver(w, files, a))
  {
    hide Effective;
    if files != [] {
      var fewer, p := Init(files), Last(files);
      EntriesOverRead(w, fewer, a);
      EntriesInRead(w[p], |files| - 1, |w[p]|, a);
      forall e
        ensures Reads(w, files, a, e) <==> Reads(w, fewer, a, e) || e in EntriesIn(w[p], |files| - 1, |w[p]|, a)
      {
        assert e.fi < |fewer| ==> fewer[e.fi] == files[e.fi];
      }
      TwoDistinctParts(EntriesOver(w, fewer, a), EntriesIn(w[p], |files| - 1, |w[p]|, a), |fewer|);
    }
  }

  lemma TwoDistinctParts(s: seq<Entry>, t: seq<Entry>, fi: nat)
    requires Distinct(s) && Distinct(t)
    requires (forall e :: e in s ==> e.fi < fi) && forall e :: e in t ==> e.fi == fi
    ensures Distinct(s + t)
  {
    forall i, j | 0 <= i < j < |s + t|
      ensures (s + t)[i] != (s + t)[j]
    {
      if i < |s| <= j { assert s[i] in s && t[j - |s|] in t; }
    }
  }

  lemma MergeReads(w: Ledgers, files: seq<Path>, a: Addr)
    requires forall p :: p in files ==> p in w
    ensures var s := Sort(EntriesOver(w, files, a), ByDate());
      Distinct(s) && Sorted(s, ByDate()) && forall e :: e in s <==> Reads(w, files, a, e)
  {
    hide EntriesOver, Reads;
    EntriesOverRead(w, files, a);
    var t := EntriesOver(w, files, a);
    SortPermutes(t, ByDate());
    SortHolds(t, ByDate());
    PermutationKeepsDistinct(t, Sort(t, ByDate()));
    assert Total(ByDate());
    SortSorts(t, ByDate());
  }

  lemma OneLinePerNumber(w: Ledgers, files: seq<Path>, count: nat, a: Addr, d: Entry, e: Entry)
    requires (forall p :: p in files ==> p in w) && Distinct(files) && Numbered(w, count)
    requires Reads(w, files, a, d) && Reads(w, files, a, e)
    ensures d.record.number == e.record.number ==> d == e
  {
    hide Effective;
    if d.record.number == e.record.number {
      assert files[d.fi] == files[e.fi] && d.li == e.li;
    }
  }

  /** What the merge compares. */
  lemma EarlierIsPutFirst(w: Ledgers, files: seq<Path>, a: Addr, d: Entry, e: Entry)
    requires (forall p :: p in files ==> p in w) && Reads(w, files, a, d) && Reads(w, files, a, e)
    ensures About(w, files, a, d.fi, d.li) && About(w, files, a, e.fi, e.li)
    ensures Earlier(d, e) && d != e <==> PutFirst(w, files, d.fi, d.li, e.fi, e.li)
  {
    hide Effective;
  }

  lemma EntryOf(w: Ledgers, files: seq<Path>, a: Addr, fi: nat, i: nat)
    requires About(w, files, a, fi, i)
    ensures Reads(w, files, a, Entry(Effective(w[files[fi]], i), fi, i, w[files[fi]][i]))
  {
    hide Effective;
  }

  /** For every set of ledgers and every listing of them: the merge is in recording order
      exactly when the compared keys are. */
  lemma MergeIsRecordingOrder(w: Ledgers, files: seq<Path>, count: nat, a: Addr)
    requires (forall p :: p in files <==> p in w) && Distinct(files) && Numbered(w, count)
    ensures RecordingOrder(w, a, Merged(w, files, a)) <==> InMergeOrder(w, files, a)
  {
    hide EntriesOver, Reads, Earlier, Numbered;
    var s := Sort(EntriesOver(w, files, a), ByDate());
    MergeReads(w, files, a);
    ReadsAll(w, files, a, s);
    if InMergeOrder(w, files, a) { KeysInOrder(w, files, count, a, s); }
    if RecordingOrder(w, a, Recorded(s)) { OrderInKeys(w, files, a, s); }
  }

  lemma KeysInOrder(w: Ledgers, files: seq<Path>, count: nat, a: Addr, s: seq<Entry>)
    requires (forall p :: p in files <==> p in w) && Distinct(files) && Numbered(w, count)
    requires Distinct(s) && Sorted(s, ByDate()) && forall e :: e in s <==> Reads(w, files, a, e)
    requires InMergeOrder(w, files, a)
    ensures forall i, j :: 0 <= i < j < |Recorded(s)| ==> Recorded(s)[i].number < Recorded(s)[j].number
  {
    hide Reads, Earlier, Numbered, PutFirst, InMergeOrder;
    forall i, j | 0 <= i < j < |s|
      ensures s[i].record.number < s[j].record.number
    {
      assert s[i] in s && s[j] in s && ByDate()(s[i], s[j]);
      OneLinePerNumber(w, files, count, a, s[i], s[j]);
      SortedIsRecordedBefore(w, files, a, s[i], s[j]);
    }
  }

  lemma SortedIsRecordedBefore(w: Ledgers, files: seq<Path>, a: Addr, d: Entry, e: Entry)
    requires (forall p :: p in files ==> p in w) && InMergeOrder(w, files, a)
    requires Reads(w, files, a, d) && Reads(w, files, a, e) && Earlier(d, e)
    ensures d.record.number <= e.record.number
  {
    hide Effective;
    EarlierIsPutFirst(w, files, a, d, e);
    EarlierIsPutFirst(w, files, a, e, d);
  }

  lemma OrderInKeys(w: Ledgers, files: seq<Path>, a: Addr, s: seq<Entry>)
    requires (forall p :: p in files ==> p in w) && Sorted(s, ByDate())
    requires forall e :: e in s <==> Reads(w, files, a, e)
    requires forall i, j :: 0 <= i < j < |Recorded(s)| ==> Recorded(s)[i].number < Recorded(s)[j].number
    ensures InMergeOrder(w, files, a)
  {
    hide Reads, Earlier, Effective, PutFirst;
    forall fi: nat, i: nat, fj: nat, j: nat | About(w, files, a, fi, i) && About(w, files, a, fj, j) &&
        w[files[fi]][i].number < w[files[fj]][j].number
      ensures PutFirst(w, files, fi, i, fj, j)
    {
      EntryOf(w, files, a, fi, i);
      EntryOf(w, files, a, fj, j);
      var d := Entry(Effective(w[files[fi]], i), fi, i, w[files[fi]][i]);
      var e := Entry(Effective(w[files[fj]], j), fj, j, w[files[fj]][j]);
      EarlierIsPutFirst(w, files, a, d, e);
      var k :| 0 <= k < |s| && s[k] == d;
      var l :| 0 <= l < |s| && s[l] == e;
      assert Recorded(s)[k] == d.record && Recorded(s)[l] == e.record;
      assert k < l && ByDate()(s[k], s[l]);
    }
  }

  /** The audit reads something about an address exactly when some line is about it. */
  lemma SomeLine(w: Ledgers, files: seq<Path>, a: Addr)
    requires forall p :: p in files <==> p in w
    ensures Merged(w, files, a) != [] <==> exists x :: Holds(w, x) && x.addr == a
  {
    hide EntriesOver, Reads;
    MergeReads(w, files, a);
    ReadsAll(w, files, a, Sort(EntriesOver(w, files, a), ByDate()));
    if Merged(w, files, a) != [] { assert Merged(w, files, a)[0] in Merged(w, files, a); }
  }

  lemma ReadsAll(w: Ledgers, files: seq<Path>, a: Addr, s: seq<Entry>)
    requires (forall p :: p in files <==> p in w) && forall e :: e in s <==> Reads(w, files, a, e)
    ensures forall x :: x in Recorded(s) <==> Holds(w, x) && x.addr == a
  {
    hide Effective;
    forall x | x in Recorded(s)
      ensures Holds(w, x) && x.addr == a
    {
      var k :| 0 <= k < |s| && s[k].record == x;
      assert s[k] in s;
      assert There(w, files[s[k].fi], s[k].li);
    }
    forall x | Holds(w, x) && x.addr == a
      ensures x in Recorded(s)
    {
      var p, i: nat :| There(w, p, i) && w[p][i] == x;
      var fi :| 0 <= fi < |files| && files[fi] == p;
      var e := Entry(Effective(w[p], i), fi, i, x);
      assert Reads(w, files, a, e);
      var k :| 0 <= k < |s| && s[k] == e;
      assert Recorded(s)[k] == x;
    }
  }

  /** The order is one: two readings of the ledgers, over any two listings of the files, agree. */
  lemma {:induction false} RecordingOrderIsOne(r: seq<Record>, t: seq<Record>)
    requires forall i, j :: 0 <= i < j < |r| ==> r[i].number < r[j].number
    requires forall i, j :: 0 <= i < j < |t| ==> t[i].number < t[j].number
    requires forall x :: x in r <==> x in t
    ensures r == t
  {
    assert r != [] ==> r[0] in r;
    assert t != [] ==> t[0] in t;
    if r != [] {
      HeadsAgree(r, t);
      RecordingOrderIsOne(r[1..], t[1..]);
      assert r == [r[0]] + r[1..] && t == [t[0]] + t[1..];
    }
  }

  lemma HeadsAgree(r: seq<Record>, t: seq<Record>)
    requires r != [] && t != []
    requires forall i, j :: 0 <= i < j < |r| ==> r[i].number < r[j].number
    requires forall i, j :: 0 <= i < j < |t| ==> t[i].number < t[j].number
    requires forall x :: x in r <==> x in t
    ensures r[0] == t[0] && forall x :: x in r[1..] <==> x in t[1..]
  {
    assert r[0] in t && t[0] in r;
    var i :| 0 <= i < |t| && t[i] == r[0];
    var j :| 0 <= j < |r| && r[j] == t[0];
    TailHolds(r);
    TailHolds(t);
  }

  lemma TailHolds(r: seq<Record>)
    requires r != [] && forall i, j :: 0 <= i < j < |r| ==> r[i].number < r[j].number
    ensures forall x :: x in r[1..] <==> x in r && x != r[0]
  {
    assert r == [r[0]] + r[1..];
    assert forall k :: 0 <= k < |r[1..]| ==> r[1..][k] == r[k + 1];
  }
}

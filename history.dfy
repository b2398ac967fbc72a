/**
 * The visit history the consultation screen lists:
 * `ORDER BY appointment_date DESC, appointment_time DESC, c.id DESC LIMIT 10`.
 */
module History {
  import opened Wrappers
  import opened Text
  import opened Records

  /** One listed earlier visit. */
  datatype HistoryEntry = HistoryEntry(
    id: Id, date: string, time: string, visit: string, doctorName: Nullable,
    chiefComplaints: Nullable, diagnosis: Nullable, treatmentPlan: Nullable)

  /** The most entries the history lists. */
  const HistoryLimit: nat := 10

  /** `visit_number > 1 ? 'Follow-up' : 'Initial Consultation'`. */
  function VisitLabel(visitNumber: nat): (name: string)
    ensures name == "Follow-up" <==> visitNumber > 1
  {
    if visitNumber > 1 then "Follow-up" else "Initial Consultation"
  }

  /** The order's strict "later" on text columns. */
  predicate TextLt(a: string, b: string) {
    TextLe(a, b) && a != b
  }

  /** `x` is listed no later than `y`: newer date, then newer time, then higher id. */
  predicate Ranked(x: HistoryEntry, y: HistoryEntry) {
    || TextLt(y.date, x.date)
    || (x.date == y.date && (TextLt(y.time, x.time) || (x.time == y.time && x.id >= y.id)))
  }

  lemma RankedTotal(x: HistoryEntry, y: HistoryEntry)
    ensures Ranked(x, y) || Ranked(y, x)
  {
    TextLeTotal(x.date, y.date);
    TextLeTotal(x.time, y.time);
  }

  lemma RankedTransitive(x: HistoryEntry, y: HistoryEntry, z: HistoryEntry)
    requires Ranked(x, y) && Ranked(y, z)
    ensures Ranked(x, z)
  {
    if TextLe(z.date, y.date) && TextLe(y.date, x.date) {
      TextLeTransitive(z.date, y.date, x.date);
      if z.date == x.date {
        TextLeAntisymmetric(y.date, x.date);
      }
    }
    if TextLe(z.time, y.time) && TextLe(y.time, x.time) {
      TextLeTransitive(z.time, y.time, x.time);
      if z.time == x.time {
        TextLeAntisymmetric(y.time, x.time);
      }
    }
  }

  /** Listed in order: every entry ranks no later than every entry after it. */
  predicate Sorted(s: seq<HistoryEntry>) {
    forall i, j :: 0 <= i < j < |s| ==> Ranked(s[i], s[j])
  }

  /** Places one entry among sorted ones. */
  function Insert(x: HistoryEntry, s: seq<HistoryEntry>): (r: seq<HistoryEntry>)
    ensures multiset(r) == multiset(s) + multiset{x}
  {
    if s == [] then [x]
    else if Ranked(x, s[0]) then [x] + s
    else
      assert s == [s[0]] + s[1..];
      [s[0]] + Insert(x, s[1..])
  }

  lemma {:induction false} InsertSorted(x: HistoryEntry, s: seq<HistoryEntry>)
    requires Sorted(s)
    ensures Sorted(Insert(x, s))
  {
    if s == [] {
    } else if Ranked(x, s[0]) {
      var r := [x] + s;
      forall i, j | 0 <= i < j < |r|
        ensures Ranked(r[i], r[j])
      {
        if i == 0 && j > 1 {
          RankedTransitive(x, s[0], s[j - 1]);
        }
      }
    } else {
      RankedTotal(x, s[0]);
      InsertSorted(x, s[1..]);
      var tail := Insert(x, s[1..]);
      var r := [s[0]] + tail;
      forall i, j | 0 <= i < j < |r|
        ensures Ranked(r[i], r[j])
      {
        if i == 0 {
          var y := tail[j - 1];
          assert y in multiset(tail);
          assert y == x || y in multiset(s[1..]);
          if y != x {
            var m :| 0 <= m < |s[1..]| && s[1..][m] == y;
            assert Ranked(s[0], s[m + 1]);
          }
        }
      }
    }
  }

  /** Insertion sort by `Ranked`. */
  function SortHistory(s: seq<HistoryEntry>): (r: seq<HistoryEntry>)
    ensures multiset(r) == multiset(s)
  {
    if s == [] then []
    else
      assert s == [s[0]] + s[1..];
      Insert(s[0], SortHistory(s[1..]))
  }

  lemma {:induction false} SortHistorySorted(s: seq<HistoryEntry>)
    ensures Sorted(SortHistory(s))
  {
    if s != [] {
      SortHistorySorted(s[1..]);
      InsertSorted(s[0], SortHistory(s[1..]));
    }
  }

  /** The first `HistoryLimit` entries of the sorted list. */
  function TopEntries(s: seq<HistoryEntry>): (r: seq<HistoryEntry>)
  {
    var sorted := SortHistory(s);
    if |sorted| <= HistoryLimit then sorted else sorted[..HistoryLimit]
  }

  /** The listed entries are in order, and there are ten of them unless there are fewer candidates. */
  lemma TopEntriesSorted(s: seq<HistoryEntry>)
    ensures Sorted(TopEntries(s))
    ensures |TopEntries(s)| == if |s| <= HistoryLimit then |s| else HistoryLimit
  {
    SortHistorySorted(s);
    assert |SortHistory(s)| == |s| by {
      assert |multiset(SortHistory(s))| == |multiset(s)|;
    }
  }

  /** The listed entries are drawn from the candidates, and are all of them when there are ten or fewer. */
  lemma TopEntriesDrawn(s: seq<HistoryEntry>)
    ensures multiset(TopEntries(s)) <= multiset(s)
    ensures |s| <= HistoryLimit ==> multiset(TopEntries(s)) == multiset(s)
  {
    var sorted := SortHistory(s);
    assert |sorted| == |s| by {
      assert |multiset(sorted)| == |multiset(s)|;
    }
    if |sorted| > HistoryLimit {
      assert sorted == sorted[..HistoryLimit] + sorted[HistoryLimit..];
      assert multiset(sorted) == multiset(sorted[..HistoryLimit]) + multiset(sorted[HistoryLimit..]);
    }
  }

  /** A candidate left out ranks no earlier than any listed entry. */
  lemma TopEntriesBest(s: seq<HistoryEntry>, e: HistoryEntry, x: HistoryEntry)
    requires e in s && e !in TopEntries(s) && x in TopEntries(s)
    ensures Ranked(x, e)
  {
    var sorted := SortHistory(s);
    SortHistorySorted(s);
    assert e in multiset(sorted) by {
      assert e in multiset(s);
    }
    var j :| 0 <= j < |sorted| && sorted[j] == e;
    var r := TopEntries(s);
    assert j >= HistoryLimit;
    var i :| 0 <= i < |r| && r[i] == x;
    assert sorted[i] == x;
  }

  /** A listed entry is one of the candidates. */
  lemma TopEntriesMember(s: seq<HistoryEntry>, e: HistoryEntry)
    requires e in TopEntries(s)
    ensures e in s
  {
    TopEntriesDrawn(s);
    assert e in multiset(TopEntries(s));
  }

  /** A candidate is left out only when ten entries are listed, each ranked no later than it. */
  lemma TopEntriesLeftOut(s: seq<HistoryEntry>, e: HistoryEntry)
    requires e in s && e !in TopEntries(s)
    ensures |TopEntries(s)| == HistoryLimit
    ensures forall x :: x in TopEntries(s) ==> Ranked(x, e)
  {
    TopEntriesSorted(s);
    TopEntriesDrawn(s);
    assert e in multiset(s);
    forall x | x in TopEntries(s)
      ensures Ranked(x, e)
    {
      TopEntriesBest(s, e, x);
    }
  }
}

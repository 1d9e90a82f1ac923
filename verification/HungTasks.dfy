/**
  The mini khungtaskd: a fixed table remembers, for each task once seen in uninterruptible sleep,
  the context-switch count of that sighting; a task whose count has not moved is reported.
 */
module HungTasks {
  import opened Arithmetic

  const HT_MAX := 512
  const ULONG_MAX := 0xFFFF_FFFF_FFFF_FFFF

  /** One sighting of a task in state D: who it is and how often it has been switched so far. */
  datatype Sighting = Sighting(pid: int, count: nat)

  /** The abstract table: the pids in the order they were first entered, and their last counts. */
  datatype Table = Table(order: seq<int>, last: map<int, nat>)

  ghost predicate WellFormed(t: Table) {
    && |t.order| <= HT_MAX
    && (forall p :: p in t.last <==> p in t.order)
    && (forall i, j :: 0 <= i < j < |t.order| ==> t.order[i] != t.order[j])
    && 0 !in t.order
  }

  /** What one check does: look the task up, enter it if there is room, compare, remember. */
  function Lookup(t: Table, pid: int): Table {
    if pid in t.last || |t.order| == HT_MAX then t else Table(t.order + [pid], t.last[pid := ULONG_MAX])
  }

  function CheckedTable(t: Table, s: Sighting): Table {
    var u := Lookup(t, s.pid);
    if s.pid in u.last then u.(last := u.last[s.pid := s.count]) else u
  }

  predicate Reports(t: Table, s: Sighting) {
    var u := Lookup(t, s.pid);
    s.pid in u.last && u.last[s.pid] == s.count
  }

  class HungTable {
    const pids: array<int>
    const counts: array<nat>
    ghost var table: Table

    ghost predicate Valid()
      reads this, pids, counts
    {
      && pids.Length == counts.Length == HT_MAX
      && WellFormed(table)
      && pids[..|table.order|] == table.order
      && (forall i :: |table.order| <= i < HT_MAX ==> pids[i] == 0)
      && (forall i :: 0 <= i < |table.order| ==>
            table.order[i] in table.last && counts[i] == table.last[table.order[i]])
    }

    constructor ()
      ensures Valid() && table == Table([], map[])
      ensures fresh(pids) && fresh(counts)
    {
      pids := new int[HT_MAX](_ => 0);
      counts := new nat[HT_MAX](_ => 0);
      table := Table([], map[]);
    }

    /** The slot of a task, taken now if need be; None when the table is full of others. */
    method Slot(pid: int) returns (slot: int)
      requires Valid() && pid != 0
      modifies this, pids, counts
      ensures Valid() && table == Lookup(old(table), pid)
      ensures slot == -1 <==> pid !in table.last
      ensures slot != -1 ==> 0 <= slot < |table.order| && table.order[slot] == pid
    {
      var free := -1;
      var n := |table.order|;
      for i := 0 to HT_MAX
        invariant Valid() && table == old(table) && n == |table.order|
        invariant forall k :: 0 <= k < i ==> pids[k] != pid
        invariant free == if i <= n then -1 else n
      {
        if pids[i] == pid {
          assert i < n && table.order[i] == pid;
          return i;
        }
        if free < 0 && pids[i] == 0 {
          free := i;
        }
      }
      assert pid !in table.order;
      if free < 0 {
        return -1;
      }
      pids[free] := pid;
      counts[free] := ULONG_MAX;
      table := Lookup(table, pid);
      return free;
    }

    /** One sighting; true means the task is reported as hung. */
    method CheckOne(s: Sighting) returns (reported: bool)
      requires Valid() && s.pid != 0
      modifies this, pids, counts
      ensures Valid() && table == CheckedTable(old(table), s)
      ensures reported <==> Reports(old(table), s)
    {
      var slot := Slot(s.pid);
      if slot < 0 {
        return false;
      }
      if s.count != counts[slot] {
        counts[slot] := s.count;
        table := table.(last := table.last[s.pid := s.count]);
        return false;
      }
      assert table.last == table.last[s.pid := s.count];
      return true;
    }

    /** One scan over the tasks found in state D. */
    method Scan(tasks: seq<Sighting>) returns (reported: seq<bool>)
      requires Valid() && Positive(tasks)
      modifies this, pids, counts
      ensures Valid() && table == AfterAll(old(table), tasks)
      ensures reported == Verdicts(old(table), tasks)
    {
      reported := [];
      for i := 0 to |tasks|
        invariant Valid() && table == AfterAll(old(table), tasks[..i])
        invariant reported == Verdicts(old(table), tasks[..i])
      {
        var r := CheckOne(tasks[i]);
        reported := reported + [r];
        assert tasks[..i + 1][..i] == tasks[..i];
      }
      assert tasks[..|tasks|] == tasks;
    }
  }

  function Verdicts(t: Table, h: seq<Sighting>): (r: seq<bool>)
    ensures |r| == |h|
  {
    if h == [] then []
    else Verdicts(t, h[..|h| - 1]) + [Reports(AfterAll(t, h[..|h| - 1]), h[|h| - 1])]
  }

  lemma {:induction false} VerdictAt(t: Table, h: seq<Sighting>, k: nat)
    requires k < |h|
    ensures Verdicts(t, h)[k] <==> Reports(AfterAll(t, h[..k]), h[k])
  {
    if k < |h| - 1 {
      VerdictAt(t, h[..|h| - 1], k);
      assert h[..|h| - 1][..k] == h[..k];
    }
  }

  function AfterAll(t: Table, h: seq<Sighting>): Table {
    if h == [] then t else CheckedTable(AfterAll(t, h[..|h| - 1]), h[|h| - 1])
  }

  // ----- What the table means, in terms of the history of sightings alone

  function Empty(): Table {
    Table([], map[])
  }

  /** The distinct pids of a history, in order of first sighting. */
  function FirstSeen(h: seq<Sighting>): seq<int> {
    if h == [] then []
    else
      var before := FirstSeen(h[..|h| - 1]);
      var p := h[|h| - 1].pid;
      if p in before then before else before + [p]
  }

  /** The position of a pid's last sighting, or -1. */
  function LastIndex(h: seq<Sighting>, pid: int): (i: int)
    ensures -1 <= i < |h|
    ensures i >= 0 ==> h[i].pid == pid
    ensures forall k :: i < k < |h| ==> h[k].pid != pid
  {
    if h == [] then -1
    else if h[|h| - 1].pid == pid then |h| - 1
    else LastIndex(h[..|h| - 1], pid)
  }

  predicate Positive(h: seq<Sighting>) {
    forall i :: 0 <= i < |h| ==> h[i].pid != 0
  }

  /** The first 512 of a list, or all of them. */
  function Prefix(f: seq<int>): seq<int> {
    f[..Min(|f|, HT_MAX)]
  }

  /** A task is tracked when it is among the first 512 distinct tasks ever sighted. */
  predicate Tracked(h: seq<Sighting>, pid: int) {
    pid in Prefix(FirstSeen(h))
  }

  lemma {:induction false} FirstSeenIsLastIndex(h: seq<Sighting>, pid: int)
    ensures pid in FirstSeen(h) <==> LastIndex(h, pid) >= 0
  {
    if h != [] {
      FirstSeenIsLastIndex(h[..|h| - 1], pid);
    }
  }

  lemma PrefixStep(f: seq<int>, p: int)
    requires p !in f
    ensures Prefix(f + [p]) == if |f| < HT_MAX then Prefix(f) + [p] else Prefix(f)
  {
    if |f| < HT_MAX {
      assert Prefix(f) == f && Prefix(f + [p]) == f + [p];
    }
  }

  lemma OrderStep(g: seq<Sighting>, t: Table, s: Sighting)
    requires WellFormed(t) && t.order == Prefix(FirstSeen(g)) && s.pid != 0
    ensures WellFormed(CheckedTable(t, s)) && CheckedTable(t, s).order == Prefix(FirstSeen(g + [s]))
  {
    var f := FirstSeen(g);
    assert (g + [s])[..|g|] == g;
    if s.pid !in f {
      PrefixStep(f, s.pid);
    } else if s.pid !in t.order {
      FirstSeenStaysInPlace(f, s.pid, t.order);
    }
  }

  lemma LastStep(g: seq<Sighting>, t: Table, s: Sighting, q: int)
    requires q in t.last ==> LastIndex(g, q) >= 0 && t.last[q] == g[LastIndex(g, q)].count
    requires q in CheckedTable(t, s).last
    ensures LastIndex(g + [s], q) >= 0 && CheckedTable(t, s).last[q] == (g + [s])[LastIndex(g + [s], q)].count
  {
    assert (g + [s])[..|g|] == g;
    if q != s.pid {
      assert (g + [s])[LastIndex(g, q)] == g[LastIndex(g, q)];
    }
  }

  /** The table holds exactly the last counts of the first 512 distinct tasks. */
  lemma {:induction false} TableIsHistory(h: seq<Sighting>)
    requires Positive(h)
    ensures var t := AfterAll(Empty(), h);
      && WellFormed(t)
      && t.order == Prefix(FirstSeen(h))
      && (forall p :: p in t.last ==> LastIndex(h, p) >= 0 && t.last[p] == h[LastIndex(h, p)].count)
  {
    if h != [] {
      var k := |h| - 1;
      var g := h[..k];
      var t := AfterAll(Empty(), g);
      TableIsHistory(g);
      assert g + [h[k]] == h;
      OrderStep(g, t, h[k]);
      forall q | q in CheckedTable(t, h[k]).last
        ensures LastIndex(h, q) >= 0 && CheckedTable(t, h[k]).last[q] == h[LastIndex(h, q)].count
      {
        LastStep(g, t, h[k], q);
      }
    }
  }

  lemma FirstSeenStaysInPlace(f: seq<int>, p: int, order: seq<int>)
    requires p in f && order == Prefix(f) && p !in order
    ensures |order| == HT_MAX
  {
  }

  /** A sighting is tracked exactly when its task is in the table already or there is room. */
  lemma TrackedNext(g: seq<Sighting>, s: Sighting, order: seq<int>)
    requires order == Prefix(FirstSeen(g))
    ensures Tracked(g + [s], s.pid) <==> s.pid in order || |order| < HT_MAX
  {
    var f := FirstSeen(g);
    assert (g + [s])[..|g|] == g;
    if s.pid !in f {
      PrefixStep(f, s.pid);
    } else if s.pid !in order {
      FirstSeenStaysInPlace(f, s.pid, order);
    }
  }

  /**
    What deserves a report, given the earlier sightings g: the table has room for the task, and
    its count is that of its previous sighting, or, on first sight, the sentinel.
   */
  predicate HungByHistory(g: seq<Sighting>, s: Sighting) {
    var j := LastIndex(g, s.pid);
    Tracked(g + [s], s.pid) && (if j >= 0 then g[j].count == s.count else s.count == ULONG_MAX)
  }

  lemma ReportsExactly(g: seq<Sighting>, s: Sighting)
    requires Positive(g) && s.pid != 0
    ensures Reports(AfterAll(Empty(), g), s) <==> HungByHistory(g, s)
  {
    var t := AfterAll(Empty(), g);
    TableIsHistory(g);
    FirstSeenIsLastIndex(g, s.pid);
    TrackedNext(g, s, t.order);
    if s.pid !in t.order && LastIndex(g, s.pid) >= 0 {
      FirstSeenStaysInPlace(FirstSeen(g), s.pid, t.order);
    }
  }

  /** Successive scans are one history: the table carries everything that matters across. */
  lemma {:induction false} ScansCompose(t: Table, h1: seq<Sighting>, h2: seq<Sighting>)
    ensures AfterAll(t, h1 + h2) == AfterAll(AfterAll(t, h1), h2)
    ensures Verdicts(t, h1 + h2) == Verdicts(t, h1) + Verdicts(AfterAll(t, h1), h2)
  {
    if h2 == [] {
      assert h1 + h2 == h1;
    } else {
      ScansCompose(t, h1, h2[..|h2| - 1]);
      assert (h1 + h2)[..|h1 + h2| - 1] == h1 + h2[..|h2| - 1];
    }
  }

  /** For every history of sightings with nonzero pids, the reports are exactly the deserved ones. */
  lemma ReportedExactly(h: seq<Sighting>, k: nat)
    requires Positive(h) && k < |h|
    ensures Verdicts(Empty(), h)[k] <==> HungByHistory(h[..k], h[k])
  {
    VerdictAt(Empty(), h, k);
    ReportsExactly(h[..k], h[k]);
  }

  /** With counts below the sentinel, nobody is reported on first sight. */
  lemma NeverOnFirstSight(h: seq<Sighting>, k: nat)
    requires Positive(h) && k < |h| && h[k].count < ULONG_MAX && LastIndex(h[..k], h[k].pid) < 0
    ensures !Verdicts(Empty(), h)[k]
  {
    ReportedExactly(h, k);
  }

  ghost function PidsOf(h: seq<Sighting>): set<int> {
    set i: nat | i < |h| :: h[i].pid
  }

  lemma {:induction false} FirstSeenMembers(h: seq<Sighting>, p: int)
    ensures p in FirstSeen(h) <==> p in PidsOf(h)
  {
    if h != [] {
      FirstSeenMembers(h[..|h| - 1], p);
      PidsOfStep(h[..|h| - 1], h[|h| - 1]);
      assert h[..|h| - 1] + [h[|h| - 1]] == h;
    }
  }

  /** The list of first sightings holds each pid of the history once. */
  lemma {:induction false} FirstSeenCounts(h: seq<Sighting>)
    ensures |FirstSeen(h)| == |PidsOf(h)|
    ensures forall i, j :: 0 <= i < j < |FirstSeen(h)| ==> FirstSeen(h)[i] != FirstSeen(h)[j]
  {
    if h != [] {
      var g, p := h[..|h| - 1], h[|h| - 1].pid;
      FirstSeenCounts(g);
      PidsOfStep(g, h[|h| - 1]);
      assert g + [h[|h| - 1]] == h;
      FirstSeenMembers(g, p);
      if p in PidsOf(g) {
        assert PidsOf(h) == PidsOf(g);
      }
    }
  }

  lemma PidsOfStep(g: seq<Sighting>, s: Sighting)
    ensures PidsOf(g + [s]) == PidsOf(g) + {s.pid}
  {
    var h := g + [s];
    assert forall i :: 0 <= i < |g| ==> h[i] == g[i];
    assert h[|g|] == s;
  }

  /** Later sightings only add to the end of the list. */
  lemma {:induction false} FirstSeenGrows(h: seq<Sighting>, k: nat)
    requires k <= |h|
    ensures FirstSeen(h[..k]) <= FirstSeen(h)
  {
    if k == |h| {
      assert h[..k] == h;
    } else {
      FirstSeenGrows(h[..|h| - 1], k);
      assert h[..|h| - 1][..k] == h[..k];
    }
  }

  /** Who is tracked, in terms of the sightings alone: those with fewer than 512 others sighted before them. */
  lemma TrackedIffEarlyEnough(h: seq<Sighting>, i: nat)
    requires i < |h| && forall k :: 0 <= k < i ==> h[k].pid != h[i].pid
    ensures Tracked(h, h[i].pid) <==> |PidsOf(h[..i])| < HT_MAX
  {
    var g, p, f := h[..i], h[i].pid, FirstSeen(h);
    FirstSeenCounts(g);
    FirstSeenCounts(h);
    assert h[..i + 1] == g + [h[i]] && (g + [h[i]])[..i] == g;
    FirstSeenMembers(g, p);
    FirstSeenGrows(h, i + 1);
    assert FirstSeen(h[..i + 1]) == FirstSeen(g) + [p];
    assert f[|FirstSeen(g)|] == p;
  }

  /** With at most 512 distinct tasks, everybody is tracked. */
  lemma FewTasksAreAllTracked(h: seq<Sighting>, k: nat)
    requires k < |h| && |PidsOf(h)| <= HT_MAX
    ensures Tracked(h[..k] + [h[k]], h[k].pid)
  {
    FirstSeenCounts(h);
    FirstSeenGrows(h, k + 1);
    var g := h[..k] + [h[k]];
    assert g == h[..k + 1];
    FirstSeenIsLastIndex(g, h[k].pid);
    assert g[k] == h[k];
    assert FirstSeen(g)[..|FirstSeen(g)|] == FirstSeen(g);
  }
}

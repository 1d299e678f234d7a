/** What the log files keep of the checkpoints that got through: every one of them stays in its log
    file, with its time and all it held, whatever checkpoints come later; and each log file names
    the one that followed it. */
module LogHistory {
  import opened LogFiles
  import opened CrashSafety
  import opened NextCheckpoint

  /** A checkpoint of the past: what it held, and its time. */
  datatype Entry = Entry(snaps: seq<seq<Copy>>, stamp: nat)

  type Entries = map<nat, Entry>

  /** Table i's pages of checkpoint r lie together between the pages of the n tables and page `last`. */
  ghost predicate KeptBelow(log: Log, i: nat, n: nat, r: nat, snap: seq<Copy>, last: nat) {
    exists at :: n < at && at + |snap| <= last && Keeps(log, i, r, snap, at)
  }

  ghost predicate EntryKept(log: Log, n: nat, k: KeyPage, r: nat, x: Entry) {
    && Item(k.head, r).result == LCR_COMMIT && Item(k.head, r).stamp == x.stamp && |x.snaps| == n
    && forall i {:trigger x.snaps[i]} :: 0 <= i < n ==> KeptBelow(log, i, n, r, x.snaps[i], k.pageLast)
  }

  ghost predicate HeadKept(log: Log, n: nat, k: KeyPage, xs: Entries) {
    forall r {:trigger xs[r]} :: r in xs ==> r < k.recCur && EntryKept(log, n, k, r, xs[r])
  }

  /** The log file keeps the checkpoints xs of n tables, each under its number. */
  ghost predicate LogKeeps(log: Log, n: nat, xs: Entries) {
    HeadKept(log, n, KeyOf(log), xs)
  }

  // ---------------------------------------------------------------- pages that stay

  /** Pages behind those of the tables and before page `last` are the same in both. */
  ghost predicate SamePages(log: Log, log': Log, n: nat, last: nat) {
    forall x: nat {:trigger x in log'} :: n < x < last ==> (x in log <==> x in log') && (x in log ==> log[x] == log'[x])
  }

  lemma PreparedPages(d: Disk, o: Memory, snaps: seq<seq<Copy>>)
    requires |snaps| == |o.heads| && GoodKey(o.key, |snaps|)
    ensures SamePages(LogOf(d, o.id), LogOf(AfterAll(d, PrepareWrites(o.id, o.key, o.heads, snaps)), o.id), |snaps|, o.key.pageLast)
  {
    var c := Complete(Begun(o.key), o.key.pageLast + Total(snaps, 0));
    var d1, d2 := PrepareSteps(d, o, snaps, c);
    SaveAll(d1, o.id, o.key.pageLast, o.key.recCur, 0, o.heads, snaps);
    var log, log' := LogOf(d, o.id), LogOf(Apply(d2, ToLog(o.id, 0, Keys(c))), o.id);
    forall x: nat | |snaps| < x < o.key.pageLast ensures (x in log <==> x in log') && (x in log ==> log[x] == log'[x]) {
      assert x in LogOf(d2, o.id) || x !in LogOf(d2, o.id);
    }
  }

  /** A commit changes page 0 of the log file and nothing else in any. */
  lemma CommittedLog(d: Disk, id: nat, c: KeyPage, stamp: nat, snaps: seq<seq<Copy>>, e: Disk)
    requires |snaps| == |d.tables| && SnapsOk(snaps) && e == AfterAll(d, CommitWrites(d, id, c, stamp, snaps, false))
    ensures LogOf(e, id) == LogOf(d, id)[0 := Keys(Closed(c, stamp))]
    ensures forall other :: other != id ==> LogOf(e, other) == LogOf(d, other)
  {
    var a, w := ReplayFrom(d, 0, id, stamp, snaps, false), ToLog(id, 0, Keys(Closed(c, stamp)));
    SameBetween(d.tables, snaps);
    ReplayAll(d, d.tables, 0, id, stamp, snaps, false, a);
    AfterBoth(d, a, [w]);
    AfterOne(AfterAll(d, a), w);
  }

  // ---------------------------------------------------------------- what was kept stays kept

  /** A checkpoint of the past is not touched by the pages of one more record. */
  lemma KeptStays(log: Log, log': Log, i: nat, n: nat, r: nat, r': nat, snap: seq<Copy>, head: Head, from: nat, size: nat, last: nat, last': nat)
    requires KeptBelow(log, i, n, r, snap, last) && SamePages(log, log', n, last) && i < n && r != r' && last <= last'
    requires HeadAt(log, i, head) && HeadAt(log', i, SavedHead(head, r', from, size))
    ensures KeptBelow(log', i, n, r, snap, last')
  {
    var at :| n < at && at + |snap| <= last && Keeps(log, i, r, snap, at);
    forall x: nat | at <= x < at + |snap| ensures x in log' && log'[x] == Logged(snap[x - at]) { assert x in log; }
    assert Keeps(log', i, r, snap, at);
  }

  lemma EntryStays(log: Log, log': Log, n: nat, k: KeyPage, k': KeyPage, r: nat, x: Entry, hs: seq<Head>, snaps: seq<seq<Copy>>)
    requires EntryKept(log, n, k, r, x) && SamePages(log, log', n, k.pageLast) && r != k.recCur && |hs| == |snaps| == n
    requires HeadsIn(log, hs) && HeadsIn(log', SavedHeads(hs, k.recCur, k.pageLast, snaps))
    requires k'.pageLast >= k.pageLast && Item(k'.head, r) == Item(k.head, r)
    ensures EntryKept(log', n, k', r, x)
  {
    var hs' := SavedHeads(hs, k.recCur, k.pageLast, snaps);
    forall i | 0 <= i < n ensures KeptBelow(log', i, n, r, x.snaps[i], k'.pageLast) {
      assert HeadAt(log, i, hs[i]) && HeadAt(log', i, hs'[i]);
      KeptStays(log, log', i, n, r, k.recCur, x.snaps[i], hs[i], Start(k.pageLast, 0, i, snaps), |snaps[i]|, k.pageLast, k'.pageLast);
    }
  }

  lemma {:induction false} StartTotal(at: nat, i: nat, j: nat, snaps: seq<seq<Copy>>)
    requires i <= j <= |snaps|
    ensures Start(at, i, j, snaps) + Total(snaps, j) == at + Total(snaps, i)
    decreases j - i
  {
    if i < j { StartTotal(at + |snaps[i]|, i + 1, j, snaps); }
  }

  /** The new record keeps what was saved for it. */
  lemma EntryBegins(log: Log, n: nat, k: KeyPage, from: nat, snaps: seq<seq<Copy>>, stamp: nat)
    requires KeepsAll(log, k.recCur, from, snaps) && |snaps| == n < from && k.pageLast == from + Total(snaps, 0)
    ensures EntryKept(log[0 := Keys(Closed(k, stamp))], n, Closed(k, stamp), k.recCur, Entry(snaps, stamp))
  {
    var log' := log[0 := Keys(Closed(k, stamp))];
    forall i | 0 <= i < n ensures KeptBelow(log', i, n, k.recCur, snaps[i], k.pageLast) {
      var at := Start(from, 0, i, snaps);
      StartAfter(from, 0, i, snaps);
      StartTotal(from, 0, i, snaps);
      assert snaps[i] == snaps[i];
      KeepsOver(log, i, k.recCur, snaps[i], at, Keys(Closed(k, stamp)));
    }
  }

  // ---------------------------------------------------------------- one checkpoint in an open log file

  /** From d to e the checkpoint was prepared, and to g committed, in the log file at hand. */
  ghost predicate Committed(d: Disk, e: Disk, g: Disk, o: Memory, c: KeyPage, snaps: seq<seq<Copy>>, stamp: nat) {
    && |snaps| == |o.heads| == |e.tables| && SnapsOk(snaps) && c == Complete(Begun(o.key), o.key.pageLast + Total(snaps, 0))
    && e == AfterAll(d, PrepareWrites(o.id, o.key, o.heads, snaps))
    && g == AfterAll(e, CommitWrites(e, o.id, c, stamp, snaps, false))
  }

  /** From log to log1 a record under header c was prepared. */
  ghost predicate Recorded(log: Log, log1: Log, n: nat, k: KeyPage, c: KeyPage, hs: seq<Head>, snaps: seq<seq<Copy>>) {
    && c == Complete(Begun(k), k.pageLast + Total(snaps, 0)) && |hs| == |snaps| == n < k.pageLast
    && SamePages(log, log1, n, k.pageLast) && KeepsAll(log1, k.recCur, k.pageLast, snaps)
    && HeadsIn(log, hs) && HeadsIn(log1, SavedHeads(hs, k.recCur, k.pageLast, snaps))
  }

  lemma HeaderAdded(k: KeyPage, c: KeyPage, snaps: seq<seq<Copy>>, stamp: nat, r: nat)
    requires c == Complete(Begun(k), k.pageLast + Total(snaps, 0))
    ensures Closed(c, stamp).pageLast >= k.pageLast && Closed(c, stamp).recCur == k.recCur + 1
    ensures r != k.recCur ==> Item(Closed(c, stamp).head, r) == Item(k.head, r)
  {
  }

  lemma EntriesStay(log: Log, log1: Log, n: nat, k: KeyPage, c: KeyPage, hs: seq<Head>, snaps: seq<seq<Copy>>, stamp: nat, r: nat, x: Entry)
    requires Recorded(log, log1, n, k, c, hs, snaps) && r != k.recCur && EntryKept(log, n, k, r, x)
    ensures EntryKept(log1[0 := Keys(Closed(c, stamp))], n, Closed(c, stamp), r, x)
  {
    PageZero(log1, Keys(Closed(c, stamp)), SavedHeads(hs, k.recCur, k.pageLast, snaps));
    HeaderAdded(k, c, snaps, stamp, r);
    EntryStays(log, log1[0 := Keys(Closed(c, stamp))], n, k, Closed(c, stamp), r, x, hs, snaps);
  }

  /** What is kept after one more record is closed. */
  lemma RecordAdded(log: Log, log1: Log, n: nat, k: KeyPage, c: KeyPage, hs: seq<Head>, snaps: seq<seq<Copy>>, stamp: nat, xs: Entries)
    requires HeadKept(log, n, k, xs) && Recorded(log, log1, n, k, c, hs, snaps)
    ensures HeadKept(log1[0 := Keys(Closed(c, stamp))], n, Closed(c, stamp), xs[k.recCur := Entry(snaps, stamp)])
  {
    EntryBegins(log1, n, c, k.pageLast, snaps, stamp);
    HeaderAdded(k, c, snaps, stamp, k.recCur);
    forall r | r in xs ensures r < k.recCur && EntryKept(log1[0 := Keys(Closed(c, stamp))], n, Closed(c, stamp), r, xs[r]) {
      EntriesStay(log, log1, n, k, c, hs, snaps, stamp, r, xs[r]);
    }
  }

  lemma PreparedRecord(d: Disk, o: Memory, snaps: seq<seq<Copy>>, c: KeyPage)
    requires Loaded(LogOf(d, o.id), o) && |snaps| == |o.heads| && c == Complete(Begun(o.key), o.key.pageLast + Total(snaps, 0))
    ensures Recorded(LogOf(d, o.id), LogOf(AfterAll(d, PrepareWrites(o.id, o.key, o.heads, snaps)), o.id), |snaps|, o.key, c, o.heads, snaps)
  {
    PreparedPages(d, o, snaps);
    PreparedHeads(d, o, snaps);
    PrepareDone(d, o, snaps, c);
    BegunAt(o.key, c.pageLast);
  }

  lemma BegunAt(k: KeyPage, last: nat)
    ensures var c := Complete(Begun(k), last); c.recCur == k.recCur && Item(c.head, c.recCur).first == k.pageLast
  {
  }

  lemma CommittedKeeps(d: Disk, e: Disk, g: Disk, o: Memory, c: KeyPage, snaps: seq<seq<Copy>>, stamp: nat, xs: Entries)
    requires Loaded(LogOf(d, o.id), o) && Committed(d, e, g, o, c, snaps, stamp) && LogKeeps(LogOf(d, o.id), |snaps|, xs)
    ensures LogKeeps(LogOf(g, o.id), |snaps|, xs[o.key.recCur := Entry(snaps, stamp)])
  {
    CommittedLog(e, o.id, c, stamp, snaps, g);
    PreparedRecord(d, o, snaps, c);
    assert HeadKept(LogOf(d, o.id), |snaps|, o.key, xs);
    RecordAdded(LogOf(d, o.id), LogOf(e, o.id), |snaps|, o.key, c, o.heads, snaps, stamp, xs);
  }

  // ---------------------------------------------------------------- log files that are done with

  /** No write goes to log file id. */
  ghost predicate Elsewhere(ws: seq<Write>, id: nat) {
    forall i :: 0 <= i < |ws| ==> ws[i].ToLog? ==> ws[i].id != id
  }

  lemma {:induction false} LogStays(d: Disk, ws: seq<Write>, id: nat, n: nat)
    requires Elsewhere(ws, id) && n <= |ws|
    ensures LogOf(After(d, ws, n), id) == LogOf(d, id)
    decreases n
  {
    if n > 0 { LogStays(d, ws, id, n - 1); }
  }

  lemma {:induction false} SavesElsewhere(id: nat, at: nat, r: nat, i: nat, heads: seq<Head>, snaps: seq<seq<Copy>>, other: nat)
    requires i <= |snaps| == |heads| && other != id
    ensures Elsewhere(SaveFrom(id, at, r, i, heads, snaps), other)
    decreases |snaps| - i
  {
    if i < |snaps| { SavesElsewhere(id, at + |snaps[i]|, r, i + 1, heads, snaps, other); }
  }

  lemma CommittedElsewhere(d: Disk, e: Disk, g: Disk, o: Memory, c: KeyPage, snaps: seq<seq<Copy>>, stamp: nat, other: nat)
    requires Committed(d, e, g, o, c, snaps, stamp) && other != o.id
    ensures LogOf(g, other) == LogOf(d, other)
  {
    var a := PrepareWrites(o.id, o.key, o.heads, snaps);
    SavesElsewhere(o.id, o.key.pageLast, o.key.recCur, 0, o.heads, snaps, other);
    LogStays(d, a, other, |a|);
    CommittedLog(e, o.id, c, stamp, snaps, g);
  }

  /** A new log file keeps nothing yet, and the one before it is as it was but for its successor. */
  lemma RotatedLogs(d: Disk, m: Memory, newId: nat)
    requires newId != m.id
    ensures var e := AfterAll(d, RotateWrites(m.id, m.key, newId, |m.heads|, m.recMax));
            LogOf(e, m.id) == LogOf(d, m.id)[0 := Keys(m.key.(chain := newId))]
  {
    var w, b := ToLog(m.id, 0, Keys(m.key.(chain := newId))), InitWrites(newId, |m.heads|, m.recMax);
    AfterOne(d, w);
    AfterBoth(d, [w], b);
    LogStays(AfterAll(d, [w]), b, m.id, |b|);
  }

  lemma ChainKeeps(log: Log, n: nat, k: KeyPage, newId: nat, xs: Entries)
    requires HeadKept(log, n, k, xs)
    ensures HeadKept(log[0 := Keys(k.(chain := newId))], n, k.(chain := newId), xs)
  {
    var log' := log[0 := Keys(k.(chain := newId))];
    forall r | r in xs ensures EntryKept(log', n, k.(chain := newId), r, xs[r]) {
      forall i | 0 <= i < n ensures KeptBelow(log', i, n, r, xs[r].snaps[i], k.pageLast) {
        assert xs[r].snaps[i] == xs[r].snaps[i];
        var at :| n < at && at + |xs[r].snaps[i]| <= k.pageLast && Keeps(log, i, r, xs[r].snaps[i], at);
        KeepsOver(log, i, r, xs[r].snaps[i], at, Keys(k.(chain := newId)));
      }
    }
  }

  /** A checkpoint that gets through without a new log file is kept with all those before it; one
      that begins a new log file is the first that is kept there, and the old log file, which names
      the new one, keeps what it kept. */
  lemma PastKept(d: Disk, m: Memory, snaps: seq<seq<Copy>>, rotate: bool, newId: nat, stamp: nat, xs: Entries)
    requires Ready(d, m, snaps) && newId != m.id && LogKeeps(LogOf(d, m.id), |snaps|, xs)
    ensures var e := AfterAll(d, CheckpointWrites(d, m, snaps, rotate, newId, stamp));
            && (!rotate ==> LogKeeps(LogOf(e, m.id), |snaps|, xs[m.key.recCur := Entry(snaps, stamp)]))
            && (rotate ==> LogKeeps(LogOf(e, newId), |snaps|, map[0 := Entry(snaps, stamp)]))
            && (rotate ==> LogKeeps(LogOf(e, m.id), |snaps|, xs) && KeyOf(LogOf(e, m.id)).chain == newId)
  {
    var o, begun := Opened(m, rotate, newId), AfterAll(d, OpenWrites(m, rotate, newId));
    OpenDone(d, m, rotate, newId);
    var e, g, c := CheckpointIs(d, m, snaps, rotate, newId, stamp);
    if rotate {
      RotatedLogs(d, m, newId);
      ChainKeeps(LogOf(d, m.id), |snaps|, m.key, newId, xs);
      CommittedElsewhere(begun, e, g, o, c, snaps, stamp, m.id);
      CommittedKeeps(begun, e, g, o, c, snaps, stamp, map[]);
    } else {
      CommittedKeeps(begun, e, g, o, c, snaps, stamp, xs);
    }
  }

  /** A checkpoint is the opening of a log file, staging and commit. */
  lemma CheckpointIs(d: Disk, m: Memory, snaps: seq<seq<Copy>>, rotate: bool, newId: nat, stamp: nat) returns (e: Disk, g: Disk, c: KeyPage)
    requires Ready(d, m, snaps)
    ensures g == AfterAll(d, CheckpointWrites(d, m, snaps, rotate, newId, stamp))
    ensures Committed(AfterAll(d, OpenWrites(m, rotate, newId)), e, g, Opened(m, rotate, newId), c, snaps, stamp)
  {
    var a := StagingWrites(m, snaps, rotate, newId);
    e, c := AfterAll(d, a), Staged(m, snaps, rotate, newId);
    StagedIs(d, m, snaps, rotate, newId, e, c);
    var w := CommitWrites(e, Target(m, rotate, newId), c, stamp, snaps, false);
    assert CheckpointWrites(d, m, snaps, rotate, newId, stamp) == a + w;
    AfterBoth(d, a, w);
    g := AfterAll(e, w);
  }

  lemma StagedIs(d: Disk, m: Memory, snaps: seq<seq<Copy>>, rotate: bool, newId: nat, e: Disk, c: KeyPage)
    requires Ready(d, m, snaps) && e == AfterAll(d, StagingWrites(m, snaps, rotate, newId)) && c == Staged(m, snaps, rotate, newId)
    ensures var o := Opened(m, rotate, newId);
            && |snaps| == |o.heads| == |e.tables| && o.id == Target(m, rotate, newId)
            && c == Complete(Begun(o.key), o.key.pageLast + Total(snaps, 0))
            && e == AfterAll(AfterAll(d, OpenWrites(m, rotate, newId)), PrepareWrites(o.id, o.key, o.heads, snaps))
  {
    var o, a := Opened(m, rotate, newId), StagingWrites(m, snaps, rotate, newId);
    SameTables(d, a, |a|);
    AfterBoth(d, OpenWrites(m, rotate, newId), PrepareWrites(o.id, o.key, o.heads, snaps));
  }
}

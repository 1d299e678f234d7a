/** The files a checkpoint touches: table files, log files, and the order of their page writes.

    A page write is atomic and writes reach the files in program order; a crash cuts the
    sequence of writes somewhere.  What each step of the logger writes is given here as a
    sequence, so that a crash is a prefix of it. */
module LogFiles {
  const LCR_NULL: nat := 0
  const LCR_PREPARED: nat := 1
  const LCR_COMMIT: nat := 2
  const LCR_ABORT: nat := 3

  /** One checkpoint in the header of a log file, or of a table's page in it. */
  datatype LogHdr = LogHdr(first: nat, last: nat, stamp: nat, result: nat)

  type Head = map<nat, LogHdr>

  /** Page 0 of a log file. */
  datatype KeyPage = KeyPage(pageFirst: nat, pageLast: nat, recMax: nat, recCur: nat, chain: nat, head: Head)

  /** A page of a table; in page 0, the magic page, the first two fields are the id of the log
      file in charge and the time of the last checkpoint. */
  datatype DbPage = DbPage(id: nat, check: nat, body: seq<bv8>)

  /** A logged page knows its place in its table. */
  datatype Copy = Copy(index: nat, page: DbPage)

  datatype LogPage = Keys(key: KeyPage) | TableKeys(head: Head) | Logged(copy: Copy)

  type File = map<nat, DbPage>
  type Log = map<nat, LogPage>

  datatype Disk = Disk(logs: map<nat, Log>, tables: seq<File>)

  datatype Write = ToLog(id: nat, at: nat, log: LogPage) | ToTable(table: nat, at: nat, page: DbPage)

  /** A page header that was never written reads as zeros. */
  function Item(head: Head, r: nat): LogHdr {
    if r in head then head[r] else LogHdr(0, 0, 0, LCR_NULL)
  }

  /** What the buffer holds when a table has no page 0 yet. */
  const JUNK := DbPage(0, 0, [])

  function Page0(f: File): DbPage {
    if 0 in f then f[0] else JUNK
  }

  /** The id of the log file in charge of a table; 0 for a table never checkpointed. */
  function Id(f: File): nat {
    Page0(f).id
  }

  function LogOf(d: Disk, id: nat): Log {
    if id in d.logs then d.logs[id] else map[]
  }

  function WithPage(f: File, at: nat, page: DbPage): File {
    f[at := page]
  }

  function Apply(d: Disk, w: Write): Disk {
    match w
    case ToLog(id, at, page) => d.(logs := d.logs[id := LogOf(d, id)[at := page]])
    case ToTable(i, at, page) => if i < |d.tables| then d.(tables := d.tables[i := WithPage(d.tables[i], at, page)]) else d
  }

  /** The files after the first n writes. */
  function After(d: Disk, ws: seq<Write>, n: nat): Disk
    requires n <= |ws|
    decreases n
  {
    if n == 0 then d else Apply(After(d, ws, n - 1), ws[n - 1])
  }

  function AfterAll(d: Disk, ws: seq<Write>): Disk {
    After(d, ws, |ws|)
  }

  lemma {:induction false} AfterPrefix(d: Disk, a: seq<Write>, b: seq<Write>, n: nat)
    requires n <= |a|
    ensures After(d, a + b, n) == After(d, a, n)
    decreases n
  {
    if n > 0 {
      AfterPrefix(d, a, b, n - 1);
      assert (a + b)[n - 1] == a[n - 1];
    }
  }

  lemma {:induction false} AfterCat(d: Disk, a: seq<Write>, b: seq<Write>, n: nat)
    requires n <= |b|
    ensures After(d, a + b, |a| + n) == After(AfterAll(d, a), b, n)
    decreases n
  {
    if n == 0 {
      AfterPrefix(d, a, b, |a|);
    } else {
      AfterCat(d, a, b, n - 1);
      assert (a + b)[|a| + n - 1] == b[n - 1];
    }
  }

  /** A crash in a + b is a crash in a, or in b after all of a. */
  lemma AfterSplit(d: Disk, a: seq<Write>, b: seq<Write>, n: nat)
    requires n <= |a| + |b|
    ensures After(d, a + b, n) == if n <= |a| then After(d, a, n) else After(AfterAll(d, a), b, n - |a|)
  {
    if n <= |a| { AfterPrefix(d, a, b, n); } else { AfterCat(d, a, b, n - |a|); }
  }

  /** n writes of a + b are all of a and k of b. */
  lemma AfterInto(d: Disk, a: seq<Write>, b: seq<Write>, e: Disk, n: nat, k: nat)
    requires e == AfterAll(d, a) && n == |a| + k && k <= |b|
    ensures After(d, a + b, n) == After(e, b, k) && (n == |a + b| <==> k == |b|)
  {
    AfterCat(d, a, b, k);
  }

  lemma AfterOne(d: Disk, w: Write)
    ensures AfterAll(d, [w]) == Apply(d, w)
  {
    assert After(d, [w], 1) == Apply(After(d, [w], 0), w);
  }

  /** All of a, then all of b. */
  lemma AfterBoth(d: Disk, a: seq<Write>, b: seq<Write>)
    ensures AfterAll(d, a + b) == AfterAll(AfterAll(d, a), b)
  {
    AfterCat(d, a, b, |b|);
  }

  lemma AfterFramed(d: Disk, first: Write, ws: seq<Write>, last: Write)
    ensures AfterAll(d, [first] + ws + [last]) == Apply(AfterAll(Apply(d, first), ws), last)
  {
    AfterOne(d, first);
    AfterBoth(d, [first], ws);
    AfterBoth(d, [first] + ws, [last]);
    AfterOne(AfterAll(Apply(d, first), ws), last);
  }

  lemma {:induction false} SameTables(d: Disk, ws: seq<Write>, n: nat)
    requires n <= |ws|
    ensures |After(d, ws, n).tables| == |d.tables|
    decreases n
  {
    if n > 0 { SameTables(d, ws, n - 1); }
  }

  // ---------------------------------------------------------------- what is written

  /** The header of a prepared checkpoint: begun, then complete. */
  function Begun(k: KeyPage): KeyPage {
    k.(head := k.head[k.recCur := Item(k.head, k.recCur).(first := k.pageLast)])
  }

  function Complete(k: KeyPage, last: nat): KeyPage {
    k.(head := k.head[k.recCur := Item(k.head, k.recCur).(last := last, result := LCR_PREPARED)], pageLast := last)
  }

  function Closed(k: KeyPage, stamp: nat): KeyPage {
    k.(head := k.head[k.recCur := Item(k.head, k.recCur).(result := LCR_COMMIT, stamp := stamp)], recCur := k.recCur + 1)
  }

  function Aborted(k: KeyPage): KeyPage {
    k.(head := k.head[k.recCur := Item(k.head, k.recCur).(result := LCR_ABORT)], recCur := k.recCur + 1)
  }

  function FreshKey(tables: nat, recMax: nat): KeyPage {
    KeyPage(tables + 1, tables + 1, recMax, 0, 0, map[])
  }

  /** A new log file: one page for each table, then the page that makes it readable. */
  function InitWrites(id: nat, tables: nat, recMax: nat): seq<Write> {
    seq(tables, i requires 0 <= i < tables => ToLog(id, i + 1, TableKeys(map[]))) + [ToLog(id, 0, Keys(FreshKey(tables, recMax)))]
  }

  /** Rotation: the old log file names its successor first. */
  function RotateWrites(from: nat, k: KeyPage, id: nat, tables: nat, recMax: nat): seq<Write> {
    [ToLog(from, 0, Keys(k.(chain := id)))] + InitWrites(id, tables, recMax)
  }

  /** Saves the snapshot of table i at page `at` and records where it is. */
  function SaveWrites(id: nat, at: nat, r: nat, i: nat, head: Head, snap: seq<Copy>): seq<Write> {
    seq(|snap|, k requires 0 <= k < |snap| => ToLog(id, at + k, Logged(snap[k])))
    + [ToLog(id, i + 1, TableKeys(head[r := Item(head, r).(first := at, last := at + |snap|)]))]
  }

  function Total(snaps: seq<seq<Copy>>, i: nat): nat
    requires i <= |snaps|
    decreases |snaps| - i
  {
    if i == |snaps| then 0 else |snaps[i]| + Total(snaps, i + 1)
  }

  function SaveFrom(id: nat, at: nat, r: nat, i: nat, heads: seq<Head>, snaps: seq<seq<Copy>>): seq<Write>
    requires i <= |snaps| == |heads|
    decreases |snaps| - i
  {
    if i == |snaps| then [] else SaveWrites(id, at, r, i, heads[i], snaps[i]) + SaveFrom(id, at + |snaps[i]|, r, i + 1, heads, snaps)
  }

  function PrepareWrites(id: nat, k: KeyPage, heads: seq<Head>, snaps: seq<seq<Copy>>): seq<Write>
    requires |heads| == |snaps|
  {
    [ToLog(id, 0, Keys(Begun(k)))]
    + SaveFrom(id, k.pageLast, k.recCur, 0, heads, snaps)
    + [ToLog(id, 0, Keys(Complete(Begun(k), k.pageLast + Total(snaps, 0))))]
  }

  /** Brings table i up to date: its magic page names the log file before any other page
      changes, and gets its new contents last. */
  function ReplayWrites(f: File, i: nat, id: nat, stamp: nat, snap: seq<Copy>): seq<Write> {
    if snap == [] then [ToTable(i, 0, Page0(f).(id := id, check := stamp))]
    else
      var n := |snap| - 1;
      [ToTable(i, 0, Page0(f).(id := id))]
      + seq(n, k requires 0 <= k < n => ToTable(i, snap[k].index, snap[k].page))
      + [ToTable(i, 0, snap[n].page.(id := id, check := stamp))]
  }

  /** All tables from table i on; a redo skips the tables that name no log file. */
  function ReplayFrom(d: Disk, i: nat, id: nat, stamp: nat, snaps: seq<seq<Copy>>, redo: bool): seq<Write>
    requires i <= |snaps| == |d.tables|
    decreases |snaps| - i
  {
    if i == |snaps| then []
    else if redo && Id(d.tables[i]) == 0 then ReplayFrom(d, i + 1, id, stamp, snaps, redo)
    else
      var ws := ReplayWrites(d.tables[i], i, id, stamp, snaps[i]);
      SameTables(d, ws, |ws|);
      ws + ReplayFrom(AfterAll(d, ws), i + 1, id, stamp, snaps, redo)
  }

  /** The snapshots a log file keeps of the checkpoint r. */
  function Saved(log: Log, i: nat, r: nat): seq<Copy> {
    if i + 1 in log && log[i + 1].TableKeys? then
      var h := Item(log[i + 1].head, r);
      if h.first <= h.last then
        seq(h.last - h.first, k requires 0 <= k < h.last - h.first =>
          if h.first + k in log && log[h.first + k].Logged? then log[h.first + k].copy else Copy(0, JUNK))
      else []
    else []
  }

  function AllSaved(log: Log, tables: nat, r: nat): seq<seq<Copy>> {
    seq(tables, i requires 0 <= i < tables => Saved(log, i, r))
  }

  function MaxId(tables: seq<File>): (m: nat)
    ensures forall i :: 0 <= i < |tables| ==> Id(tables[i]) <= m
    ensures m != 0 ==> exists i :: 0 <= i < |tables| && Id(tables[i]) == m
  {
    if tables == [] then 0
    else
      var n := |tables| - 1;
      var m := MaxId(tables[..n]);
      assert forall i :: 0 <= i < n ==> tables[..n][i] == tables[i];
      if Id(tables[n]) > m then Id(tables[n]) else m
  }

  function CommitWrites(d: Disk, id: nat, k: KeyPage, stamp: nat, snaps: seq<seq<Copy>>, redo: bool): seq<Write>
    requires |snaps| == |d.tables|
  {
    ReplayFrom(d, 0, id, stamp, snaps, redo) + [ToLog(id, 0, Keys(Closed(k, stamp)))]
  }

  function KeyOf(log: Log): KeyPage {
    if 0 in log && log[0].Keys? then log[0].key else FreshKey(0, 0)
  }

  /** Time stamps move forward, by no more than need be, and are not behind the clock. */
  function Stamp(last: nat, now: nat): (r: nat)
    ensures last < r && now <= r && (r == last + 1 || r == now)
  {
    if now <= last then last + 1 else now
  }

  /** What recovery writes, as a function of the files alone: the log file named by the newest
      id decides.  When no table names one, a new log file is begun. */
  function RecoverWrites(d: Disk, newId: nat, recMax: nat, now: nat): seq<Write> {
    var id := MaxId(d.tables);
    var log := LogOf(d, id);
    var k := KeyOf(log);
    var h := Item(k.head, k.recCur);
    if id == 0 then InitWrites(newId, |d.tables|, recMax)
    else if h.result == LCR_PREPARED then
      CommitWrites(d, id, k, Stamp(id, now), AllSaved(log, |d.tables|, k.recCur), true)
    else if h.result == LCR_NULL && h.first != 0 then [ToLog(id, 0, Keys(Aborted(k)))]
    else []
  }

  /** What a running logger remembers of its log file, and how many records it gives a new one. */
  datatype Memory = Memory(id: nat, key: KeyPage, heads: seq<Head>, recMax: nat)

  /** The memory of a log file just begun. */
  function Begin(newId: nat, tables: nat, recMax: nat): Memory {
    Memory(newId, FreshKey(tables, recMax), seq(tables, i => map[]), recMax)
  }

  function Rotated(m: Memory, newId: nat): Memory {
    Begin(newId, |m.heads|, m.recMax)
  }

  function Opened(m: Memory, rotate: bool, newId: nat): Memory {
    if rotate then Rotated(m, newId) else m
  }

  function OpenWrites(m: Memory, rotate: bool, newId: nat): seq<Write> {
    if rotate then RotateWrites(m.id, m.key, newId, |m.heads|, m.recMax) else []
  }

  /** A whole checkpoint: a new log file if it is time for one, then prepare, then commit. */
  function StagingWrites(m: Memory, snaps: seq<seq<Copy>>, rotate: bool, newId: nat): seq<Write>
    requires |m.heads| == |snaps|
  {
    var o := Opened(m, rotate, newId);
    OpenWrites(m, rotate, newId) + PrepareWrites(o.id, o.key, o.heads, snaps)
  }

  /** The log file a checkpoint goes to, and its header once prepared. */
  function Target(m: Memory, rotate: bool, newId: nat): nat {
    if rotate then newId else m.id
  }

  function Staged(m: Memory, snaps: seq<seq<Copy>>, rotate: bool, newId: nat): KeyPage {
    var k := Opened(m, rotate, newId).key;
    Complete(Begun(k), k.pageLast + Total(snaps, 0))
  }

  /** Where the snapshot of table j starts when table i starts at page `at`. */
  function Start(at: nat, i: nat, j: nat, snaps: seq<seq<Copy>>): nat
    requires i <= j <= |snaps|
    decreases j - i
  {
    if i == j then at else Start(at + |snaps[i]|, i + 1, j, snaps)
  }

  /** The head page of a table whose snapshot of n pages went to page `at`. */
  function SavedHead(h: Head, r: nat, at: nat, n: nat): Head {
    h[r := Item(h, r).(first := at, last := at + n)]
  }

  /** The head pages once every snapshot is saved, from page `at` on. */
  function SavedHeads(heads: seq<Head>, r: nat, at: nat, snaps: seq<seq<Copy>>): seq<Head>
    requires |heads| == |snaps|
  {
    seq(|heads|, j requires 0 <= j < |heads| => SavedHead(heads[j], r, Start(at, 0, j, snaps), |snaps[j]|))
  }

  /** What the logger remembers when a checkpoint is through. */
  function NextMemory(m: Memory, snaps: seq<seq<Copy>>, rotate: bool, newId: nat, stamp: nat): Memory
    requires |m.heads| == |snaps|
  {
    var o := Opened(m, rotate, newId);
    Memory(o.id, Closed(Staged(m, snaps, rotate, newId), stamp), SavedHeads(o.heads, o.key.recCur, o.key.pageLast, snaps), m.recMax)
  }

  function CheckpointWrites(d: Disk, m: Memory, snaps: seq<seq<Copy>>, rotate: bool, newId: nat, stamp: nat): seq<Write>
    requires |m.heads| == |snaps| == |d.tables|
  {
    var a := StagingWrites(m, snaps, rotate, newId);
    SameTables(d, a, |a|);
    a + CommitWrites(AfterAll(d, a), Target(m, rotate, newId), Staged(m, snaps, rotate, newId), stamp, snaps, false)
  }
}

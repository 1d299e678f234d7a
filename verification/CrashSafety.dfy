/** A crash anywhere in a checkpoint, and anywhere in any number of recoveries, leaves all
    tables at the old checkpoint or all at the new one. */
module CrashSafety {
  import opened LogFiles

  /** The last page of a snapshot is the magic page, the others are not. */
  ghost predicate SnapOk(snap: seq<Copy>) {
    forall k :: 0 <= k < |snap| ==> (snap[k].index == 0 <==> k == |snap| - 1)
  }

  ghost predicate SnapsOk(snaps: seq<seq<Copy>>) {
    forall i :: 0 <= i < |snaps| ==> SnapOk(snaps[i])
  }

  ghost predicate InSnap(snap: seq<Copy>, x: nat) {
    exists k :: 0 <= k < |snap| && snap[k].index == x
  }

  /** File f with the given copies written over it. */
  ghost function Overlay(f: File, snap: seq<Copy>): File
    decreases |snap|
  {
    if snap == [] then f
    else
      var n := |snap| - 1;
      WithPage(Overlay(f, snap[..n]), snap[n].index, snap[n].page)
  }

  /** A table at its new checkpoint. */
  ghost function NewTable(f: File, snap: seq<Copy>, id: nat, stamp: nat): File {
    if snap == [] then WithPage(f, 0, Page0(f).(id := id, check := stamp))
    else
      var n := |snap| - 1;
      WithPage(Overlay(f, snap[..n]), 0, snap[n].page.(id := id, check := stamp))
  }

  /** All tables at their new checkpoints. */
  ghost predicate AtNew(gs: seq<File>, fs: seq<File>, snaps: seq<seq<Copy>>, id: nat, stamp: nat) {
    && |gs| == |fs| == |snaps|
    && forall i {:trigger gs[i]} :: 0 <= i < |gs| ==> gs[i] == NewTable(fs[i], snaps[i], id, stamp)
  }

  ghost predicate AllNew(gs: seq<File>, fs: seq<File>, snaps: seq<seq<Copy>>, id: nat) {
    exists stamp :: AtNew(gs, fs, snaps, id, stamp)
  }

  /** A table somewhere between its old and its new checkpoint. */
  ghost predicate Between(f: File, g: File, snap: seq<Copy>) {
    && (forall x :: x in g ==> x in f || x == 0 || InSnap(snap, x))
    && (forall x :: x in f ==> x in g)
    && (forall x :: x in g && x != 0 && !InSnap(snap, x) ==> x in f && g[x] == f[x])
    && (snap == [] ==> Page0(g).body == Page0(f).body)
  }

  lemma {:induction false} OverlayAt(f: File, g: File, snap: seq<Copy>, x: nat)
    ensures InSnap(snap, x) ==> x in Overlay(f, snap) && x in Overlay(g, snap) && Overlay(f, snap)[x] == Overlay(g, snap)[x]
    ensures !InSnap(snap, x) ==> (x in Overlay(f, snap) <==> x in f) && (x in f ==> Overlay(f, snap)[x] == f[x])
    decreases |snap|
  {
    if snap != [] {
      var n := |snap| - 1;
      var front := snap[..n];
      OverlayAt(f, g, front, x);
      if InSnap(snap, x) && snap[n].index != x {
        var k :| 0 <= k < |snap| && snap[k].index == x;
        assert front[k].index == x;
      }
      if InSnap(front, x) {
        var k :| 0 <= k < |front| && front[k].index == x;
        assert snap[k].index == x;
      }
    }
  }

  /** Writing a snapshot over a half-written table gives the same file as over the old one. */
  lemma SameNew(f: File, g: File, snap: seq<Copy>, id: nat, stamp: nat)
    requires Between(f, g, snap) && SnapOk(snap)
    ensures NewTable(g, snap, id, stamp) == NewTable(f, snap, id, stamp)
  {
    var a, b := NewTable(f, snap, id, stamp), NewTable(g, snap, id, stamp);
    if snap != [] {
      var front := snap[..|snap| - 1];
      forall x | x != 0 ensures InSnap(snap, x) <==> InSnap(front, x) {
        if InSnap(snap, x) {
          var k :| 0 <= k < |snap| && snap[k].index == x;
          assert front[k].index == x;
        }
        if InSnap(front, x) {
          var k :| 0 <= k < |front| && front[k].index == x;
          assert snap[k].index == x;
        }
      }
      forall x ensures x in a <==> x in b {
        OverlayAt(f, g, front, x);
        OverlayAt(g, f, front, x);
      }
      forall x | x in a ensures a[x] == b[x] {
        OverlayAt(f, g, front, x);
        OverlayAt(g, f, front, x);
      }
    } else {
      forall x | x in a ensures x in b && a[x] == b[x] { }
    }
  }

  // ---------------------------------------------------------------- one table replayed

  /** Only table i differs. */
  ghost predicate OnlyTable(d: Disk, e: Disk, i: nat) {
    && e.logs == d.logs && |e.tables| == |d.tables| && i < |d.tables|
    && forall j :: 0 <= j < |d.tables| && j != i ==> e.tables[j] == d.tables[j]
  }

  lemma {:induction false} ReplayStep(d: Disk, f: File, i: nat, id: nat, stamp: nat, snap: seq<Copy>, n: nat)
    requires i < |d.tables| && SnapOk(snap) && Between(f, d.tables[i], snap)
    requires n <= |ReplayWrites(d.tables[i], i, id, stamp, snap)|
    ensures var e := After(d, ReplayWrites(d.tables[i], i, id, stamp, snap), n);
            && OnlyTable(d, e, i) && Between(f, e.tables[i], snap)
            && Id(e.tables[i]) == if n == 0 then Id(d.tables[i]) else id
    ensures var e := After(d, ReplayWrites(d.tables[i], i, id, stamp, snap), n);
            0 < n <= |snap| ==>
              e.tables[i] == Overlay(WithPage(d.tables[i], 0, Page0(d.tables[i]).(id := id)), snap[..n-1])
    decreases n
  {
    var ws := ReplayWrites(d.tables[i], i, id, stamp, snap);
    if n > 0 {
      ReplayStep(d, f, i, id, stamp, snap, n - 1);
      var e := After(d, ws, n - 1);
      if snap != [] {
        assert n == 1 ==> ws[0] == ToTable(i, 0, Page0(d.tables[i]).(id := id));
        if 1 < n <= |snap| {
          assert ws[n-1] == ToTable(i, snap[n-2].index, snap[n-2].page);
          assert snap[..n-1][..n-2] == snap[..n-2];
          assert InSnap(snap, snap[n-2].index);
        }
        if n > |snap| {
          var l := |snap| - 1;
          assert ws[n-1] == ToTable(i, 0, snap[l].page.(id := id, check := stamp));
        }
      }
    }
  }

  /** A table replayed from any state between its checkpoints is at the new one. */
  lemma ReplayDone(d: Disk, f: File, i: nat, id: nat, stamp: nat, snap: seq<Copy>)
    requires i < |d.tables| && SnapOk(snap) && Between(f, d.tables[i], snap)
    ensures var e := AfterAll(d, ReplayWrites(d.tables[i], i, id, stamp, snap));
            OnlyTable(d, e, i) && e.tables[i] == NewTable(f, snap, id, stamp)
  {
    var g := d.tables[i];
    var ws := ReplayWrites(g, i, id, stamp, snap);
    ReplayStep(d, f, i, id, stamp, snap, |ws|);
    SameNew(f, g, snap, id, stamp);
    if snap != [] {
      var l := |snap| - 1;
      ReplayStep(d, f, i, id, stamp, snap, |snap|);
      assert ws[|ws|-1] == ToTable(i, 0, snap[l].page.(id := id, check := stamp));
      var h := WithPage(g, 0, Page0(g).(id := id));
      OverlaySkip(g, h, snap[..l], snap[l].page.(id := id, check := stamp));
    }
  }

  /** What page 0 was does not matter once it is overwritten. */
  lemma OverlaySkip(g: File, h: File, snap: seq<Copy>, m: DbPage)
    requires forall x :: x != 0 ==> (x in g <==> x in h) && (x in g ==> g[x] == h[x])
    ensures WithPage(Overlay(h, snap), 0, m) == WithPage(Overlay(g, snap), 0, m)
  {
    var a, b := WithPage(Overlay(h, snap), 0, m), WithPage(Overlay(g, snap), 0, m);
    forall x ensures (x in a <==> x in b) && (x in a ==> a[x] == b[x]) {
      OverlayAt(g, h, snap, x);
      OverlayAt(h, g, snap, x);
    }
  }

  // ---------------------------------------------------------------- all tables replayed

  ghost predicate AllBetween(fs: seq<File>, gs: seq<File>, snaps: seq<seq<Copy>>) {
    && |fs| == |gs| == |snaps|
    && forall i {:trigger Between(fs[i], gs[i], snaps[i])} :: 0 <= i < |fs| ==> Between(fs[i], gs[i], snaps[i])
  }

  /** Some table already names log file id. */
  ghost predicate Named(fs: seq<File>, id: nat) {
    exists i :: 0 <= i < |fs| && Id(fs[i]) == id
  }

  /** What holds after any number of writes of a replay. */
  ghost predicate Replaying(d: Disk, e: Disk, fs: seq<File>, snaps: seq<seq<Copy>>, id: nat) {
    && e.logs == d.logs && AllBetween(fs, e.tables, snaps) && |e.tables| == |d.tables|
    && forall j :: 0 <= j < |d.tables| ==> e.tables[j] == d.tables[j] || Id(e.tables[j]) == id
  }

  lemma ReplayTableSteps(d: Disk, fs: seq<File>, i: nat, id: nat, stamp: nat, snaps: seq<seq<Copy>>, n: nat)
    requires SnapsOk(snaps) && AllBetween(fs, d.tables, snaps) && i < |snaps|
    requires n <= |ReplayWrites(d.tables[i], i, id, stamp, snaps[i])|
    ensures var e := After(d, ReplayWrites(d.tables[i], i, id, stamp, snaps[i]), n);
            && Replaying(d, e, fs, snaps, id) && OnlyTable(d, e, i) && (n > 0 ==> Id(e.tables[i]) == id) && (n == 0 ==> e == d)
  {
    assert Between(fs[i], d.tables[i], snaps[i]);
    ReplayStep(d, fs[i], i, id, stamp, snaps[i], n);
    var e := After(d, ReplayWrites(d.tables[i], i, id, stamp, snaps[i]), n);
    forall j | 0 <= j < |fs| ensures Between(fs[j], e.tables[j], snaps[j]) {
      assert Between(fs[j], d.tables[j], snaps[j]);
    }
  }

  /** A redo passes over a table that names no log file. */
  ghost predicate Skipped(f: File, redo: bool) {
    redo && Id(f) == 0
  }

  /** The first table of a replay, in full. */
  lemma ReplayFirst(d: Disk, fs: seq<File>, i: nat, id: nat, stamp: nat, snaps: seq<seq<Copy>>, redo: bool) returns (a: seq<Write>, m: Disk, b: seq<Write>)
    requires SnapsOk(snaps) && AllBetween(fs, d.tables, snaps) && i < |snaps| && !Skipped(d.tables[i], redo)
    ensures a == ReplayWrites(d.tables[i], i, id, stamp, snaps[i]) && m == AfterAll(d, a)
    ensures Replaying(d, m, fs, snaps, id) && OnlyTable(d, m, i)
    ensures Id(m.tables[i]) == id && m.tables[i] == NewTable(fs[i], snaps[i], id, stamp)
    ensures b == ReplayFrom(m, i + 1, id, stamp, snaps, redo) && ReplayFrom(d, i, id, stamp, snaps, redo) == a + b
  {
    a := ReplayWrites(d.tables[i], i, id, stamp, snaps[i]);
    m := AfterAll(d, a);
    assert Between(fs[i], d.tables[i], snaps[i]);
    ReplayDone(d, fs[i], i, id, stamp, snaps[i]);
    ReplayTableSteps(d, fs, i, id, stamp, snaps, |a|);
    b := ReplayFrom(m, i + 1, id, stamp, snaps, redo);
  }

  lemma {:induction false} ReplaySteps(d: Disk, fs: seq<File>, i: nat, id: nat, stamp: nat, snaps: seq<seq<Copy>>, redo: bool, ws: seq<Write>, n: nat)
    requires SnapsOk(snaps) && AllBetween(fs, d.tables, snaps) && i <= |snaps|
    requires ws == ReplayFrom(d, i, id, stamp, snaps, redo) && n <= |ws|
    ensures var e := After(d, ws, n);
            && Replaying(d, e, fs, snaps, id) && (n == 0 ==> e == d)
            && (n > 0 ==> i < |fs| && (Skipped(d.tables[i], redo) || Id(e.tables[i]) == id))
    decreases |snaps| - i
  {
    if i < |snaps| && Skipped(d.tables[i], redo) {
      ReplaySteps(d, fs, i + 1, id, stamp, snaps, redo, ws, n);
    } else if i < |snaps| {
      var a, m, b := ReplayFirst(d, fs, i, id, stamp, snaps, redo);
      AfterSplit(d, a, b, n);
      if n <= |a| {
        ReplayTableSteps(d, fs, i, id, stamp, snaps, n);
      } else {
        var k: nat := n - |a|;
        ReplaySteps(m, fs, i + 1, id, stamp, snaps, redo, b, k);
        ReplayingOn(d, m, After(m, b, k), fs, snaps, id, i);
      }
    }
  }

  lemma ReplayingOn(d: Disk, m: Disk, e: Disk, fs: seq<File>, snaps: seq<seq<Copy>>, id: nat, i: nat)
    requires Replaying(d, m, fs, snaps, id) && Replaying(m, e, fs, snaps, id) && i < |d.tables| && Id(m.tables[i]) == id
    ensures Replaying(d, e, fs, snaps, id) && Id(e.tables[i]) == id
  {
  }

  /** The tables from table i on, but those passed over, are at the new checkpoint. */
  ghost predicate Replayed(d: Disk, e: Disk, fs: seq<File>, i: nat, id: nat, stamp: nat, snaps: seq<seq<Copy>>, redo: bool) {
    && e.logs == d.logs && |e.tables| == |d.tables| == |fs| == |snaps|
    && forall j {:trigger e.tables[j]} :: 0 <= j < |fs| ==>
         e.tables[j] == if j < i || Skipped(d.tables[j], redo) then d.tables[j] else NewTable(fs[j], snaps[j], id, stamp)
  }

  lemma {:induction false} ReplayAll(d: Disk, fs: seq<File>, i: nat, id: nat, stamp: nat, snaps: seq<seq<Copy>>, redo: bool, ws: seq<Write>)
    requires SnapsOk(snaps) && AllBetween(fs, d.tables, snaps) && i <= |snaps| && ws == ReplayFrom(d, i, id, stamp, snaps, redo)
    ensures Replayed(d, AfterAll(d, ws), fs, i, id, stamp, snaps, redo)
    decreases |snaps| - i
  {
    if i < |snaps| {
      if Skipped(d.tables[i], redo) {
        ReplayAll(d, fs, i + 1, id, stamp, snaps, redo, ws);
      } else {
        var a, m, b := ReplayFirst(d, fs, i, id, stamp, snaps, redo);
        ReplayAll(m, fs, i + 1, id, stamp, snaps, redo, b);
        AfterBoth(d, a, b);
        ReplayedOn(d, m, AfterAll(m, b), fs, i, id, stamp, snaps, redo);
      }
    }
  }

  lemma ReplayedOn(d: Disk, m: Disk, e: Disk, fs: seq<File>, i: nat, id: nat, stamp: nat, snaps: seq<seq<Copy>>, redo: bool)
    requires OnlyTable(d, m, i) && Replayed(m, e, fs, i + 1, id, stamp, snaps, redo) && !Skipped(d.tables[i], redo)
    requires m.tables[i] == NewTable(fs[i], snaps[i], id, stamp)
    ensures Replayed(d, e, fs, i, id, stamp, snaps, redo)
  {
  }

  // ---------------------------------------------------------------- the states a crash can leave

  /** A log file that can be loaded for n tables. */
  ghost predicate LogOk(log: Log, n: nat) {
    && 0 in log && log[0].Keys? && GoodKey(log[0].key, n)
    && forall i :: 1 <= i <= n ==> i in log && log[i].TableKeys?
  }

  ghost predicate GoodKey(k: KeyPage, n: nat) {
    k.pageFirst == n + 1 <= k.pageLast && forall r :: r in k.head ==> r <= k.recCur
  }

  /** The current checkpoint of a log file is not prepared. */
  ghost predicate Open(k: KeyPage) {
    Item(k.head, k.recCur).result == LCR_NULL
  }

  /** The log file holds the snapshots of a prepared checkpoint, one behind the other. */
  ghost predicate Prepared(log: Log, snaps: seq<seq<Copy>>) {
    && LogOk(log, |snaps|)
    && Item(KeyOf(log).head, KeyOf(log).recCur).result == LCR_PREPARED
    && AllSaved(log, |snaps|, KeyOf(log).recCur) == snaps
    && KeepsAll(log, KeyOf(log).recCur, Item(KeyOf(log).head, KeyOf(log).recCur).first, snaps)
  }

  ghost predicate KeepsAll(log: Log, r: nat, from: nat, snaps: seq<seq<Copy>>) {
    forall i {:trigger snaps[i]} :: 0 <= i < |snaps| ==> Keeps(log, i, r, snaps[i], Start(from, 0, i, snaps))
  }

  /** Tables as before, and recovery will leave them alone. */
  ghost predicate OldState(d: Disk, fs: seq<File>) {
    && d.tables == fs
    && (MaxId(fs) != 0 ==> LogOk(LogOf(d, MaxId(fs)), |fs|) && Open(KeyOf(LogOf(d, MaxId(fs)))))
  }

  /** Tables on their way, and recovery will bring them there. */
  ghost predicate MidState(d: Disk, fs: seq<File>, id: nat, snaps: seq<seq<Copy>>) {
    && AllBetween(fs, d.tables, snaps) && id != 0 && MaxId(d.tables) == id
    && (forall j :: 0 <= j < |d.tables| ==> Id(d.tables[j]) != 0)
    && Prepared(LogOf(d, id), snaps)
  }

  ghost predicate NewState(d: Disk, fs: seq<File>, id: nat, snaps: seq<seq<Copy>>) {
    && id != 0 && AllNew(d.tables, fs, snaps, id)
    && LogOk(LogOf(d, id), |fs|) && Open(KeyOf(LogOf(d, id)))
  }

  ghost predicate Safe(d: Disk, fs: seq<File>, id: nat, snaps: seq<seq<Copy>>) {
    OldState(d, fs) || MidState(d, fs, id, snaps) || NewState(d, fs, id, snaps)
  }

  lemma MaxIs(fs: seq<File>, id: nat)
    requires id != 0 && Named(fs, id) && forall j :: 0 <= j < |fs| ==> Id(fs[j]) <= id
    ensures MaxId(fs) == id
  {
    var m := MaxId(fs);
    var i :| 0 <= i < |fs| && Id(fs[i]) == id;
  }

  lemma NewId(f: File, snap: seq<Copy>, id: nat, stamp: nat)
    ensures Id(NewTable(f, snap, id, stamp)) == id
  {
  }

  lemma NewMax(gs: seq<File>, fs: seq<File>, snaps: seq<seq<Copy>>, id: nat)
    requires AllNew(gs, fs, snaps, id) && |fs| > 0 && id != 0
    ensures MaxId(gs) == id
  {
    var stamp :| AtNew(gs, fs, snaps, id, stamp);
    forall j | 0 <= j < |gs| ensures Id(gs[j]) == id { NewId(fs[j], snaps[j], id, stamp); }
    assert Id(gs[0]) == id;
    MaxIs(gs, id);
  }

  // ---------------------------------------------------------------- writes that leave the old state alone

  /** A write that recovery with log file `id` in charge of n tables does not notice. */
  ghost predicate Mild(w: Write, id: nat, n: nat) {
    && w.ToLog?
    && (w.id == id && id != 0 ==>
          || (w.at == 0 && w.log.Keys? && GoodKey(w.log.key, n) && Open(w.log.key))
          || (1 <= w.at <= n && w.log.TableKeys?)
          || w.at > n)
  }

  lemma {:induction false} MildKeepsOld(d: Disk, fs: seq<File>, ws: seq<Write>, n: nat)
    requires OldState(d, fs) && n <= |ws| && forall i :: 0 <= i < n ==> Mild(ws[i], MaxId(fs), |fs|)
    ensures OldState(After(d, ws, n), fs)
    decreases n
  {
    if n > 0 { MildKeepsOld(d, fs, ws, n - 1); }
  }

  // ---------------------------------------------------------------- one recovery

  lemma MidStays(d: Disk, e: Disk, fs: seq<File>, id: nat, snaps: seq<seq<Copy>>)
    requires MidState(d, fs, id, snaps) && Replaying(d, e, fs, snaps, id) && (e == d || Named(e.tables, id))
    ensures MidState(e, fs, id, snaps)
  {
    if e != d { MaxIs(e.tables, id); }
  }

  lemma ClosedOpens(k: KeyPage, n: nat, stamp: nat)
    requires GoodKey(k, n)
    ensures GoodKey(Closed(k, stamp), n) && Open(Closed(k, stamp)) && GoodKey(Aborted(k), n) && Open(Aborted(k))
  {
  }

  /** All tables are new; closing the checkpoint's record ends it. */
  lemma NewEnds(d: Disk, e: Disk, fs: seq<File>, id: nat, snaps: seq<seq<Copy>>, stamp: nat, w: Write)
    requires id != 0 && LogOk(LogOf(d, id), |fs|) && AtNew(e.tables, fs, snaps, id, stamp) && e.logs == d.logs
    requires w == ToLog(id, 0, Keys(Closed(KeyOf(LogOf(d, id)), stamp)))
    ensures NewState(Apply(e, w), fs, id, snaps) && AtNew(Apply(e, w).tables, fs, snaps, id, stamp)
  {
    ClosedOpens(KeyOf(LogOf(d, id)), |fs|, stamp);
  }

  /** A redo or commit from between the checkpoints, cut short or not. */
  lemma MidCommits(d: Disk, fs: seq<File>, id: nat, snaps: seq<seq<Copy>>, stamp: nat, redo: bool, ws: seq<Write>, n: nat)
    requires MidState(d, fs, id, snaps) && SnapsOk(snaps)
    requires ws == CommitWrites(d, id, KeyOf(LogOf(d, id)), stamp, snaps, redo) && n <= |ws|
    ensures if n == |ws| then NewState(After(d, ws, n), fs, id, snaps) && AtNew(After(d, ws, n).tables, fs, snaps, id, stamp)
            else MidState(After(d, ws, n), fs, id, snaps)
  {
    var a := ReplayFrom(d, 0, id, stamp, snaps, redo);
    var w := ToLog(id, 0, Keys(Closed(KeyOf(LogOf(d, id)), stamp)));
    if n < |ws| { MidGoesOn(d, fs, id, snaps, stamp, redo, a, w, n); } else { MidEnds(d, fs, id, snaps, stamp, redo, a, w); }
  }

  lemma MidGoesOn(d: Disk, fs: seq<File>, id: nat, snaps: seq<seq<Copy>>, stamp: nat, redo: bool, a: seq<Write>, w: Write, n: nat)
    requires MidState(d, fs, id, snaps) && SnapsOk(snaps) && a == ReplayFrom(d, 0, id, stamp, snaps, redo) && n <= |a|
    ensures MidState(After(d, a + [w], n), fs, id, snaps)
  {
    AfterPrefix(d, a, [w], n);
    ReplaySteps(d, fs, 0, id, stamp, snaps, redo, a, n);
    MidStays(d, After(d, a, n), fs, id, snaps);
  }

  lemma MidEnds(d: Disk, fs: seq<File>, id: nat, snaps: seq<seq<Copy>>, stamp: nat, redo: bool, a: seq<Write>, w: Write)
    requires MidState(d, fs, id, snaps) && SnapsOk(snaps) && a == ReplayFrom(d, 0, id, stamp, snaps, redo)
    requires w == ToLog(id, 0, Keys(Closed(KeyOf(LogOf(d, id)), stamp)))
    ensures NewState(AfterAll(d, a + [w]), fs, id, snaps) && AtNew(AfterAll(d, a + [w]).tables, fs, snaps, id, stamp)
  {
    var e := AfterAll(d, a);
    ReplayAll(d, fs, 0, id, stamp, snaps, redo, a);
    AfterBoth(d, a, [w]);
    AfterOne(e, w);
    NewEnds(d, e, fs, id, snaps, stamp, w);
  }

  // ---------------------------------------------------------------- recovery

  /** Recovery from the old or the new state touches no table. */
  lemma SettledWrites(d: Disk, newId: nat, recMax: nat, now: nat, i: nat)
    requires i < |RecoverWrites(d, newId, recMax, now)|
    requires var id := MaxId(d.tables); id != 0 ==> LogOk(LogOf(d, id), |d.tables|) && Open(KeyOf(LogOf(d, id)))
    ensures Mild(RecoverWrites(d, newId, recMax, now)[i], MaxId(d.tables), |d.tables|)
  {
    var id := MaxId(d.tables);
    if id != 0 { ClosedOpens(KeyOf(LogOf(d, id)), |d.tables|, 0); }
  }

  lemma SettledStays(d: Disk, newId: nat, recMax: nat, now: nat, n: nat)
    requires n <= |RecoverWrites(d, newId, recMax, now)|
    requires var id := MaxId(d.tables); id != 0 ==> LogOk(LogOf(d, id), |d.tables|) && Open(KeyOf(LogOf(d, id)))
    ensures OldState(After(d, RecoverWrites(d, newId, recMax, now), n), d.tables)
  {
    var ws := RecoverWrites(d, newId, recMax, now);
    forall i | 0 <= i < n ensures Mild(ws[i], MaxId(d.tables), |d.tables|) { SettledWrites(d, newId, recMax, now, i); }
    MildKeepsOld(d, d.tables, ws, n);
  }

  /** A recovery, cut short or not, from any safe state leads to a safe state; run to its end it
      leaves nothing between the checkpoints.  What is new stays new. */
  lemma RecoveryKeepsSafe(d: Disk, fs: seq<File>, id: nat, snaps: seq<seq<Copy>>, newId: nat, recMax: nat, now: nat, n: nat)
    requires Safe(d, fs, id, snaps) && SnapsOk(snaps) && |fs| > 0
    requires n <= |RecoverWrites(d, newId, recMax, now)|
    ensures var e := After(d, RecoverWrites(d, newId, recMax, now), n);
            && Safe(e, fs, id, snaps)
            && (NewState(d, fs, id, snaps) ==> NewState(e, fs, id, snaps))
            && (n == |RecoverWrites(d, newId, recMax, now)| ==> OldState(e, fs) || NewState(e, fs, id, snaps))
  {
    if NewState(d, fs, id, snaps) {
      NewMax(d.tables, fs, snaps, id);
      SettledStays(d, newId, recMax, now, n);
    } else if OldState(d, fs) {
      SettledStays(d, newId, recMax, now, n);
    } else {
      MidRecovers(d, fs, id, snaps, newId, recMax, now, n);
    }
  }

  lemma MidRecovers(d: Disk, fs: seq<File>, id: nat, snaps: seq<seq<Copy>>, newId: nat, recMax: nat, now: nat, n: nat)
    requires MidState(d, fs, id, snaps) && SnapsOk(snaps) && n <= |RecoverWrites(d, newId, recMax, now)|
    ensures RecoverWrites(d, newId, recMax, now) == CommitWrites(d, id, KeyOf(LogOf(d, id)), Stamp(id, now), snaps, true)
    ensures var e := After(d, RecoverWrites(d, newId, recMax, now), n);
            if n == |RecoverWrites(d, newId, recMax, now)| then NewState(e, fs, id, snaps) else MidState(e, fs, id, snaps)
  {
    MidCommits(d, fs, id, snaps, Stamp(id, now), true, RecoverWrites(d, newId, recMax, now), n);
  }

  // ---------------------------------------------------------------- preparing

  /** Only log file id changed, and there only pages from `from` on and the pages of tables i, i + 1, ... */
  ghost predicate OnlyLog(d: Disk, e: Disk, id: nat, i: nat, n: nat, from: nat) {
    && e.tables == d.tables
    && forall x {:trigger x in LogOf(e, id)} :: (x < from && !(i < x <= n)) ==>
         (x in LogOf(e, id) <==> x in LogOf(d, id)) && (x in LogOf(d, id) ==> LogOf(e, id)[x] == LogOf(d, id)[x])
  }

  /** Pages `at` and on of a log file are the first n copies of a snapshot. */
  ghost predicate Copies(log: Log, at: nat, snap: seq<Copy>, n: nat)
    requires n <= |snap|
  {
    forall x: nat {:trigger x in log} :: at <= x < at + n ==> x in log && log[x] == Logged(snap[x - at])
  }

  lemma {:induction false} CopiesSaved(d: Disk, id: nat, at: nat, snap: seq<Copy>, ws: seq<Write>, n: nat)
    requires n <= |snap| <= |ws| && forall k :: 0 <= k < |snap| ==> ws[k] == ToLog(id, at + k, Logged(snap[k]))
    ensures var log, log' := LogOf(d, id), LogOf(After(d, ws, n), id);
            && After(d, ws, n).tables == d.tables && Copies(log', at, snap, n)
            && (forall x {:trigger x in log'} :: x < at ==> (x in log' <==> x in log) && (x in log ==> log'[x] == log[x]))
    decreases n
  {
    if n > 0 {
      CopiesSaved(d, id, at, snap, ws, n - 1);
      var m := After(d, ws, n - 1);
      var y := at + (n - 1);
      assert After(d, ws, n) == Apply(m, ToLog(id, y, Logged(snap[n - 1])));
      CopyAdded(LogOf(m, id), at, snap, n - 1, y);
    }
  }

  lemma CopyAdded(log: Log, at: nat, snap: seq<Copy>, n: nat, y: nat)
    requires n < |snap| && Copies(log, at, snap, n) && y == at + n
    ensures Copies(log[y := Logged(snap[n])], at, snap, n + 1)
  {
  }

  /** The log file keeps snapshot `snap` of table i for checkpoint r at page `at`. */
  ghost predicate Keeps(log: Log, i: nat, r: nat, snap: seq<Copy>, at: nat) {
    && i + 1 in log && log[i + 1].TableKeys? && Copies(log, at, snap, |snap|)
    && Item(log[i + 1].head, r).first == at && Item(log[i + 1].head, r).last == at + |snap|
  }

  lemma KeepsSaved(log: Log, i: nat, r: nat, snap: seq<Copy>, at: nat)
    requires Keeps(log, i, r, snap, at)
    ensures Saved(log, i, r) == snap
  {
    forall k | 0 <= k < |snap| ensures Saved(log, i, r)[k] == snap[k] {
      var x := at + k;
      assert x in log;
    }
  }

  lemma SaveOne(d: Disk, id: nat, at: nat, r: nat, i: nat, n: nat, head: Head, snap: seq<Copy>)
    requires i < n < at
    ensures var e := AfterAll(d, SaveWrites(id, at, r, i, head, snap));
            && OnlyLog(d, e, id, i, i + 1, at) && Keeps(LogOf(e, id), i, r, snap, at)
            && LogOf(e, id)[i + 1] == TableKeys(SavedHead(head, r, at, |snap|))
  {
    var ws := SaveWrites(id, at, r, i, head, snap);
    CopiesSaved(d, id, at, snap, ws, |snap|);
    var m := After(d, ws, |snap|);
    var h := head[r := Item(head, r).(first := at, last := at + |snap|)];
    assert ws[|snap|] == ToLog(id, i + 1, TableKeys(h));
    HeadAdded(m, id, at, r, i, h, snap);
  }

  lemma HeadAdded(m: Disk, id: nat, at: nat, r: nat, i: nat, h: Head, snap: seq<Copy>)
    requires i + 1 < at && Copies(LogOf(m, id), at, snap, |snap|)
    requires Item(h, r).first == at && Item(h, r).last == at + |snap|
    ensures var e := Apply(m, ToLog(id, i + 1, TableKeys(h)));
            && Keeps(LogOf(e, id), i, r, snap, at) && e.tables == m.tables && LogOf(e, id)[i + 1] == TableKeys(h)
            && forall x {:trigger x in LogOf(e, id)} :: x != i + 1 ==>
                 (x in LogOf(e, id) <==> x in LogOf(m, id)) && (x in LogOf(m, id) ==> LogOf(e, id)[x] == LogOf(m, id)[x])
  {
  }

  /** From d to e the snapshots of the tables from table i on went to log file id, starting at page `at`. */
  ghost predicate SavedTo(d: Disk, e: Disk, id: nat, at: nat, r: nat, i: nat, snaps: seq<seq<Copy>>) {
    && OnlyLog(d, e, id, i, |snaps|, at)
    && forall j {:trigger snaps[j]} :: i <= j < |snaps| ==> Keeps(LogOf(e, id), j, r, snaps[j], Start(at, i, j, snaps))
  }

  lemma {:induction false} SaveAll(d: Disk, id: nat, at: nat, r: nat, i: nat, heads: seq<Head>, snaps: seq<seq<Copy>>)
    requires i <= |snaps| == |heads| && |snaps| < at
    ensures SavedTo(d, AfterAll(d, SaveFrom(id, at, r, i, heads, snaps)), id, at, r, i, snaps)
    decreases |snaps| - i
  {
    if i < |snaps| {
      var a := SaveWrites(id, at, r, i, heads[i], snaps[i]);
      var m := AfterAll(d, a);
      var at1 := at + |snaps[i]|;
      SaveOne(d, id, at, r, i, |snaps|, heads[i], snaps[i]);
      SaveAll(m, id, at1, r, i + 1, heads, snaps);
      var b := SaveFrom(id, at1, r, i + 1, heads, snaps);
      var e := AfterAll(m, b);
      AfterBoth(d, a, b);
      KeptOn(m, e, id, i, r, snaps[i], at, at1, |snaps|);
      SavedOn(d, m, e, id, i, |snaps|, at, at1);
      AllKept(LogOf(e, id), r, i, snaps, at, at1);
      assert SavedTo(d, e, id, at, r, i, snaps);
    }
  }

  lemma AllKept(log: Log, r: nat, i: nat, snaps: seq<seq<Copy>>, at: nat, at1: nat)
    requires i < |snaps| && at1 == at + |snaps[i]| && Keeps(log, i, r, snaps[i], at)
    requires forall j {:trigger snaps[j]} :: i + 1 <= j < |snaps| ==> Keeps(log, j, r, snaps[j], Start(at1, i + 1, j, snaps))
    ensures forall j {:trigger snaps[j]} :: i <= j < |snaps| ==> Keeps(log, j, r, snaps[j], Start(at, i, j, snaps))
  {
  }

  lemma SavedOn(d: Disk, m: Disk, e: Disk, id: nat, i: nat, n: nat, at: nat, at1: nat)
    requires OnlyLog(d, m, id, i, i + 1, at) && OnlyLog(m, e, id, i + 1, n, at1) && at <= at1 && i < n
    ensures OnlyLog(d, e, id, i, n, at)
  {
    forall x {:trigger x in LogOf(e, id)} | x < at && !(i < x <= n)
      ensures (x in LogOf(e, id) <==> x in LogOf(d, id)) && (x in LogOf(d, id) ==> LogOf(e, id)[x] == LogOf(d, id)[x])
    {
      assert x in LogOf(m, id) || x !in LogOf(m, id);
    }
  }

  lemma KeptOn(m: Disk, e: Disk, id: nat, i: nat, r: nat, snap: seq<Copy>, at: nat, at1: nat, n: nat)
    requires Keeps(LogOf(m, id), i, r, snap, at) && OnlyLog(m, e, id, i + 1, n, at1) && i < n < at && at1 == at + |snap|
    ensures Keeps(LogOf(e, id), i, r, snap, at)
  {
    var log, log' := LogOf(m, id), LogOf(e, id);
    assert i + 1 in log';
    forall x: nat | at <= x < at + |snap| ensures x in log' && log'[x] == Logged(snap[x - at]) {
      assert x in log;
      assert x in LogOf(e, id) <==> x in LogOf(m, id);
    }
  }

  /** The logger remembers what its log file holds, and that file is open for a checkpoint. */
  ghost predicate Loaded(log: Log, m: Memory) {
    && 0 in log && log[0] == Keys(m.key) && GoodKey(m.key, |m.heads|) && Open(m.key)
    && HeadsIn(log, m.heads)
  }

  /** The page of table i in a log file. */
  ghost predicate HeadAt(log: Log, i: nat, head: Head) {
    i + 1 in log && log[i + 1] == TableKeys(head)
  }

  ghost predicate HeadsIn(log: Log, heads: seq<Head>) {
    forall i :: 0 <= i < |heads| ==> HeadAt(log, i, heads[i])
  }

  lemma KeysGood(k: KeyPage, n: nat, last: nat)
    requires GoodKey(k, n) && Open(k) && last >= k.pageLast
    ensures GoodKey(Begun(k), n) && Open(Begun(k)) && Begun(k).recCur == k.recCur && Begun(k).pageLast == k.pageLast
    ensures var c := Complete(Begun(k), last);
            GoodKey(c, n) && c.recCur == k.recCur && Item(c.head, c.recCur).result == LCR_PREPARED && Item(c.head, c.recCur).first == k.pageLast
  {
  }

  lemma LoadedOk(log: Log, m: Memory)
    requires Loaded(log, m)
    ensures LogOk(log, |m.heads|)
  {
    forall i | 1 <= i <= |m.heads| ensures i in log && log[i].TableKeys? {
      var j := i - 1;
      assert HeadAt(log, j, m.heads[j]);
    }
  }

  /** Log file id of e holds every snapshot under header c; the tables are those of d. */
  ghost predicate PreparedIn(d: Disk, e: Disk, id: nat, snaps: seq<seq<Copy>>, c: KeyPage) {
    e.tables == d.tables && Prepared(LogOf(e, id), snaps) && KeyOf(LogOf(e, id)) == c
  }

  /** After prepare the log file holds every snapshot, and says so. */
  lemma PrepareDone(d: Disk, m: Memory, snaps: seq<seq<Copy>>, c: KeyPage)
    requires Loaded(LogOf(d, m.id), m) && |snaps| == |m.heads|
    requires c == Complete(Begun(m.key), m.key.pageLast + Total(snaps, 0))
    ensures PreparedIn(d, AfterAll(d, PrepareWrites(m.id, m.key, m.heads, snaps)), m.id, snaps, c)
  {
    var d1, d2 := PrepareSteps(d, m, snaps, c);
    SaveAll(d1, m.id, m.key.pageLast, m.key.recCur, 0, m.heads, snaps);
    KeysGood(m.key, |snaps|, c.pageLast);
    Finished(d2, m.id, m.key.pageLast, m.key.recCur, snaps, c);
  }

  lemma PrepareSteps(d: Disk, m: Memory, snaps: seq<seq<Copy>>, c: KeyPage) returns (d1: Disk, d2: Disk)
    requires |snaps| == |m.heads| && c == Complete(Begun(m.key), m.key.pageLast + Total(snaps, 0))
    ensures d1 == Apply(d, ToLog(m.id, 0, Keys(Begun(m.key)))) && d1.tables == d.tables
    ensures d2 == AfterAll(d1, SaveFrom(m.id, m.key.pageLast, m.key.recCur, 0, m.heads, snaps))
    ensures AfterAll(d, PrepareWrites(m.id, m.key, m.heads, snaps)) == Apply(d2, ToLog(m.id, 0, Keys(c)))
  {
    var first, last := ToLog(m.id, 0, Keys(Begun(m.key))), ToLog(m.id, 0, Keys(c));
    var b := SaveFrom(m.id, m.key.pageLast, m.key.recCur, 0, m.heads, snaps);
    d1 := Apply(d, first);
    d2 := AfterAll(d1, b);
    AfterFramed(d, first, b, last);
  }

  lemma Finished(d: Disk, id: nat, at: nat, r: nat, snaps: seq<seq<Copy>>, c: KeyPage)
    requires |snaps| < at && GoodKey(c, |snaps|) && c.recCur == r && Item(c.head, r).result == LCR_PREPARED && Item(c.head, r).first == at
    requires forall j {:trigger snaps[j]} :: 0 <= j < |snaps| ==> Keeps(LogOf(d, id), j, r, snaps[j], Start(at, 0, j, snaps))
    ensures PreparedIn(d, Apply(d, ToLog(id, 0, Keys(c))), id, snaps, c)
  {
    var e := Apply(d, ToLog(id, 0, Keys(c)));
    var log, log' := LogOf(d, id), LogOf(e, id);
    forall j | 0 <= j < |snaps| ensures Saved(log', j, r) == snaps[j] && Keeps(log', j, r, snaps[j], Start(at, 0, j, snaps)) {
      StartAfter(at, 0, j, snaps);
      var s := Start(at, 0, j, snaps);
      KeepsOver(log, j, r, snaps[j], s, Keys(c));
      KeepsSaved(log', j, r, snaps[j], s);
    }
    assert AllSaved(log', |snaps|, r) == snaps;
    forall i | 1 <= i <= |snaps| ensures i in log' && log'[i].TableKeys? {
      var j := i - 1;
      assert Keeps(log, j, r, snaps[j], Start(at, 0, j, snaps));
    }
  }

  lemma KeepsOver(log: Log, i: nat, r: nat, snap: seq<Copy>, at: nat, p: LogPage)
    requires Keeps(log, i, r, snap, at) && at > 0
    ensures Keeps(log[0 := p], i, r, snap, at)
  {
  }

  lemma {:induction false} StartAfter(at: nat, i: nat, j: nat, snaps: seq<seq<Copy>>)
    requires i <= j <= |snaps|
    ensures Start(at, i, j, snaps) >= at
    decreases j - i
  {
    if i < j { StartAfter(at + |snaps[i]|, i + 1, j, snaps); }
  }

  /** The pages of the first n tables are there and empty. */
  ghost predicate Blank(log: Log, n: nat) {
    forall x: nat {:trigger x in log} :: 1 <= x <= n ==> x in log && log[x] == TableKeys(map[])
  }

  lemma {:induction false} InitSteps(d: Disk, id: nat, tables: nat, recMax: nat, n: nat)
    requires n <= tables
    ensures var e := After(d, InitWrites(id, tables, recMax), n); e.tables == d.tables && Blank(LogOf(e, id), n)
    decreases n
  {
    if n > 0 {
      InitSteps(d, id, tables, recMax, n - 1);
      var m := After(d, InitWrites(id, tables, recMax), n - 1);
      assert After(d, InitWrites(id, tables, recMax), n) == Apply(m, ToLog(id, n, TableKeys(map[])));
      BlankAdded(LogOf(m, id), n);
    }
  }

  lemma BlankAdded(log: Log, n: nat)
    requires n > 0 && Blank(log, n - 1)
    ensures Blank(log[n := TableKeys(map[])], n)
  {
  }

  /** A new log file is loaded once it is begun. */
  lemma InitDone(d: Disk, newId: nat, n: nat, recMax: nat)
    ensures var e := AfterAll(d, InitWrites(newId, n, recMax));
            e.tables == d.tables && Loaded(LogOf(e, newId), Begin(newId, n, recMax))
  {
    var r, b := Begin(newId, n, recMax), InitWrites(newId, n, recMax);
    InitSteps(d, newId, n, recMax, n);
    var d2 := After(d, b, n);
    var e := AfterAll(d, b);
    assert e == Apply(d2, ToLog(newId, 0, Keys(r.key)));
    forall i | 0 <= i < n ensures HeadAt(LogOf(e, newId), i, r.heads[i]) {
      var x := i + 1;
      assert x in LogOf(d2, newId);
    }
  }

  lemma RotateDone(d: Disk, m: Memory, newId: nat)
    ensures var e := AfterAll(d, RotateWrites(m.id, m.key, newId, |m.heads|, m.recMax));
            e.tables == d.tables && Loaded(LogOf(e, newId), Rotated(m, newId))
  {
    var w := ToLog(m.id, 0, Keys(m.key.(chain := newId)));
    AfterOne(d, w);
    AfterBoth(d, [w], InitWrites(newId, |m.heads|, m.recMax));
    InitDone(AfterAll(d, [w]), newId, |m.heads|, m.recMax);
  }

  // ---------------------------------------------------------------- a whole checkpoint

  /** Between checkpoints: the logger is loaded, and its log file is the one the tables name, or
      no table names one yet. */
  ghost predicate AtRest(d: Disk, m: Memory) {
    && |m.heads| == |d.tables| > 0 && m.id != 0
    && Loaded(LogOf(d, m.id), m) && (MaxId(d.tables) == m.id || MaxId(d.tables) == 0)
  }

  ghost predicate Ready(d: Disk, m: Memory, snaps: seq<seq<Copy>>) {
    AtRest(d, m) && |snaps| == |d.tables| && SnapsOk(snaps)
  }

  /** A table without log file among tables with one forces a rotation. */
  ghost predicate MustRotate(fs: seq<File>) {
    MaxId(fs) != 0 && exists i :: 0 <= i < |fs| && Id(fs[i]) == 0
  }

  /** No table but the first is without a log file. */
  ghost predicate Adopted(fs: seq<File>) {
    forall i {:trigger fs[i]} :: 0 < i < |fs| ==> Id(fs[i]) != 0
  }

  lemma SaveMild(id: nat, at: nat, r: nat, i: nat, n: nat, head: Head, snap: seq<Copy>, cur: nat, x: nat)
    requires i < n < at && x < |SaveWrites(id, at, r, i, head, snap)|
    ensures Mild(SaveWrites(id, at, r, i, head, snap)[x], cur, n)
  {
  }

  lemma {:induction false} SavesMild(id: nat, at: nat, r: nat, i: nat, heads: seq<Head>, snaps: seq<seq<Copy>>, cur: nat, x: nat)
    requires i <= |snaps| == |heads| && |snaps| < at && x < |SaveFrom(id, at, r, i, heads, snaps)|
    ensures Mild(SaveFrom(id, at, r, i, heads, snaps)[x], cur, |snaps|)
    decreases |snaps| - i
  {
    if i < |snaps| {
      var a := SaveWrites(id, at, r, i, heads[i], snaps[i]);
      if x < |a| { SaveMild(id, at, r, i, |snaps|, heads[i], snaps[i], cur, x); }
      else { SavesMild(id, at + |snaps[i]|, r, i + 1, heads, snaps, cur, x - |a|); }
    }
  }

  /** Only the last write of prepare decides anything. */
  lemma PrepareMild(m: Memory, snaps: seq<seq<Copy>>, cur: nat, x: nat)
    requires |snaps| == |m.heads| && GoodKey(m.key, |snaps|) && Open(m.key)
    requires x < |PrepareWrites(m.id, m.key, m.heads, snaps)|
    requires x == |PrepareWrites(m.id, m.key, m.heads, snaps)| - 1 ==> m.id != cur || cur == 0
    ensures Mild(PrepareWrites(m.id, m.key, m.heads, snaps)[x], cur, |snaps|)
  {
    var k := m.key;
    KeysGood(k, |snaps|, k.pageLast);
    var b := SaveFrom(m.id, k.pageLast, k.recCur, 0, m.heads, snaps);
    if 0 < x <= |b| { SavesMild(m.id, k.pageLast, k.recCur, 0, m.heads, snaps, cur, x - 1); }
  }

  lemma StagingMild(m: Memory, snaps: seq<seq<Copy>>, rotate: bool, newId: nat, cur: nat, x: nat)
    requires |snaps| == |m.heads| && GoodKey(m.key, |snaps|) && Open(m.key) && newId > m.id && (cur == m.id || cur == 0)
    requires x < |StagingWrites(m, snaps, rotate, newId)|
    requires x == |StagingWrites(m, snaps, rotate, newId)| - 1 ==> rotate || cur == 0
    ensures Mild(StagingWrites(m, snaps, rotate, newId)[x], cur, |snaps|)
  {
    if rotate {
      var r := Rotated(m, newId);
      var a := RotateWrites(m.id, m.key, newId, |m.heads|, m.recMax);
      if x >= |a| { PrepareMild(r, snaps, cur, x - |a|); }
    } else {
      assert StagingWrites(m, snaps, rotate, newId) == PrepareWrites(m.id, m.key, m.heads, snaps);
      PrepareMild(m, snaps, cur, x);
    }
  }

  /** The log file a checkpoint goes to is loaded. */
  lemma OpenDone(d: Disk, m: Memory, rotate: bool, newId: nat)
    requires Loaded(LogOf(d, m.id), m)
    ensures var e, o := AfterAll(d, OpenWrites(m, rotate, newId)), Opened(m, rotate, newId);
            e.tables == d.tables && Loaded(LogOf(e, o.id), o)
  {
    if rotate { RotateDone(d, m, newId); }
  }

  /** Once staged, every snapshot is in the target log file; the tables are untouched. */
  lemma StagingDone(d: Disk, m: Memory, snaps: seq<seq<Copy>>, rotate: bool, newId: nat)
    requires Ready(d, m, snaps)
    ensures PreparedIn(d, AfterAll(d, StagingWrites(m, snaps, rotate, newId)), Target(m, rotate, newId), snaps, Staged(m, snaps, rotate, newId))
  {
    var o := Opened(m, rotate, newId);
    OpenDone(d, m, rotate, newId);
    PrepareDone(AfterAll(d, OpenWrites(m, rotate, newId)), o, snaps, Staged(m, snaps, rotate, newId));
    AfterBoth(d, OpenWrites(m, rotate, newId), PrepareWrites(o.id, o.key, o.heads, snaps));
  }

  lemma SameBetween(fs: seq<File>, snaps: seq<seq<Copy>>)
    requires |fs| == |snaps|
    ensures AllBetween(fs, fs, snaps)
  {
    forall i | 0 <= i < |fs| ensures Between(fs[i], fs[i], snaps[i]) { }
  }

  /** A crash while staging leaves the old state; staging done in the file the tables name is
      already the point of no return. */
  lemma StagingSafe(d: Disk, m: Memory, snaps: seq<seq<Copy>>, rotate: bool, newId: nat, n: nat)
    requires Ready(d, m, snaps) && newId > m.id && (MustRotate(d.tables) ==> rotate)
    requires n <= |StagingWrites(m, snaps, rotate, newId)|
    ensures var e := After(d, StagingWrites(m, snaps, rotate, newId), n);
            if n == |StagingWrites(m, snaps, rotate, newId)| && !rotate && MaxId(d.tables) != 0
            then MidState(e, d.tables, Target(m, rotate, newId), snaps) else OldState(e, d.tables)
  {
    var ws := StagingWrites(m, snaps, rotate, newId);
    LoadedOk(LogOf(d, m.id), m);
    StagingDone(d, m, snaps, rotate, newId);
    if n == |ws| && !rotate && MaxId(d.tables) != 0 {
      SameBetween(d.tables, snaps);
    } else {
      forall x | 0 <= x < n ensures Mild(ws[x], MaxId(d.tables), |d.tables|) { StagingMild(m, snaps, rotate, newId, MaxId(d.tables), x); }
      MildKeepsOld(d, d.tables, ws, n);
    }
  }

  lemma FirstBelow(fs: seq<File>, id: nat)
    requires Adopted(fs) && MaxId(fs) < id
    ensures forall j :: 0 < j < |fs| ==> 0 < Id(fs[j]) < id
    ensures forall j :: 0 <= j < |fs| ==> Id(fs[j]) < id
  {
  }

  /** The first write of a commit in a new log file is its point of no return. */
  lemma CommitBegins(d: Disk, e: Disk, fs: seq<File>, id: nat, snaps: seq<seq<Copy>>)
    requires d.tables == fs && Replaying(d, e, fs, snaps, id) && Prepared(LogOf(d, id), snaps)
    requires Adopted(fs) && MaxId(fs) < id && |fs| > 0 && Id(e.tables[0]) == id
    ensures MidState(e, fs, id, snaps)
  {
    FirstBelow(fs, id);
    MaxIs(e.tables, id);
  }

  /** A safe state, and the new one when the checkpoint got through. */
  ghost predicate Reached(e: Disk, fs: seq<File>, id: nat, snaps: seq<seq<Copy>>, stamp: nat, through: bool) {
    Safe(e, fs, id, snaps) && (through ==> NewState(e, fs, id, snaps) && AtNew(e.tables, fs, snaps, id, stamp))
  }

  /** A commit from the staged state, cut short or not. */
  lemma CommitSafe(d: Disk, fs: seq<File>, id: nat, snaps: seq<seq<Copy>>, c: KeyPage, stamp: nat, ws: seq<Write>, n: nat)
    requires PreparedIn(d, d, id, snaps, c) && d.tables == fs && SnapsOk(snaps) && |fs| == |snaps| > 0 && id != 0 && Adopted(fs)
    requires MidState(d, fs, id, snaps) || (OldState(d, fs) && MaxId(fs) < id)
    requires ws == CommitWrites(d, id, c, stamp, snaps, false) && n <= |ws|
    ensures Reached(After(d, ws, n), fs, id, snaps, stamp, n == |ws|)
  {
    if MidState(d, fs, id, snaps) {
      MidCommits(d, fs, id, snaps, stamp, false, ws, n);
    } else {
      var a, w := ReplayFrom(d, 0, id, stamp, snaps, false), ToLog(id, 0, Keys(Closed(c, stamp)));
      SameBetween(fs, snaps);
      AfterSplit(d, a, [w], n);
      if n <= |a| {
        ReplaySteps(d, fs, 0, id, stamp, snaps, false, a, n);
        if n > 0 { CommitBegins(d, After(d, a, n), fs, id, snaps); }
      } else {
        ReplayAll(d, fs, 0, id, stamp, snaps, false, a);
        AfterOne(AfterAll(d, a), w);
        NewEnds(d, AfterAll(d, a), fs, id, snaps, stamp, w);
      }
    }
  }

  /** A checkpoint is staging, then commit. */
  lemma CheckpointParts(d: Disk, m: Memory, snaps: seq<seq<Copy>>, rotate: bool, newId: nat, stamp: nat)
      returns (a: seq<Write>, e: Disk, b: seq<Write>, c: KeyPage)
    requires Ready(d, m, snaps) && newId > m.id && (MustRotate(d.tables) ==> rotate)
    ensures a == StagingWrites(m, snaps, rotate, newId) && e == AfterAll(d, a) && e.tables == d.tables
    ensures b == CommitWrites(e, Target(m, rotate, newId), c, stamp, snaps, false)
    ensures CheckpointWrites(d, m, snaps, rotate, newId, stamp) == a + b
    ensures PreparedIn(e, e, Target(m, rotate, newId), snaps, c)
    ensures forall n :: 0 <= n < |a| ==> OldState(After(d, a, n), d.tables)
    ensures MidState(e, d.tables, Target(m, rotate, newId), snaps) || (OldState(e, d.tables) && MaxId(d.tables) < Target(m, rotate, newId))
  {
    a := StagingWrites(m, snaps, rotate, newId);
    e := AfterAll(d, a);
    StagingDone(d, m, snaps, rotate, newId);
    c := Staged(m, snaps, rotate, newId);
    b := CommitWrites(e, Target(m, rotate, newId), c, stamp, snaps, false);
    StagingSafe(d, m, snaps, rotate, newId, |a|);
    forall n | 0 <= n < |a| ensures OldState(After(d, a, n), d.tables) { StagingSafe(d, m, snaps, rotate, newId, n); }
  }

  /** A crash anywhere in a checkpoint leaves a safe state, and a whole checkpoint the new one. */
  lemma CheckpointSafe(d: Disk, m: Memory, snaps: seq<seq<Copy>>, rotate: bool, newId: nat, stamp: nat, ws: seq<Write>, n: nat)
    requires Ready(d, m, snaps) && newId > m.id && Adopted(d.tables) && (MustRotate(d.tables) ==> rotate)
    requires ws == CheckpointWrites(d, m, snaps, rotate, newId, stamp) && n <= |ws|
    ensures Reached(After(d, ws, n), d.tables, Target(m, rotate, newId), snaps, stamp, n == |ws|)
  {
    var a, e, b, c := CheckpointParts(d, m, snaps, rotate, newId, stamp);
    if n < |a| {
      AfterPrefix(d, a, b, n);
      StillOld(After(d, a, n), d.tables, Target(m, rotate, newId), snaps, stamp);
    } else {
      CommitCut(d, a, e, b, d.tables, Target(m, rotate, newId), snaps, c, stamp, n);
    }
  }

  lemma CommitCut(d: Disk, a: seq<Write>, e: Disk, b: seq<Write>, fs: seq<File>, id: nat, snaps: seq<seq<Copy>>, c: KeyPage, stamp: nat, n: nat)
    requires e == AfterAll(d, a) && |snaps| == |e.tables| && b == CommitWrites(e, id, c, stamp, snaps, false) && |a| <= n <= |a| + |b|
    requires PreparedIn(e, e, id, snaps, c) && e.tables == fs && SnapsOk(snaps) && |fs| == |snaps| > 0 && id != 0 && Adopted(fs)
    requires MidState(e, fs, id, snaps) || (OldState(e, fs) && MaxId(fs) < id)
    ensures Reached(After(d, a + b, n), fs, id, snaps, stamp, n == |a + b|)
  {
    var k: nat := n - |a|;
    AfterInto(d, a, b, e, n, k);
    CommitSafe(e, fs, id, snaps, c, stamp, b, k);
  }

  lemma StillOld(e: Disk, fs: seq<File>, id: nat, snaps: seq<seq<Copy>>, stamp: nat)
    requires OldState(e, fs)
    ensures Reached(e, fs, id, snaps, stamp, false)
  {
  }

  // ---------------------------------------------------------------- any number of crashes

  /** One start of the system: its clock, and after how many writes of its recovery it crashes. */
  datatype Attempt = Attempt(newId: nat, recMax: nat, now: nat, crash: nat)

  function Recover(d: Disk, a: Attempt): Disk {
    AfterAll(d, RecoverWrites(d, a.newId, a.recMax, a.now))
  }

  /** The files after a series of recoveries, each of which may crash. */
  function Recoveries(d: Disk, tries: seq<Attempt>): Disk
    decreases |tries|
  {
    if tries == [] then d
    else
      var a := tries[0];
      var ws := RecoverWrites(d, a.newId, a.recMax, a.now);
      Recoveries(After(d, ws, if a.crash <= |ws| then a.crash else |ws|), tries[1..])
  }

  lemma {:induction false} RecoveriesSafe(d: Disk, fs: seq<File>, id: nat, snaps: seq<seq<Copy>>, tries: seq<Attempt>)
    requires Safe(d, fs, id, snaps) && SnapsOk(snaps) && |fs| > 0
    ensures Safe(Recoveries(d, tries), fs, id, snaps)
    ensures NewState(d, fs, id, snaps) ==> NewState(Recoveries(d, tries), fs, id, snaps)
    decreases |tries|
  {
    if tries != [] {
      var a := tries[0];
      var ws := RecoverWrites(d, a.newId, a.recMax, a.now);
      var n := if a.crash <= |ws| then a.crash else |ws|;
      RecoveryKeepsSafe(d, fs, id, snaps, a.newId, a.recMax, a.now, n);
      RecoveriesSafe(After(d, ws, n), fs, id, snaps, tries[1..]);
    }
  }

  /** The files when a checkpoint crashes after n writes, the recoveries of `tries` crash too, and
      the last one gets through. */
  function Outcome(d: Disk, m: Memory, snaps: seq<seq<Copy>>, rotate: bool, newId: nat, stamp: nat, n: nat, tries: seq<Attempt>, last: Attempt): Disk
    requires |m.heads| == |snaps| == |d.tables| && n <= |CheckpointWrites(d, m, snaps, rotate, newId, stamp)|
  {
    Recover(Recoveries(After(d, CheckpointWrites(d, m, snaps, rotate, newId, stamp), n), tries), last)
  }

  /** All tables old or all tables new, wherever the crashes were; a checkpoint that got through
      is never lost. */
  lemma Atomic(d: Disk, m: Memory, snaps: seq<seq<Copy>>, rotate: bool, newId: nat, stamp: nat, n: nat, tries: seq<Attempt>, last: Attempt)
    requires Ready(d, m, snaps) && newId > m.id && Adopted(d.tables) && (MustRotate(d.tables) ==> rotate)
    requires n <= |CheckpointWrites(d, m, snaps, rotate, newId, stamp)|
    ensures var e, id := Outcome(d, m, snaps, rotate, newId, stamp, n, tries, last), Target(m, rotate, newId);
            && (e.tables == d.tables || AllNew(e.tables, d.tables, snaps, id))
            && (n == |CheckpointWrites(d, m, snaps, rotate, newId, stamp)| ==> AllNew(e.tables, d.tables, snaps, id))
  {
    var id := Target(m, rotate, newId);
    var ws := CheckpointWrites(d, m, snaps, rotate, newId, stamp);
    CheckpointSafe(d, m, snaps, rotate, newId, stamp, ws, n);
    var c := After(d, ws, n);
    RecoveriesSafe(c, d.tables, id, snaps, tries);
    var r := Recoveries(c, tries);
    RecoveryKeepsSafe(r, d.tables, id, snaps, last.newId, last.recMax, last.now, |RecoverWrites(r, last.newId, last.recMax, last.now)|);
  }

  /** A redo cut short and run again ends at the very files of a redo that got through at once. */
  lemma RedoSame(d: Disk, fs: seq<File>, id: nat, snaps: seq<seq<Copy>>, first: Attempt, again: Attempt)
    requires MidState(d, fs, id, snaps) && SnapsOk(snaps) && |fs| > 0
    requires first.crash < |RecoverWrites(d, first.newId, first.recMax, first.now)|
    ensures Recover(Recoveries(d, [first]), again).tables == Recover(d, again).tables
  {
    MidRecovers(d, fs, id, snaps, first.newId, first.recMax, first.now, first.crash);
    var e := After(d, RecoverWrites(d, first.newId, first.recMax, first.now), first.crash);
    assert [first][1..] == [];
    assert Recoveries(d, [first]) == Recoveries(e, []);
    RedoEnds(d, fs, id, snaps, again);
    RedoEnds(e, fs, id, snaps, again);
    SameFiles(Recover(d, again).tables, Recover(e, again).tables, fs, snaps, id, Stamp(id, again.now));
  }

  lemma RedoEnds(d: Disk, fs: seq<File>, id: nat, snaps: seq<seq<Copy>>, a: Attempt)
    requires MidState(d, fs, id, snaps) && SnapsOk(snaps) && |fs| > 0
    ensures AtNew(Recover(d, a).tables, fs, snaps, id, Stamp(id, a.now))
  {
    var ws := RecoverWrites(d, a.newId, a.recMax, a.now);
    MidRecovers(d, fs, id, snaps, a.newId, a.recMax, a.now, |ws|);
    MidCommits(d, fs, id, snaps, Stamp(id, a.now), true, ws, |ws|);
  }

  lemma SameFiles(a: seq<File>, b: seq<File>, fs: seq<File>, snaps: seq<seq<Copy>>, id: nat, stamp: nat)
    requires AtNew(a, fs, snaps, id, stamp) && AtNew(b, fs, snaps, id, stamp)
    ensures a == b
  {
    forall i | 0 <= i < |a| ensures a[i] == b[i] { }
  }
}

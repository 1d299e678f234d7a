/** Which crashes can tear a checkpoint.

    A redo passes over the tables that name no log file, so a crash in a commit may leave such
    tables old while the others become new.  The tables that can lag behind are described for every
    crash, and with them exactly which checkpoints no crash can tear. */
module TornCheckpoints {
  import opened LogFiles
  import opened CrashSafety

  // ---------------------------------------------------------------- files up to the log file id and time

  ghost predicate AlikePage(at: nat, p: DbPage, q: DbPage) {
    if at == 0 then p.body == q.body else p == q
  }

  ghost predicate AlikeAt(f: File, g: File, at: nat) {
    (at in f <==> at in g) && (at in f && at in g ==> AlikePage(at, f[at], g[at]))
  }

  /** f and g are the same but for the log file id and the time in page 0. */
  ghost predicate Alike(f: File, g: File) {
    forall at: nat :: AlikeAt(f, g, at)
  }

  /** What the checkpoint makes of table f is not f. */
  ghost predicate Changed(f: File, snap: seq<Copy>) {
    !Alike(f, NewTable(f, snap, 0, 0))
  }

  ghost predicate AllOld(gs: seq<File>, fs: seq<File>) {
    |gs| == |fs| && forall i {:trigger gs[i]} :: 0 <= i < |gs| ==> Alike(gs[i], fs[i])
  }

  ghost predicate AllChanged(gs: seq<File>, fs: seq<File>, snaps: seq<seq<Copy>>) {
    |gs| == |fs| == |snaps| && forall i {:trigger gs[i]} :: 0 <= i < |gs| ==> Alike(gs[i], NewTable(fs[i], snaps[i], 0, 0))
  }

  /** All tables old or all tables new. */
  ghost predicate Whole(gs: seq<File>, fs: seq<File>, snaps: seq<seq<Copy>>) {
    AllOld(gs, fs) || AllChanged(gs, fs, snaps)
  }

  lemma AlikeSame(f: File)
    ensures Alike(f, f)
  {
  }

  lemma AlikeTwice(f: File, g: File, h: File)
    requires Alike(g, f) && Alike(g, h)
    ensures Alike(f, h)
  {
    forall at: nat ensures AlikeAt(f, h, at) { assert AlikeAt(g, f, at) && AlikeAt(g, h, at); }
  }

  lemma NewAlike(f: File, snap: seq<Copy>, id: nat, stamp: nat)
    ensures Alike(NewTable(f, snap, id, stamp), NewTable(f, snap, 0, 0))
  {
  }

  /** An unchanged table is old and new. */
  lemma Unchanged(f: File, snap: seq<Copy>, id: nat, stamp: nat)
    requires !Changed(f, snap)
    ensures Alike(NewTable(f, snap, id, stamp), f)
  {
    NewAlike(f, snap, id, stamp);
    var g, h := NewTable(f, snap, id, stamp), NewTable(f, snap, 0, 0);
    forall at: nat ensures AlikeAt(g, f, at) { assert AlikeAt(f, h, at) && AlikeAt(g, h, at); }
  }

  // ---------------------------------------------------------------- what a crash can leave

  /** Some tables behind the first that name no log file are still old, all others new. */
  ghost predicate Blend(gs: seq<File>, fs: seq<File>, snaps: seq<seq<Copy>>, id: nat, stamp: nat) {
    && |gs| == |fs| == |snaps|
    && forall j {:trigger gs[j]} :: 0 <= j < |gs| ==>
         gs[j] == NewTable(fs[j], snaps[j], id, stamp) || (j > 0 && gs[j] == fs[j] && Id(fs[j]) == 0)
  }

  /** A commit or redo on its way: some tables name its log file and are somewhere in between, the
      others are untouched. */
  ghost predicate HalfState(d: Disk, fs: seq<File>, id: nat, snaps: seq<seq<Copy>>) {
    && AllBetween(fs, d.tables, snaps) && id != 0 && MaxId(d.tables) == id && Prepared(LogOf(d, id), snaps)
    && |fs| > 0 && Id(d.tables[0]) != 0
    && forall j {:trigger d.tables[j]} :: 0 <= j < |fs| ==> d.tables[j] == fs[j] || Id(d.tables[j]) == id
  }

  ghost predicate EndState(d: Disk, fs: seq<File>, id: nat, snaps: seq<seq<Copy>>) {
    OldState(d, d.tables) && exists stamp :: Blend(d.tables, fs, snaps, id, stamp)
  }

  ghost predicate Crashed(d: Disk, fs: seq<File>, id: nat, snaps: seq<seq<Copy>>) {
    OldState(d, fs) || HalfState(d, fs, id, snaps) || EndState(d, fs, id, snaps)
  }

  lemma HalfStays(d: Disk, e: Disk, fs: seq<File>, id: nat, snaps: seq<seq<Copy>>)
    requires HalfState(d, fs, id, snaps) && Replaying(d, e, fs, snaps, id)
    ensures HalfState(e, fs, id, snaps)
  {
    var i :| 0 <= i < |d.tables| && Id(d.tables[i]) == id;
    assert Id(e.tables[i]) == id;
    MaxIs(e.tables, id);
  }

  /** A redo passes over the tables that name no log file. */
  lemma RedoBlends(d: Disk, e: Disk, fs: seq<File>, id: nat, stamp: nat, snaps: seq<seq<Copy>>, w: Write)
    requires HalfState(d, fs, id, snaps) && Replayed(d, e, fs, 0, id, stamp, snaps, true)
    requires w == ToLog(id, 0, Keys(Closed(KeyOf(LogOf(d, id)), stamp)))
    ensures Blend(Apply(e, w).tables, fs, snaps, id, stamp) && OldState(Apply(e, w), Apply(e, w).tables)
  {
    var g := Apply(e, w);
    BlendMax(d, g.tables, fs, id, stamp, snaps);
    ClosedOld(d, e, id, |fs|, stamp, w);
  }

  lemma ClosedOld(d: Disk, e: Disk, id: nat, n: nat, stamp: nat, w: Write)
    requires LogOk(LogOf(d, id), n) && e.logs == d.logs && MaxId(e.tables) == id && |e.tables| == n
    requires w == ToLog(id, 0, Keys(Closed(KeyOf(LogOf(d, id)), stamp)))
    ensures OldState(Apply(e, w), e.tables) && Apply(e, w).tables == e.tables
  {
    ClosedOpens(KeyOf(LogOf(d, id)), n, stamp);
  }

  lemma BlendMax(d: Disk, gs: seq<File>, fs: seq<File>, id: nat, stamp: nat, snaps: seq<seq<Copy>>)
    requires HalfState(d, fs, id, snaps) && |gs| == |fs|
    requires forall j {:trigger gs[j]} :: 0 <= j < |fs| ==> gs[j] == if Skipped(d.tables[j], true) then d.tables[j] else NewTable(fs[j], snaps[j], id, stamp)
    ensures Blend(gs, fs, snaps, id, stamp) && MaxId(gs) == id
  {
    forall j | 0 <= j < |gs| ensures Id(gs[j]) <= id && (gs[j] == NewTable(fs[j], snaps[j], id, stamp) || (j > 0 && gs[j] == fs[j] && Id(fs[j]) == 0)) {
      NewId(fs[j], snaps[j], id, stamp);
      assert d.tables[j] == d.tables[j];
    }
    NewId(fs[0], snaps[0], id, stamp);
    assert Id(gs[0]) == id;
    MaxIs(gs, id);
  }

  lemma HalfRecovers(d: Disk, fs: seq<File>, id: nat, snaps: seq<seq<Copy>>, a: Attempt, n: nat)
    requires HalfState(d, fs, id, snaps) && SnapsOk(snaps) && n <= |RecoverWrites(d, a.newId, a.recMax, a.now)|
    ensures var ws := RecoverWrites(d, a.newId, a.recMax, a.now);
            if n == |ws| then EndState(After(d, ws, n), fs, id, snaps) else HalfState(After(d, ws, n), fs, id, snaps)
  {
    var k, stamp := KeyOf(LogOf(d, id)), Stamp(id, a.now);
    var r, w := ReplayFrom(d, 0, id, stamp, snaps, true), ToLog(id, 0, Keys(Closed(k, stamp)));
    var ws := RecoverWrites(d, a.newId, a.recMax, a.now);
    assert ws == r + [w];
    if n < |ws| {
      AfterPrefix(d, r, [w], n);
      ReplaySteps(d, fs, 0, id, stamp, snaps, true, r, n);
      HalfStays(d, After(d, r, n), fs, id, snaps);
    } else {
      ReplayAll(d, fs, 0, id, stamp, snaps, true, r);
      AfterBoth(d, r, [w]);
      AfterOne(AfterAll(d, r), w);
      RedoBlends(d, AfterAll(d, r), fs, id, stamp, snaps, w);
    }
  }

  lemma RecoveryKeepsCrashed(d: Disk, fs: seq<File>, id: nat, snaps: seq<seq<Copy>>, a: Attempt, n: nat)
    requires Crashed(d, fs, id, snaps) && SnapsOk(snaps) && n <= |RecoverWrites(d, a.newId, a.recMax, a.now)|
    ensures var ws := RecoverWrites(d, a.newId, a.recMax, a.now);
            && Crashed(After(d, ws, n), fs, id, snaps)
            && (n == |ws| ==> OldState(After(d, ws, n), fs) || EndState(After(d, ws, n), fs, id, snaps))
  {
    if OldState(d, fs) || EndState(d, fs, id, snaps) {
      SettledStays(d, a.newId, a.recMax, a.now, n);
    } else {
      HalfRecovers(d, fs, id, snaps, a, n);
    }
  }

  lemma {:induction false} RecoveriesKeepCrashed(d: Disk, fs: seq<File>, id: nat, snaps: seq<seq<Copy>>, tries: seq<Attempt>)
    requires Crashed(d, fs, id, snaps) && SnapsOk(snaps)
    ensures Crashed(Recoveries(d, tries), fs, id, snaps)
    decreases |tries|
  {
    if tries != [] {
      var a := tries[0];
      var ws := RecoverWrites(d, a.newId, a.recMax, a.now);
      var n := if a.crash <= |ws| then a.crash else |ws|;
      RecoveryKeepsCrashed(d, fs, id, snaps, a, n);
      RecoveriesKeepCrashed(After(d, ws, n), fs, id, snaps, tries[1..]);
    }
  }

  lemma StagedHalf(d: Disk, fs: seq<File>, id: nat, snaps: seq<seq<Copy>>)
    requires MidState(d, fs, id, snaps) || OldState(d, fs)
    requires d.tables == fs && |fs| > 0
    ensures Crashed(d, fs, id, snaps)
  {
    if MidState(d, fs, id, snaps) { assert HalfState(d, fs, id, snaps); }
  }

  /** The first write of a commit to a new log file already calls for a redo. */
  lemma CommitHalf(d: Disk, e: Disk, fs: seq<File>, id: nat, snaps: seq<seq<Copy>>)
    requires d.tables == fs && Replaying(d, e, fs, snaps, id) && Prepared(LogOf(d, id), snaps)
    requires MaxId(fs) <= id && id != 0 && |fs| > 0 && Id(e.tables[0]) == id
    ensures HalfState(e, fs, id, snaps)
  {
    forall j | 0 <= j < |fs| ensures Id(e.tables[j]) <= id { assert e.tables[j] == fs[j] || Id(e.tables[j]) == id; }
    MaxIs(e.tables, id);
  }

  lemma NewBlends(d: Disk, fs: seq<File>, id: nat, snaps: seq<seq<Copy>>, stamp: nat)
    requires NewState(d, fs, id, snaps) && AtNew(d.tables, fs, snaps, id, stamp) && |fs| > 0
    ensures EndState(d, fs, id, snaps)
  {
    NewMax(d.tables, fs, snaps, id);
    assert Blend(d.tables, fs, snaps, id, stamp);
  }

  lemma CommitCrashes(d: Disk, fs: seq<File>, id: nat, snaps: seq<seq<Copy>>, c: KeyPage, stamp: nat, ws: seq<Write>, n: nat)
    requires PreparedIn(d, d, id, snaps, c) && d.tables == fs && SnapsOk(snaps) && |fs| == |snaps| > 0 && id != 0 && MaxId(fs) <= id
    requires ws == CommitWrites(d, id, c, stamp, snaps, false) && 0 < n <= |ws|
    ensures Crashed(After(d, ws, n), fs, id, snaps)
  {
    var a, w := ReplayFrom(d, 0, id, stamp, snaps, false), ToLog(id, 0, Keys(Closed(c, stamp)));
    SameBetween(fs, snaps);
    AfterSplit(d, a, [w], n);
    if n <= |a| {
      ReplaySteps(d, fs, 0, id, stamp, snaps, false, a, n);
      CommitHalf(d, After(d, a, n), fs, id, snaps);
    } else {
      ReplayAll(d, fs, 0, id, stamp, snaps, false, a);
      AfterOne(AfterAll(d, a), w);
      NewEnds(d, AfterAll(d, a), fs, id, snaps, stamp, w);
      NewBlends(Apply(AfterAll(d, a), w), fs, id, snaps, stamp);
    }
  }

  lemma CheckpointCrashes(d: Disk, m: Memory, snaps: seq<seq<Copy>>, rotate: bool, newId: nat, stamp: nat, ws: seq<Write>, n: nat)
    requires Ready(d, m, snaps) && newId > m.id && (MustRotate(d.tables) ==> rotate)
    requires ws == CheckpointWrites(d, m, snaps, rotate, newId, stamp) && n <= |ws|
    ensures Crashed(After(d, ws, n), d.tables, Target(m, rotate, newId), snaps)
  {
    var a, e, b, c := CheckpointParts(d, m, snaps, rotate, newId, stamp);
    var id := Target(m, rotate, newId);
    if n < |a| {
      AfterPrefix(d, a, b, n);
      assert OldState(After(d, a, n), d.tables);
    } else {
      var k: nat := n - |a|;
      AfterInto(d, a, b, e, n, k);
      if k == 0 { StagedHalf(e, d.tables, id, snaps); } else { CommitCrashes(e, d.tables, id, snaps, c, stamp, b, k); }
    }
  }

  /** Wherever the checkpoint and the recoveries after it crash, in the end all tables are old, or
      all are new but some behind the first that name no log file. */
  lemma Outcomes(d: Disk, m: Memory, snaps: seq<seq<Copy>>, rotate: bool, newId: nat, stamp: nat, n: nat, tries: seq<Attempt>, last: Attempt)
    requires Ready(d, m, snaps) && newId > m.id && (MustRotate(d.tables) ==> rotate)
    requires n <= |CheckpointWrites(d, m, snaps, rotate, newId, stamp)|
    ensures var gs := Outcome(d, m, snaps, rotate, newId, stamp, n, tries, last).tables;
            gs == d.tables || exists s :: Blend(gs, d.tables, snaps, Target(m, rotate, newId), s)
  {
    var id, ws := Target(m, rotate, newId), CheckpointWrites(d, m, snaps, rotate, newId, stamp);
    CheckpointCrashes(d, m, snaps, rotate, newId, stamp, ws, n);
    var c := After(d, ws, n);
    RecoveriesKeepCrashed(c, d.tables, id, snaps, tries);
    var r := Recoveries(c, tries);
    RecoveryKeepsCrashed(r, d.tables, id, snaps, last, |RecoverWrites(r, last.newId, last.recMax, last.now)|);
  }

  // ---------------------------------------------------------------- exactly when

  /** A changed table behind the first that names no log file is the only one changed. */
  ghost predicate LoneOrNamed(fs: seq<File>, snaps: seq<seq<Copy>>)
    requires |fs| == |snaps|
  {
    forall i, j :: 0 < i < |fs| && 0 <= j < |fs| && i != j && Id(fs[i]) == 0 && Changed(fs[i], snaps[i]) ==> !Changed(fs[j], snaps[j])
  }

  /** No crashes in the checkpoint and in the recoveries after it leave tables of both kinds. */
  ghost predicate CrashProof(d: Disk, m: Memory, snaps: seq<seq<Copy>>, rotate: bool, newId: nat, stamp: nat)
    requires |m.heads| == |snaps| == |d.tables|
  {
    forall n: nat, tries: seq<Attempt>, last: Attempt :: n <= |CheckpointWrites(d, m, snaps, rotate, newId, stamp)| ==>
      Whole(Outcome(d, m, snaps, rotate, newId, stamp, n, tries, last).tables, d.tables, snaps)
  }

  lemma OldWhole(fs: seq<File>, snaps: seq<seq<Copy>>)
    ensures Whole(fs, fs, snaps)
  {
    forall i | 0 <= i < |fs| ensures Alike(fs[i], fs[i]) { AlikeSame(fs[i]); }
  }

  lemma BlendWhole(gs: seq<File>, fs: seq<File>, snaps: seq<seq<Copy>>, id: nat, stamp: nat)
    requires Blend(gs, fs, snaps, id, stamp) && LoneOrNamed(fs, snaps)
    ensures Whole(gs, fs, snaps)
  {
    if k :| 0 <= k < |gs| && gs[k] == fs[k] && k > 0 && Id(fs[k]) == 0 && Changed(fs[k], snaps[k]) {
      forall j | 0 <= j < |gs| ensures Alike(gs[j], fs[j]) {
        AlikeSame(fs[j]);
        if j != k { Unchanged(fs[j], snaps[j], id, stamp); }
      }
    } else {
      forall j | 0 <= j < |gs| ensures Alike(gs[j], NewTable(fs[j], snaps[j], 0, 0)) {
        NewAlike(fs[j], snaps[j], id, stamp);
      }
    }
  }

  /** From ds to gs just the tables from `from` up to i are brought up to date. */
  ghost predicate Ahead(ds: seq<File>, gs: seq<File>, fs: seq<File>, from: nat, i: nat, id: nat, stamp: nat, snaps: seq<seq<Copy>>) {
    && |ds| == |gs| == |fs| == |snaps|
    && forall j {:trigger gs[j]} :: 0 <= j < |fs| ==> gs[j] == if from <= j < i then NewTable(fs[j], snaps[j], id, stamp) else ds[j]
  }

  /** The writes ws bring the tables from table i on up to date. */
  ghost predicate Brings(d: Disk, fs: seq<File>, i: nat, id: nat, stamp: nat, snaps: seq<seq<Copy>>, ws: seq<Write>) {
    SnapsOk(snaps) && AllBetween(fs, d.tables, snaps) && i <= |snaps| && ws == ReplayFrom(d, i, id, stamp, snaps, false)
  }

  /** One table on: the writes a for table i, then those for the tables behind it. */
  lemma BringsNext(d: Disk, fs: seq<File>, i: nat, next: nat, id: nat, stamp: nat, snaps: seq<seq<Copy>>, ws: seq<Write>)
      returns (a: seq<Write>, m: Disk, b: seq<Write>)
    requires Brings(d, fs, i, id, stamp, snaps, ws) && next == i + 1 <= |snaps|
    ensures ws == a + b && m == AfterAll(d, a) && Brings(m, fs, next, id, stamp, snaps, b)
    ensures OnlyTable(d, m, i) && m.tables[i] == NewTable(fs[i], snaps[i], id, stamp)
  {
    a, m, b := ReplayFirst(d, fs, i, id, stamp, snaps, false);
  }

  /** A crash when just the first tables are up to date. */
  ghost predicate Cut(d: Disk, fs: seq<File>, from: nat, i: nat, id: nat, stamp: nat, snaps: seq<seq<Copy>>, ws: seq<Write>, n: nat, g: Disk) {
    && n <= |ws| && g == After(d, ws, n) && g.logs == d.logs && AllBetween(fs, g.tables, snaps)
    && Ahead(d.tables, g.tables, fs, from, i, id, stamp, snaps)
  }

  lemma {:induction false} FirstTables(d: Disk, fs: seq<File>, from: nat, i: nat, id: nat, stamp: nat, snaps: seq<seq<Copy>>, ws: seq<Write>) returns (n: nat, g: Disk)
    requires Brings(d, fs, from, id, stamp, snaps, ws) && from <= i <= |snaps|
    ensures Cut(d, fs, from, i, id, stamp, snaps, ws, n, g)
    decreases i - from
  {
    if from == i {
      n, g := 0, d;
    } else {
      var next := from + 1;
      var a, m, b := BringsNext(d, fs, from, next, id, stamp, snaps, ws);
      var k;
      k, g := FirstTables(m, fs, next, i, id, stamp, snaps, b);
      n := CutOn(d, fs, from, next, i, id, stamp, snaps, a, m, b, k, g);
    }
  }

  lemma CutOn(d: Disk, fs: seq<File>, from: nat, next: nat, i: nat, id: nat, stamp: nat, snaps: seq<seq<Copy>>, a: seq<Write>, m: Disk, b: seq<Write>, k: nat, g: Disk)
      returns (n: nat)
    requires next == from + 1 <= i <= |snaps| && m == AfterAll(d, a) && OnlyTable(d, m, from) && |d.tables| == |snaps| == |fs|
    requires m.tables[from] == NewTable(fs[from], snaps[from], id, stamp) && Cut(m, fs, next, i, id, stamp, snaps, b, k, g)
    ensures Cut(d, fs, from, i, id, stamp, snaps, a + b, n, g)
  {
    n := |a| + k;
    AfterInto(d, a, b, m, n, k);
    AheadOn(d, m, g.tables, fs, from, next, i, id, stamp, snaps);
  }

  lemma AheadOn(d: Disk, m: Disk, gs: seq<File>, fs: seq<File>, from: nat, next: nat, i: nat, id: nat, stamp: nat, snaps: seq<seq<Copy>>)
    requires next == from + 1 <= i <= |snaps| == |fs| == |d.tables| && OnlyTable(d, m, from) && m.tables[from] == NewTable(fs[from], snaps[from], id, stamp)
    requires Ahead(m.tables, gs, fs, next, i, id, stamp, snaps)
    ensures Ahead(d.tables, gs, fs, from, i, id, stamp, snaps)
  {
  }

  /** The files when a commit is cut after the first i tables. */
  lemma CutCommit(e: Disk, id: nat, stamp: nat, snaps: seq<seq<Copy>>, c: KeyPage, i: nat, b: seq<Write>) returns (k: nat, g: Disk)
    requires PreparedIn(e, e, id, snaps, c) && SnapsOk(snaps) && |snaps| == |e.tables| && i <= |snaps|
    requires b == CommitWrites(e, id, c, stamp, snaps, false)
    ensures k <= |b| && g == After(e, b, k) && Prepared(LogOf(g, id), snaps) && AllBetween(e.tables, g.tables, snaps)
    ensures Ahead(e.tables, g.tables, e.tables, 0, i, id, stamp, snaps)
  {
    var r, w := ReplayFrom(e, 0, id, stamp, snaps, false), ToLog(id, 0, Keys(Closed(c, stamp)));
    SameBetween(e.tables, snaps);
    k, g := FirstTables(e, e.tables, 0, i, id, stamp, snaps, r);
    AfterPrefix(e, r, [w], k);
  }

  /** The files when a checkpoint is cut there. */
  lemma CutCheckpoint(d: Disk, m: Memory, snaps: seq<seq<Copy>>, rotate: bool, newId: nat, stamp: nat, i: nat) returns (n: nat, g: Disk)
    requires Ready(d, m, snaps) && newId > m.id && (MustRotate(d.tables) ==> rotate) && i <= |snaps|
    ensures n <= |CheckpointWrites(d, m, snaps, rotate, newId, stamp)| && g == After(d, CheckpointWrites(d, m, snaps, rotate, newId, stamp), n)
    ensures Prepared(LogOf(g, Target(m, rotate, newId)), snaps) && AllBetween(d.tables, g.tables, snaps)
    ensures Ahead(d.tables, g.tables, d.tables, 0, i, Target(m, rotate, newId), stamp, snaps)
  {
    var a, e, b, c := CheckpointParts(d, m, snaps, rotate, newId, stamp);
    var k;
    k, g := CutCommit(e, Target(m, rotate, newId), stamp, snaps, c, i, b);
    n := |a| + k;
    AfterInto(d, a, b, e, n, k);
  }

  lemma BelowTarget(d: Disk, m: Memory, snaps: seq<seq<Copy>>, rotate: bool, newId: nat, i: nat)
    requires Ready(d, m, snaps) && newId > m.id && (MustRotate(d.tables) ==> rotate) && i < |d.tables| && Id(d.tables[i]) == 0
    ensures MaxId(d.tables) < Target(m, rotate, newId)
  {
  }

  lemma PartMax(gs: seq<File>, fs: seq<File>, i: nat, id: nat, stamp: nat, snaps: seq<seq<Copy>>)
    requires |gs| == |fs| == |snaps| && 0 < i < |fs| && MaxId(fs) < id
    requires Ahead(fs, gs, fs, 0, i, id, stamp, snaps)
    ensures MaxId(gs) == id && forall j {:trigger gs[j]} :: 0 <= j < i ==> Id(gs[j]) == id
  {
    forall j | 0 <= j < |gs| ensures Id(gs[j]) <= id && (j < i ==> Id(gs[j]) == id) { NewId(fs[j], snaps[j], id, stamp); }
    assert Id(gs[0]) == id;
    MaxIs(gs, id);
  }

  /** Table i is old; the tables before it, and those that name a log file, are new. */
  ghost predicate Behind(gs: seq<File>, fs: seq<File>, i: nat, id: nat, s: nat, snaps: seq<seq<Copy>>) {
    && i < |gs| == |fs| == |snaps| && gs[i] == fs[i]
    && forall j {:trigger gs[j]} :: 0 <= j < |fs| && (j < i || Id(fs[j]) != 0) ==> gs[j] == NewTable(fs[j], snaps[j], id, s)
  }

  lemma Redone(g: Disk, fs: seq<File>, i: nat, id: nat, stamp: nat, snaps: seq<seq<Copy>>, last: Attempt)
    requires AllBetween(fs, g.tables, snaps) && SnapsOk(snaps) && 0 < i < |fs| && id != 0 && MaxId(g.tables) == id && Prepared(LogOf(g, id), snaps)
    requires forall j {:trigger g.tables[j]} :: 0 <= j < |fs| ==> if j < i then Id(g.tables[j]) == id else g.tables[j] == fs[j]
    requires Id(fs[i]) == 0
    ensures Behind(Recover(g, last).tables, fs, i, id, Stamp(id, last.now), snaps)
  {
    var k, s := KeyOf(LogOf(g, id)), Stamp(id, last.now);
    var a, w := ReplayFrom(g, 0, id, s, snaps, true), ToLog(id, 0, Keys(Closed(k, s)));
    ReplayAll(g, fs, 0, id, s, snaps, true, a);
    AfterBoth(g, a, [w]);
    AfterOne(AfterAll(g, a), w);
    forall j {:trigger g.tables[j]} | 0 <= j < |fs| && (j < i || Id(fs[j]) != 0) ensures !Skipped(g.tables[j], true) { }
  }

  /** A crash there, and the recovery, leave table i old and make the tables before it new, and
      those that name a log file. */
  lemma LeftBehind(g: Disk, fs: seq<File>, i: nat, id: nat, stamp: nat, snaps: seq<seq<Copy>>, last: Attempt)
    requires AllBetween(fs, g.tables, snaps) && SnapsOk(snaps) && 0 < i < |fs| && MaxId(fs) < id && Prepared(LogOf(g, id), snaps)
    requires Ahead(fs, g.tables, fs, 0, i, id, stamp, snaps) && Id(fs[i]) == 0
    ensures Behind(Recover(g, last).tables, fs, i, id, Stamp(id, last.now), snaps)
  {
    PartMax(g.tables, fs, i, id, stamp, snaps);
    Redone(g, fs, i, id, stamp, snaps, last);
  }

  lemma BehindTorn(gs: seq<File>, fs: seq<File>, i: nat, j: nat, id: nat, s: nat, snaps: seq<seq<Copy>>)
    requires Behind(gs, fs, i, id, s, snaps) && j < |fs| && (j < i || Id(fs[j]) != 0)
    requires Changed(fs[i], snaps[i]) && Changed(fs[j], snaps[j])
    ensures !Whole(gs, fs, snaps)
  {
    assert gs[j] == NewTable(fs[j], snaps[j], id, s);
    if AllOld(gs, fs) {
      NewAlike(fs[j], snaps[j], id, s);
      AlikeTwice(fs[j], gs[j], NewTable(fs[j], snaps[j], 0, 0));
    }
    assert !Alike(gs[i], NewTable(fs[i], snaps[i], 0, 0));
  }

  /** If a changed table behind the first names no log file and another table is changed too, some
      crash leaves one of them new and the other old. */
  lemma Tears(d: Disk, m: Memory, snaps: seq<seq<Copy>>, rotate: bool, newId: nat, stamp: nat, i: nat, j: nat)
      returns (n: nat, last: Attempt)
    requires Ready(d, m, snaps) && newId > m.id && (MustRotate(d.tables) ==> rotate)
    requires 0 < i < |d.tables| && Id(d.tables[i]) == 0 && j < |d.tables| && (j < i || Id(d.tables[j]) != 0)
    requires Changed(d.tables[i], snaps[i]) && Changed(d.tables[j], snaps[j])
    ensures n <= |CheckpointWrites(d, m, snaps, rotate, newId, stamp)|
    ensures !Whole(Outcome(d, m, snaps, rotate, newId, stamp, n, [], last).tables, d.tables, snaps)
  {
    var id, g := Target(m, rotate, newId), d;
    last := Attempt(0, 0, 0, 0);
    BelowTarget(d, m, snaps, rotate, newId, i);
    n, g := CutCheckpoint(d, m, snaps, rotate, newId, stamp, i);
    LeftBehind(g, d.tables, i, id, stamp, snaps, last);
    BehindTorn(Recover(g, last).tables, d.tables, i, j, id, Stamp(id, last.now), snaps);
    assert Recoveries(g, []) == g;
  }

  /** Whichever of two changed tables names no log file. */
  lemma TwoTear(d: Disk, m: Memory, snaps: seq<seq<Copy>>, rotate: bool, newId: nat, stamp: nat, i: nat, j: nat)
      returns (n: nat, last: Attempt)
    requires Ready(d, m, snaps) && newId > m.id && (MustRotate(d.tables) ==> rotate)
    requires 0 < i < |d.tables| && j < |d.tables| && i != j && Id(d.tables[i]) == 0
    requires Changed(d.tables[i], snaps[i]) && Changed(d.tables[j], snaps[j])
    ensures n <= |CheckpointWrites(d, m, snaps, rotate, newId, stamp)|
    ensures !Whole(Outcome(d, m, snaps, rotate, newId, stamp, n, [], last).tables, d.tables, snaps)
  {
    if j < i || Id(d.tables[j]) != 0 {
      n, last := Tears(d, m, snaps, rotate, newId, stamp, i, j);
    } else {
      n, last := Tears(d, m, snaps, rotate, newId, stamp, j, i);
    }
  }

  lemma NewPageChanges(snap: seq<Copy>)
    requires |snap| == 1 && snap[0].index == 0
    ensures Changed(map[], snap)
  {
    assert 0 in NewTable(map[], snap, 0, 0) && !AlikeAt(map[], NewTable(map[], snap, 0, 0), 0);
  }

  lemma TwoFresh(d: Disk, m: Memory, snaps: seq<seq<Copy>>, newId: nat, stamp: nat)
    requires d.tables == [map[], map[]] && Ready(d, m, snaps) && newId > m.id
    requires forall i :: 0 <= i < 2 ==> |snaps[i]| == 1 && snaps[i][0].index == 0
    ensures !CrashProof(d, m, snaps, false, newId, stamp)
  {
    assert Id(d.tables[0]) == 0 && Id(d.tables[1]) == 0;
    NewPageChanges(snaps[0]);
    NewPageChanges(snaps[1]);
    var n, last := Tears(d, m, snaps, false, newId, stamp, 1, 0);
  }

  /** The first checkpoint of two new tables, a page each, is not crash proof. */
  lemma FirstCheckpointTears(d0: Disk, p: DbPage, q: DbPage)
    requires d0.tables == [map[], map[]]
    ensures var d, m, snaps := AfterAll(d0, InitWrites(1, 2, 8)), Begin(1, 2, 8), [[Copy(0, p)], [Copy(0, q)]];
            |d.tables| == |snaps| && Ready(d, m, snaps) && !CrashProof(d, m, snaps, false, 2, 3)
  {
    var m, snaps := Begin(1, 2, 8), [[Copy(0, p)], [Copy(0, q)]];
    InitDone(d0, 1, 2, 8);
    TwoFresh(AfterAll(d0, InitWrites(1, 2, 8)), m, snaps, 2, 3);
  }

  /** A checkpoint is crash proof exactly when a changed table behind the first that names no log
      file is the only one changed. */
  lemma ExactlyWhen(d: Disk, m: Memory, snaps: seq<seq<Copy>>, rotate: bool, newId: nat, stamp: nat)
    requires Ready(d, m, snaps) && newId > m.id && (MustRotate(d.tables) ==> rotate)
    ensures CrashProof(d, m, snaps, rotate, newId, stamp) <==> LoneOrNamed(d.tables, snaps)
  {
    var fs := d.tables;
    if LoneOrNamed(fs, snaps) {
      forall n: nat, tries: seq<Attempt>, last: Attempt | n <= |CheckpointWrites(d, m, snaps, rotate, newId, stamp)|
        ensures Whole(Outcome(d, m, snaps, rotate, newId, stamp, n, tries, last).tables, fs, snaps)
      {
        Outcomes(d, m, snaps, rotate, newId, stamp, n, tries, last);
        var gs := Outcome(d, m, snaps, rotate, newId, stamp, n, tries, last).tables;
        if gs == fs {
          OldWhole(fs, snaps);
        } else {
          var s :| Blend(gs, fs, snaps, Target(m, rotate, newId), s);
          BlendWhole(gs, fs, snaps, Target(m, rotate, newId), s);
        }
      }
    } else {
      var i, j :| 0 < i < |fs| && 0 <= j < |fs| && i != j && Id(fs[i]) == 0 && Changed(fs[i], snaps[i]) && Changed(fs[j], snaps[j]);
      var n, last := TwoTear(d, m, snaps, rotate, newId, stamp, i, j);
    }
  }
}

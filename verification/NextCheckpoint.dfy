/** What a checkpoint leaves behind is what the next one starts from. */
module NextCheckpoint {
  import opened LogFiles
  import opened CrashSafety

  // ---------------------------------------------------------------- the pages of the tables in the log file

  /** The pages of the tables from table i on say where their snapshots went, the first at page `at`. */
  ghost predicate Headed(log: Log, heads: seq<Head>, r: nat, at: nat, i: nat, snaps: seq<seq<Copy>>)
    requires i <= |snaps| == |heads|
  {
    forall j :: i <= j < |snaps| ==> HeadAt(log, j, SavedHead(heads[j], r, Start(at, i, j, snaps), |snaps[j]|))
  }

  lemma {:induction false} SaveHeads(d: Disk, id: nat, at: nat, r: nat, i: nat, heads: seq<Head>, snaps: seq<seq<Copy>>)
    requires i <= |snaps| == |heads| && |snaps| < at
    ensures Headed(LogOf(AfterAll(d, SaveFrom(id, at, r, i, heads, snaps)), id), heads, r, at, i, snaps)
    decreases |snaps| - i
  {
    if i < |snaps| {
      var a := SaveWrites(id, at, r, i, heads[i], snaps[i]);
      var m := AfterAll(d, a);
      var at1 := at + |snaps[i]|;
      SaveOne(d, id, at, r, i, |snaps|, heads[i], snaps[i]);
      SaveAll(m, id, at1, r, i + 1, heads, snaps);
      SaveHeads(m, id, at1, r, i + 1, heads, snaps);
      var b := SaveFrom(id, at1, r, i + 1, heads, snaps);
      AfterBoth(d, a, b);
      HeadedOn(m, AfterAll(m, b), id, heads, r, at, at1, i, snaps);
    }
  }

  lemma HeadedOn(m: Disk, e: Disk, id: nat, heads: seq<Head>, r: nat, at: nat, at1: nat, i: nat, snaps: seq<seq<Copy>>)
    requires i < |snaps| == |heads| && |snaps| < at && at1 == at + |snaps[i]|
    requires HeadAt(LogOf(m, id), i, SavedHead(heads[i], r, at, |snaps[i]|))
    requires OnlyLog(m, e, id, i + 1, |snaps|, at1) && Headed(LogOf(e, id), heads, r, at1, i + 1, snaps)
    ensures Headed(LogOf(e, id), heads, r, at, i, snaps)
  {
    var x := i + 1;
    assert x in LogOf(e, id) <==> x in LogOf(m, id);
    forall j | i <= j < |snaps| ensures HeadAt(LogOf(e, id), j, SavedHead(heads[j], r, Start(at, i, j, snaps), |snaps[j]|)) { }
  }

  lemma HeadsSavedIn(log: Log, heads: seq<Head>, r: nat, at: nat, snaps: seq<seq<Copy>>)
    requires |heads| == |snaps| && Headed(log, heads, r, at, 0, snaps)
    ensures HeadsIn(log, SavedHeads(heads, r, at, snaps))
  {
    var hs := SavedHeads(heads, r, at, snaps);
    forall i | 0 <= i < |hs| ensures HeadAt(log, i, hs[i]) {
      assert HeadAt(log, i, SavedHead(heads[i], r, Start(at, 0, i, snaps), |snaps[i]|));
    }
  }

  /** Prepare leaves the pages of the tables as the logger remembers them. */
  lemma PreparedHeads(d: Disk, m: Memory, snaps: seq<seq<Copy>>)
    requires |snaps| == |m.heads| && GoodKey(m.key, |snaps|)
    ensures HeadsIn(LogOf(AfterAll(d, PrepareWrites(m.id, m.key, m.heads, snaps)), m.id), SavedHeads(m.heads, m.key.recCur, m.key.pageLast, snaps))
  {
    var c := Complete(Begun(m.key), m.key.pageLast + Total(snaps, 0));
    var d1, d2 := PrepareSteps(d, m, snaps, c);
    SaveHeads(d1, m.id, m.key.pageLast, m.key.recCur, 0, m.heads, snaps);
    HeadsSavedIn(LogOf(d2, m.id), m.heads, m.key.recCur, m.key.pageLast, snaps);
    PageZero(LogOf(d2, m.id), Keys(c), SavedHeads(m.heads, m.key.recCur, m.key.pageLast, snaps));
  }

  lemma PageZero(log: Log, p: LogPage, heads: seq<Head>)
    requires HeadsIn(log, heads)
    ensures HeadsIn(log[0 := p], heads)
  {
    forall i | 0 <= i < |heads| ensures HeadAt(log[0 := p], i, heads[i]) {
      assert HeadAt(log, i, heads[i]);
    }
  }

  lemma StagedHeads(d: Disk, m: Memory, snaps: seq<seq<Copy>>, rotate: bool, newId: nat)
    requires Ready(d, m, snaps)
    ensures var o := Opened(m, rotate, newId);
            HeadsIn(LogOf(AfterAll(d, StagingWrites(m, snaps, rotate, newId)), o.id), SavedHeads(o.heads, o.key.recCur, o.key.pageLast, snaps))
  {
    var o := Opened(m, rotate, newId);
    OpenDone(d, m, rotate, newId);
    PreparedHeads(AfterAll(d, OpenWrites(m, rotate, newId)), o, snaps);
    AfterBoth(d, OpenWrites(m, rotate, newId), PrepareWrites(o.id, o.key, o.heads, snaps));
  }

  // ---------------------------------------------------------------- after a checkpoint

  /** What is so when a checkpoint is through: the tables are new, all name one log file, and the
      logger is at rest. */
  ghost predicate Through(e: Disk, m: Memory, fs: seq<File>, snaps: seq<seq<Copy>>, stamp: nat) {
    && AtRest(e, m) && AtNew(e.tables, fs, snaps, m.id, stamp)
    && forall i :: 0 <= i < |e.tables| ==> Id(e.tables[i]) == m.id
  }

  lemma CommitThrough(d: Disk, fs: seq<File>, id: nat, snaps: seq<seq<Copy>>, c: KeyPage, stamp: nat, heads: seq<Head>, recMax: nat)
    requires PreparedIn(d, d, id, snaps, c) && d.tables == fs && SnapsOk(snaps) && |fs| == |snaps| == |heads| > 0 && id != 0
    requires HeadsIn(LogOf(d, id), heads)
    ensures Through(AfterAll(d, CommitWrites(d, id, c, stamp, snaps, false)), Memory(id, Closed(c, stamp), heads, recMax), fs, snaps, stamp)
  {
    var a, w := ReplayFrom(d, 0, id, stamp, snaps, false), ToLog(id, 0, Keys(Closed(c, stamp)));
    SameBetween(fs, snaps);
    ReplayAll(d, fs, 0, id, stamp, snaps, false, a);
    AfterBoth(d, a, [w]);
    AfterOne(AfterAll(d, a), w);
    ClosesThrough(d, AfterAll(d, a), fs, id, snaps, c, stamp, heads, recMax, w);
  }

  lemma ClosesThrough(d: Disk, m: Disk, fs: seq<File>, id: nat, snaps: seq<seq<Copy>>, c: KeyPage, stamp: nat, heads: seq<Head>, recMax: nat, w: Write)
    requires m.logs == d.logs && AtNew(m.tables, fs, snaps, id, stamp) && |fs| == |snaps| == |heads| > 0 && id != 0
    requires GoodKey(c, |fs|) && HeadsIn(LogOf(d, id), heads) && w == ToLog(id, 0, Keys(Closed(c, stamp)))
    ensures Through(Apply(m, w), Memory(id, Closed(c, stamp), heads, recMax), fs, snaps, stamp)
  {
    var e := Apply(m, w);
    forall i | 0 <= i < |e.tables| ensures Id(e.tables[i]) == id { NewId(fs[i], snaps[i], id, stamp); }
    assert Id(e.tables[0]) == id;
    MaxIs(e.tables, id);
    ClosedOpens(c, |fs|, stamp);
    PageZero(LogOf(d, id), Keys(Closed(c, stamp)), heads);
    assert HeadsIn(LogOf(e, id), heads);
  }

  /** A checkpoint that gets through leaves the logger at rest, for the next one. */
  lemma CheckpointRests(d: Disk, m: Memory, snaps: seq<seq<Copy>>, rotate: bool, newId: nat, stamp: nat)
    requires Ready(d, m, snaps) && newId != 0
    ensures Through(AfterAll(d, CheckpointWrites(d, m, snaps, rotate, newId, stamp)), NextMemory(m, snaps, rotate, newId, stamp), d.tables, snaps, stamp)
  {
    var a := StagingWrites(m, snaps, rotate, newId);
    var e, o, c := AfterAll(d, a), Opened(m, rotate, newId), Staged(m, snaps, rotate, newId);
    StagingDone(d, m, snaps, rotate, newId);
    StagedHeads(d, m, snaps, rotate, newId);
    CommitThrough(e, d.tables, o.id, snaps, c, stamp, SavedHeads(o.heads, o.key.recCur, o.key.pageLast, snaps), m.recMax);
    AfterBoth(d, a, CommitWrites(e, o.id, c, stamp, snaps, false));
  }
}

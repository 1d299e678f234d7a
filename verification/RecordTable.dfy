/** The record table of a log file has room for a fixed number of checkpoints.  No page written by
    a checkpoint or a recovery, cut short or not, has a record behind it. */
module RecordTable {
  import opened LogFiles

  ghost predicate RecordsFit(k: KeyPage) {
    k.recCur <= k.recMax && forall r :: r in k.head ==> r < k.recMax
  }

  /** The records of every log file are in its record table. */
  ghost predicate Roomy(d: Disk) {
    forall id: nat :: RecordsFit(KeyOf(LogOf(d, id)))
  }

  ghost predicate WriteFits(w: Write) {
    w.ToLog? && w.at == 0 && w.log.Keys? ==> RecordsFit(w.log.key)
  }

  ghost predicate WritesFit(ws: seq<Write>) {
    forall i :: 0 <= i < |ws| ==> WriteFits(ws[i])
  }

  lemma {:induction false} StaysRoomy(d: Disk, ws: seq<Write>, n: nat)
    requires Roomy(d) && n <= |ws| && WritesFit(ws)
    ensures Roomy(After(d, ws, n))
    decreases n
  {
    if n > 0 {
      StaysRoomy(d, ws, n - 1);
      OneFits(After(d, ws, n - 1), ws[n - 1]);
    }
  }

  lemma OneFits(d: Disk, w: Write)
    requires Roomy(d) && WriteFits(w)
    ensures Roomy(Apply(d, w))
  {
    forall id: nat ensures RecordsFit(KeyOf(LogOf(Apply(d, w), id))) {
      assert RecordsFit(KeyOf(LogOf(d, id)));
    }
  }

  /** With room for one more record it can be begun, prepared and closed. */
  lemma RecordFits(k: KeyPage, last: nat, stamp: nat)
    requires RecordsFit(k) && k.recCur < k.recMax
    ensures RecordsFit(Begun(k)) && RecordsFit(Complete(k, last)) && RecordsFit(Closed(k, stamp)) && RecordsFit(Aborted(k))
  {
  }

  lemma {:induction false} SavesFit(id: nat, at: nat, r: nat, i: nat, heads: seq<Head>, snaps: seq<seq<Copy>>)
    requires i <= |snaps| == |heads|
    ensures WritesFit(SaveFrom(id, at, r, i, heads, snaps))
    decreases |snaps| - i
  {
    if i < |snaps| { SavesFit(id, at + |snaps[i]|, r, i + 1, heads, snaps); }
  }

  lemma BothFit(a: seq<Write>, b: seq<Write>)
    requires WritesFit(a) && WritesFit(b)
    ensures WritesFit(a + b)
  {
  }

  lemma ReplayFits(f: File, i: nat, id: nat, stamp: nat, snap: seq<Copy>)
    ensures WritesFit(ReplayWrites(f, i, id, stamp, snap))
  {
  }

  lemma {:induction false} ReplaysFit(d: Disk, i: nat, id: nat, stamp: nat, snaps: seq<seq<Copy>>, redo: bool)
    requires i <= |snaps| == |d.tables|
    ensures WritesFit(ReplayFrom(d, i, id, stamp, snaps, redo))
    decreases |snaps| - i
  {
    if i < |snaps| {
      if redo && Id(d.tables[i]) == 0 {
        ReplaysFit(d, i + 1, id, stamp, snaps, redo);
      } else {
        var ws := ReplayWrites(d.tables[i], i, id, stamp, snaps[i]);
        SameTables(d, ws, |ws|);
        var e := AfterAll(d, ws);
        ReplayFits(d.tables[i], i, id, stamp, snaps[i]);
        ReplaysFit(e, i + 1, id, stamp, snaps, redo);
        BothFit(ws, ReplayFrom(e, i + 1, id, stamp, snaps, redo));
      }
    }
  }

  lemma CommitFits(d: Disk, id: nat, k: KeyPage, stamp: nat, snaps: seq<seq<Copy>>, redo: bool)
    requires |snaps| == |d.tables| && RecordsFit(k) && k.recCur < k.recMax
    ensures WritesFit(CommitWrites(d, id, k, stamp, snaps, redo))
  {
    ReplaysFit(d, 0, id, stamp, snaps, redo);
    RecordFits(k, 0, stamp);
  }

  /** A recovery gives up or closes the record at hand only when there is one. */
  lemma RecoverFits(d: Disk, newId: nat, recMax: nat, now: nat)
    requires Roomy(d)
    ensures WritesFit(RecoverWrites(d, newId, recMax, now))
  {
    var id := MaxId(d.tables);
    var k := KeyOf(LogOf(d, id));
    assert RecordsFit(k);
    var h := Item(k.head, k.recCur);
    if id != 0 && h.result == LCR_PREPARED {
      CommitFits(d, id, k, Stamp(id, now), AllSaved(LogOf(d, id), |d.tables|, k.recCur), true);
    } else if id != 0 && h.first != 0 {
      RecordFits(k, 0, 0);
    }
  }

  /** A checkpoint has room when it begins a new log file or the record table is not full. */
  ghost predicate HasRoom(m: Memory, rotate: bool) {
    if rotate then m.recMax > 0 else m.key.recCur < m.key.recMax
  }

  lemma StagingFits(m: Memory, snaps: seq<seq<Copy>>, rotate: bool, newId: nat)
    requires |m.heads| == |snaps| && RecordsFit(m.key) && HasRoom(m, rotate)
    ensures WritesFit(StagingWrites(m, snaps, rotate, newId))
    ensures var k := Staged(m, snaps, rotate, newId); RecordsFit(k) && k.recCur < k.recMax
  {
    var o := Opened(m, rotate, newId);
    RecordFits(o.key, 0, 0);
    RecordFits(Begun(o.key), o.key.pageLast + Total(snaps, 0), 0);
    SavesFit(o.id, o.key.pageLast, o.key.recCur, 0, o.heads, snaps);
  }

  lemma CheckpointFits(d: Disk, m: Memory, snaps: seq<seq<Copy>>, rotate: bool, newId: nat, stamp: nat)
    requires |m.heads| == |snaps| == |d.tables| && RecordsFit(m.key) && HasRoom(m, rotate)
    ensures WritesFit(CheckpointWrites(d, m, snaps, rotate, newId, stamp))
  {
    var a := StagingWrites(m, snaps, rotate, newId);
    SameTables(d, a, |a|);
    StagingFits(m, snaps, rotate, newId);
    CommitFits(AfterAll(d, a), Target(m, rotate, newId), Staged(m, snaps, rotate, newId), stamp, snaps, false);
  }
}

/** The logger that checkpoints several table files together.

    Each method is proved to make exactly the page writes that module LogFiles lists for it, in
    that order, and to stop at the first write that fails.  A crash is a failing write. */
module CheckpointLogger {
  import opened LogFiles
  import opened CrashSafety
  import opened NextCheckpoint
  import opened RecordTable

  datatype State = Clean | PreparedState | Redo | Corrupt

  /** The files, and how many more page writes will succeed. */
  class Storage {
    var disk: Disk
    var budget: nat

    constructor (disk: Disk, budget: nat)
      ensures this.disk == disk && this.budget == budget
    {
      this.disk, this.budget := disk, budget;
    }

    /** A new run of the program. */
    method Restart(budget: nat)
      modifies this`budget
      ensures this.budget == budget
    {
      this.budget := budget;
    }

    method WriteLog(id: nat, at: nat, page: LogPage) returns (ok: bool)
      modifies this
      ensures Did(old(disk), old(budget), [ToLog(id, at, page)], disk, budget, ok)
    {
      ok := Put(ToLog(id, at, page));
    }

    method WriteTable(i: nat, at: nat, page: DbPage) returns (ok: bool)
      modifies this
      ensures Did(old(disk), old(budget), [ToTable(i, at, page)], disk, budget, ok)
    {
      ok := Put(ToTable(i, at, page));
    }

    method Put(w: Write) returns (ok: bool)
      modifies this
      ensures Did(old(disk), old(budget), [w], disk, budget, ok)
    {
      ok := budget > 0;
      AfterOne(disk, w);
      if ok {
        disk := Apply(disk, w);
        budget := budget - 1;
      }
    }
  }

  /** The writes ws were made, or those the budget allowed. */
  ghost predicate Did(d: Disk, b: nat, ws: seq<Write>, e: Disk, c: nat, ok: bool) {
    if |ws| <= b then ok && c == b - |ws| && e == AfterAll(d, ws)
    else !ok && c == 0 && e == After(d, ws, b)
  }

  /** First ws, then vs. */
  lemma DidThen(d: Disk, b: nat, ws: seq<Write>, m: Disk, k: nat, vs: seq<Write>, e: Disk, c: nat, ok: bool)
    requires Did(d, b, ws, m, k, true) && Did(m, k, vs, e, c, ok)
    ensures Did(d, b, ws + vs, e, c, ok)
  {
    if |vs| <= k { AfterBoth(d, ws, vs); } else { AfterCat(d, ws, vs, k); }
  }

  /** A failure in ws is a failure in ws + vs. */
  lemma DidFail(d: Disk, b: nat, ws: seq<Write>, vs: seq<Write>, e: Disk, c: nat)
    requires Did(d, b, ws, e, c, false)
    ensures Did(d, b, ws + vs, e, c, false)
  {
    AfterPrefix(d, ws, vs, b);
  }

  /** One more step of a longer job: after pre came a, and rest is still to do. */
  lemma DidNext(d: Disk, b: nat, pre: seq<Write>, m: Disk, k: nat, a: seq<Write>, rest: seq<Write>, e: Disk, c: nat, ok: bool)
    requires Did(d, b, pre, m, k, true) && Did(m, k, a, e, c, ok)
    ensures pre + (a + rest) == (pre + a) + rest
    ensures Did(d, b, if ok then pre + a else pre + (a + rest), e, c, ok)
  {
    DidThen(d, b, pre, m, k, a, e, c, ok);
    assert pre + (a + rest) == (pre + a) + rest;
    if !ok { DidFail(d, b, pre + a, rest, e, c); }
  }

  /** The job ws is what was done and what is still to do. */
  ghost predicate Splits(ws: seq<Write>, pre: seq<Write>, todo: seq<Write>) {
    ws == pre + todo
  }

  lemma SplitsEnds(ws: seq<Write>)
    ensures Splits(ws, [], ws) && Splits(ws, ws, []) && ws + [] == ws
  {
  }

  lemma DidNothing(d: Disk, b: nat)
    ensures Did(d, b, [], d, b, true)
  {
  }

  /** The logger's memory agrees with log file id. */
  ghost predicate Remembers(log: Log, key: KeyPage, heads: seq<Head>) {
    0 in log && log[0] == Keys(key) && HeadsIn(log, heads)
  }

  /** The log file holds the snapshot a header speaks of. */
  ghost predicate Known(log: Log, h: LogHdr, snap: seq<Copy>) {
    h.last == h.first + |snap| && Copies(log, h.first, snap, |snap|)
  }

  ghost predicate AllKnown(log: Log, heads: seq<Head>, r: nat, snaps: seq<seq<Copy>>) {
    |heads| == |snaps| && forall i {:trigger snaps[i]} :: 0 <= i < |snaps| ==> Known(log, Item(heads[i], r), snaps[i])
  }

  class GlobalLogger {
    const files: Storage
    const recMax: nat          // checkpoints a log file has room for
    const rotatePages: nat
    var id: nat                // the open log file, 0 when there is none
    var timeStamp: nat
    var key: KeyPage           // page 0 of the open log file
    var heads: seq<Head>       // the pages of the tables in it
    var ids: seq<nat>          // the log file ids in the cached magic pages
    var needRotate: bool

    constructor (files: Storage, recMax: nat, rotatePages: nat, now: nat)
      ensures this.files == files && this.recMax == recMax && this.rotatePages == rotatePages
      ensures id == 0 && timeStamp == now && !needRotate
      ensures |ids| == |files.disk.tables| && forall i :: 0 <= i < |ids| ==> ids[i] == Id(files.disk.tables[i])
    {
      this.files, this.recMax, this.rotatePages := files, recMax, rotatePages;
      id, timeStamp, key, heads, needRotate := 0, now, FreshKey(0, 0), [], false;
      ids := seq(|files.disk.tables|, i requires 0 <= i < |files.disk.tables| reads files => Id(files.disk.tables[i]));
    }

    /** Begins a new log file. */
    method InitLogFile(now: nat) returns (ok: bool)
      modifies this`id, this`timeStamp, this`key, this`heads, files
      ensures id == Stamp(old(timeStamp), now) == timeStamp
      ensures Did(old(files.disk), old(files.budget),
                  (if old(id) != 0 then [ToLog(old(id), 0, Keys(old(key).(chain := id)))] else []) + InitWrites(id, |ids|, recMax),
                  files.disk, files.budget, ok)
      ensures ok ==> key == FreshKey(|ids|, recMax) && heads == seq(|ids|, i => map[])
    {
      ghost var d, b := files.disk, files.budget;
      var newId := if timeStamp >= now then timeStamp + 1 else now;
      ghost var ws := InitWrites(newId, |ids|, recMax);
      ghost var pre: seq<Write> := if id != 0 then [ToLog(id, 0, Keys(key.(chain := newId)))] else [];
      timeStamp := newId;
      DidNothing(d, b);
      ok := true;
      if id != 0 {
        ok := files.WriteLog(id, 0, Keys(key.(chain := newId)));
      }
      id := newId;
      if !ok {
        DidFail(d, b, pre, ws, files.disk, files.budget);
        return;
      }
      ghost var m, c := files.disk, files.budget;
      ok := FillLogFile(newId);
      DidThen(d, b, pre, m, c, ws, files.disk, files.budget, ok);
    }

    method FillLogFile(newId: nat) returns (ok: bool)
      modifies this`key, this`heads, files
      ensures Did(old(files.disk), old(files.budget), InitWrites(newId, |ids|, recMax), files.disk, files.budget, ok)
      ensures ok ==> key == FreshKey(|ids|, recMax) && heads == seq(|ids|, i => map[])
    {
      ghost var d, b := files.disk, files.budget;
      ghost var ws := InitWrites(newId, |ids|, recMax);
      heads := [];
      var i := 0;
      while i < |ids|
        invariant 0 <= i <= |ids| && |heads| == i && heads == seq(i, j => map[])
        invariant Did(d, b, ws[..i], files.disk, files.budget, true)
      {
        ghost var m, c := files.disk, files.budget;
        ok := files.WriteLog(newId, i + 1, TableKeys(map[]));
        assert ws[i] == ToLog(newId, i + 1, TableKeys(map[]));
        DidThen(d, b, ws[..i], m, c, [ws[i]], files.disk, files.budget, ok);
        assert ws[..i] + [ws[i]] == ws[..i+1];
        if !ok {
          DidFail(d, b, ws[..i+1], ws[i+1..], files.disk, files.budget);
          assert ws[..i+1] + ws[i+1..] == ws;
          return;
        }
        heads := heads + [map[]];
        i := i + 1;
      }
      ghost var m, c := files.disk, files.budget;
      key := FreshKey(|ids|, recMax);
      ok := files.WriteLog(newId, 0, Keys(key));
      assert ws == ws[..i] + [ToLog(newId, 0, Keys(key))];
      DidThen(d, b, ws[..i], m, c, [ToLog(newId, 0, Keys(key))], files.disk, files.budget, ok);
    }

    ghost function Memory(): Memory
      reads this
    {
      LogFiles.Memory(id, key, heads, recMax)
    }

    /** Between checkpoints the logger is at rest, its clock is not behind its log file, and a
        table that names no log file among others that do will get it a new one. */
    ghost predicate Valid()
      reads this, files
    {
      && |ids| == |files.disk.tables| && id <= timeStamp && AtRest(files.disk, Memory())
      && (MustRotate(files.disk.tables) ==> Full())
    }

    /** Is it time for a new log file? */
    predicate Full()
      reads this
    {
      needRotate || key.recCur >= key.recMax || key.pageLast > rotatePages
    }

    /** One table's snapshot within a run of saves that has made the writes pre and has todo before it. */
    method SaveNext(i: nat, page: nat, ghost from: nat, snaps: seq<seq<Copy>>, ghost hs: seq<Head>,
                    ghost d: Disk, ghost b: nat, ghost pre: seq<Write>, ghost todo: seq<Write>)
      returns (ok: bool, page': nat, ghost pre': seq<Write>, ghost todo': seq<Write>)
      requires i < |heads| == |hs| && HeadsSaved(hs, heads, key.recCur, from, snaps, i)
      requires page == Start(from, 0, i, snaps) && todo == SaveFrom(id, page, key.recCur, i, hs, snaps)
      requires Did(d, b, pre, files.disk, files.budget, true)
      modifies this`heads, files
      ensures |heads| == |hs| && pre' + todo' == pre + todo
      ensures Did(d, b, if ok then pre' else pre + todo, files.disk, files.budget, ok)
      ensures ok ==> HeadsSaved(hs, heads, key.recCur, from, snaps, i + 1)
      ensures page' == page + |snaps[i]| == Start(from, 0, i + 1, snaps)
      ensures todo' == SaveFrom(id, page', key.recCur, i + 1, hs, snaps)
    {
      ghost var m, c, before := files.disk, files.budget, heads;
      page' := page + |snaps[i]|;
      ghost var a, rest := SaveWrites(id, page, key.recCur, i, hs[i], snaps[i]), SaveFrom(id, page', key.recCur, i + 1, hs, snaps);
      HeadSaved(hs, before, before[i := SavedHead(before[i], key.recCur, page, |snaps[i]|)], key.recCur, from, page, snaps, i);
      ok := SaveTable(i, snaps[i], page);
      DidNext(d, b, pre, m, c, a, rest, files.disk, files.budget, ok);
      pre', todo' := pre + a, rest;
    }

    /** Saves the snapshots in the log file, each followed by the page that says where it is. */
    method SaveTables(snaps: seq<seq<Copy>>, from: nat) returns (ok: bool, page: nat)
      requires |snaps| == |heads|
      modifies this`heads, files
      ensures Did(old(files.disk), old(files.budget), SaveFrom(id, from, key.recCur, 0, old(heads), snaps), files.disk, files.budget, ok)
      ensures |heads| == |old(heads)|
      ensures ok ==> page == from + Total(snaps, 0) && HeadsSaved(old(heads), heads, key.recCur, from, snaps, |snaps|)
    {
      ghost var d, b, hs := files.disk, files.budget, heads;
      ghost var pre, todo := [], SaveFrom(id, from, key.recCur, 0, hs, snaps);
      ghost var ws := todo;
      page := from;
      ok := true;
      var i := 0;
      assert pre + todo == ws;
      while i < |heads|
        invariant 0 <= i <= |heads| == |hs| && HeadsSaved(hs, heads, key.recCur, from, snaps, i)
        invariant page == Start(from, 0, i, snaps) && page + Total(snaps, i) == from + Total(snaps, 0)
        invariant todo == SaveFrom(id, page, key.recCur, i, hs, snaps) && ws == pre + todo
        invariant Did(d, b, pre, files.disk, files.budget, true)
      {
        ok, page, pre, todo := SaveNext(i, page, from, snaps, hs, d, b, pre, todo);
        if !ok { return; }
        i := i + 1;
      }
      assert pre + [] == pre;
    }

    method SaveTable(i: nat, snap: seq<Copy>, from: nat) returns (ok: bool)
      requires i < |heads|
      modifies this`heads, files
      ensures Did(old(files.disk), old(files.budget), SaveWrites(id, from, key.recCur, i, old(heads)[i], snap), files.disk, files.budget, ok)
      ensures heads == old(heads)[i := SavedHead(old(heads)[i], key.recCur, from, |snap|)] || (!ok && heads == old(heads))
    {
      ghost var d, b := files.disk, files.budget;
      ghost var h := SavedHead(heads[i], key.recCur, from, |snap|);
      ghost var ws := SaveWrites(id, from, key.recCur, i, heads[i], snap);
      var k := 0;
      while k < |snap|
        invariant heads == old(heads)
        invariant 0 <= k <= |snap| && Did(d, b, ws[..k], files.disk, files.budget, true)
      {
        ghost var m, c := files.disk, files.budget;
        ok := files.WriteLog(id, from + k, Logged(snap[k]));
        assert ws[k] == ToLog(id, from + k, Logged(snap[k]));
        DidThen(d, b, ws[..k], m, c, [ws[k]], files.disk, files.budget, ok);
        assert ws[..k] + [ws[k]] == ws[..k+1];
        if !ok {
          DidFail(d, b, ws[..k+1], ws[k+1..], files.disk, files.budget);
          assert ws[..k+1] + ws[k+1..] == ws;
          return;
        }
        k := k + 1;
      }
      var head: Head := heads[i];
      head := head[key.recCur := Item(head, key.recCur).(first := from, last := from + |snap|)];
      heads := heads[i := head];
      ghost var m, c := files.disk, files.budget;
      ok := files.WriteLog(id, i + 1, TableKeys(heads[i]));
      assert ws == ws[..k] + [ToLog(id, i + 1, TableKeys(h))];
      DidThen(d, b, ws[..k], m, c, [ToLog(id, i + 1, TableKeys(h))], files.disk, files.budget, ok);
    }

    /** Logs a checkpoint of all tables; the record counts from its last write on. */
    method PrepareLog(snaps: seq<seq<Copy>>) returns (ok: bool)
      requires |snaps| == |heads|
      modifies this`key, this`heads, files
      ensures Did(old(files.disk), old(files.budget), PrepareWrites(id, old(key), old(heads), snaps), files.disk, files.budget, ok)
      ensures |heads| == |old(heads)|
      ensures ok ==> key == Complete(Begun(old(key)), old(key).pageLast + Total(snaps, 0))
      ensures ok ==> heads == SavedHeads(old(heads), old(key).recCur, old(key).pageLast, snaps)
    {
      ghost var d, b, k := files.disk, files.budget, key;
      ghost var saves := SaveFrom(id, k.pageLast, k.recCur, 0, heads, snaps);
      ghost var first := [ToLog(id, 0, Keys(Begun(k)))];
      ghost var last := [ToLog(id, 0, Keys(Complete(Begun(k), k.pageLast + Total(snaps, 0))))];
      var page := key.pageLast;
      key := key.(head := key.head[key.recCur := Item(key.head, key.recCur).(first := page)]);
      ok := files.WriteLog(id, 0, Keys(key));
      if !ok {
        DidFail(d, b, first, saves + last, files.disk, files.budget);
        assert first + (saves + last) == first + saves + last;
        return;
      }
      ghost var m, c := files.disk, files.budget;
      ok, page := SaveTables(snaps, page);
      DidThen(d, b, first, m, c, saves, files.disk, files.budget, ok);
      if !ok {
        DidFail(d, b, first + saves, last, files.disk, files.budget);
        return;
      }
      key := key.(head := key.head[key.recCur := Item(key.head, key.recCur).(last := page, result := LCR_PREPARED)], pageLast := page);
      m, c := files.disk, files.budget;
      ok := files.WriteLog(id, 0, Keys(key));
      DidThen(d, b, first + saves, m, c, last, files.disk, files.budget, ok);
    }

    /** The log file in hand is the one staged, and so are its pages in memory. */
    ghost predicate HasStaged(m: Memory, snaps: seq<seq<Copy>>, rotate: bool, newId: nat)
      requires |snaps| == |m.heads|
      reads this
    {
      var o := Opened(m, rotate, newId);
      id == o.id && key == Staged(m, snaps, rotate, newId) && heads == SavedHeads(o.heads, o.key.recCur, o.key.pageLast, snaps)
    }

    /** A new log file if it is time for one: there is room for a record then. */
    method CheckRotate(now: nat) returns (ok: bool)
      requires id != 0 && |heads| == |ids|
      modifies this`id, this`timeStamp, this`key, this`heads, files
      ensures if !needRotate && old(key).recCur < old(key).recMax && old(key).pageLast <= rotatePages then id == old(id) else id > old(timeStamp)
      ensures ok && recMax > 0 ==> key.recCur < key.recMax
      ensures timeStamp == if old(Full()) then Stamp(old(timeStamp), now) else old(timeStamp)
      ensures var m, rotate, newId := old(Memory()), old(Full()), Stamp(old(timeStamp), now);
              && Did(old(files.disk), old(files.budget), OpenWrites(m, rotate, newId), files.disk, files.budget, ok)
              && (ok ==> Memory() == Opened(m, rotate, newId))
    {
      ghost var m := Memory();
      DidNothing(files.disk, files.budget);
      ok := true;
      if Full() {
        ok := InitLogFile(now);
        if ok { assert Memory() == Rotated(m, id); }
      }
    }

    method Prepare(snaps: seq<seq<Copy>>, now: nat) returns (state: State)
      requires id != 0 && |snaps| == |heads| == |ids|
      modifies this`id, this`timeStamp, this`key, this`heads, files
      ensures if !needRotate && old(key).recCur < old(key).recMax && old(key).pageLast <= rotatePages then id == old(id) else id > old(timeStamp)
      ensures state == PreparedState && recMax > 0 ==> key.recCur < key.recMax
      ensures timeStamp == if old(Full()) then Stamp(old(timeStamp), now) else old(timeStamp)
      ensures var m, rotate, newId := old(Memory()), old(Full()), Stamp(old(timeStamp), now);
              && Did(old(files.disk), old(files.budget), StagingWrites(m, snaps, rotate, newId), files.disk, files.budget, state == PreparedState)
              && (state == PreparedState ==> HasStaged(m, snaps, rotate, newId))
      ensures state == PreparedState || state == Corrupt
    {
      ghost var d, b, m, rotate, newId := files.disk, files.budget, Memory(), Full(), Stamp(timeStamp, now);
      ghost var o := Opened(m, rotate, newId);
      ghost var pre, logged := OpenWrites(m, rotate, newId), PrepareWrites(o.id, o.key, o.heads, snaps);
      assert StagingWrites(m, snaps, rotate, newId) == pre + logged;
      var ok := CheckRotate(now);
      if !ok {
        DidFail(d, b, pre, logged, files.disk, files.budget);
        return Corrupt;
      }
      ghost var e, c := files.disk, files.budget;
      ok := PrepareLog(snaps);
      DidThen(d, b, pre, e, c, logged, files.disk, files.budget, ok);
      state := if ok then PreparedState else Corrupt;
    }

    /** Copies the saved pages [first, end) of the log file to table i. */
    method RestorePages(i: nat, first: nat, end: nat, ghost snap: seq<Copy>) returns (ok: bool)
      requires first <= end == first + |snap| && Copies(LogOf(files.disk, id), first, snap, |snap|)
      modifies files
      ensures Did(old(files.disk), old(files.budget), Copied(i, snap), files.disk, files.budget, ok)
    {
      ghost var d, b, ws := files.disk, files.budget, Copied(i, snap);
      var at := first;
      ok := true;
      ghost var k := 0;
      while at < end
        invariant first <= at <= end && k == at - first && Did(d, b, ws[..k], files.disk, files.budget, true)
        invariant LogOf(files.disk, id) == LogOf(d, id)
      {
        ghost var m, c := files.disk, files.budget;
        assert at in LogOf(d, id);
        var copy := LogOf(files.disk, id)[at].copy;
        ok := files.WriteTable(i, copy.index, copy.page);
        AfterOne(m, ToTable(i, copy.index, copy.page));
        assert ws[k] == ToTable(i, copy.index, copy.page);
        DidThen(d, b, ws[..k], m, c, [ws[k]], files.disk, files.budget, ok);
        assert ws[..k] + [ws[k]] == ws[..k+1];
        if !ok {
          DidFail(d, b, ws[..k+1], ws[k+1..], files.disk, files.budget);
          assert ws[..k+1] + ws[k+1..] == ws;
          return;
        }
        at := at + 1;
        k := k + 1;
      }
      assert ws[..k] == ws;
    }

    /** Brings table i to the checkpoint of the current record. */
    method CommitTable(i: nat, stamp: nat, ghost snap: seq<Copy>) returns (ok: bool)
      requires i < |heads| == |files.disk.tables| == |ids|
      requires Known(LogOf(files.disk, id), Item(heads[i], key.recCur), snap)
      modifies files, this`ids
      ensures Did(old(files.disk), old(files.budget), ReplayWrites(old(files.disk).tables[i], i, id, stamp, snap), files.disk, files.budget, ok)
      ensures ids == old(ids)[i := id] || (!ok && ids == old(ids))
    {
      ghost var d, b := files.disk, files.budget;
      var it, end := Item(heads[i], key.recCur).first, Item(heads[i], key.recCur).last;
      var layout := Page0(files.disk.tables[i]);
      layout := layout.(id := id);
      ids := ids[i := id];
      if it < end {
        ghost var n := |snap| - 1;
        ghost var first, rest, last := [ToTable(i, 0, layout)], Copied(i, snap[..n]), [ToTable(i, 0, snap[n].page.(id := id, check := stamp))];
        assert ReplayWrites(d.tables[i], i, id, stamp, snap) == first + rest + last;
        ok := files.WriteTable(i, 0, layout);
        AfterOne(d, first[0]);
        if !ok {
          DidFail(d, b, first, rest + last, files.disk, files.budget);
          assert first + (rest + last) == first + rest + last;
          return;
        }
        ghost var m, c := files.disk, files.budget;
        FrontCopies(LogOf(m, id), it, snap, n);
        ok := RestorePages(i, it, end - 1, snap[..n]);
        DidThen(d, b, first, m, c, rest, files.disk, files.budget, ok);
        if !ok {
          DidFail(d, b, first + rest, last, files.disk, files.budget);
          return;
        }
        CopiedLogs(m, i, snap[..n], n);
        assert LogOf(files.disk, id) == LogOf(d, id);
        m, c := files.disk, files.budget;
        ghost var x := end - 1;
        assert x in LogOf(d, id);
        layout := LogOf(files.disk, id)[end - 1].copy.page.(id := id, check := stamp);
        ok := files.WriteTable(i, 0, layout);
        DidThen(d, b, first + rest, m, c, last, files.disk, files.budget, ok);
      } else {
        ok := files.WriteTable(i, 0, layout.(check := stamp));
      }
    }

    /** Where the snapshots of the current record are in the open log file is in memory. */
    ghost predicate Holding(d: Disk, snaps: seq<seq<Copy>>)
      reads this
    {
      |heads| == |snaps| == |d.tables| == |ids| && AllKnown(LogOf(d, id), heads, key.recCur, snaps)
    }

    /** Which tables the cache knows to have no log file. */
    ghost predicate IdsFit(d: Disk, from: nat)
      reads this
    {
      |ids| == |d.tables| && forall j :: from <= j < |ids| ==> (ids[j] == 0 <==> Id(d.tables[j]) == 0)
    }

    /** One table's turn in a commit or redo. */
    method CommitOne(i: nat, stamp: nat, redo: bool, ghost snaps: seq<seq<Copy>>) returns (ok: bool)
      requires i < |heads| == |snaps| == |files.disk.tables| == |ids| && (redo ==> IdsFit(files.disk, i))
      requires Known(LogOf(files.disk, id), Item(heads[i], key.recCur), snaps[i])
      modifies files, this`ids
      ensures Did(old(files.disk), old(files.budget), TurnWrites(old(files.disk), i, id, stamp, snaps, redo), files.disk, files.budget, ok)
      ensures ok ==> files.disk.logs == old(files.disk).logs && |files.disk.tables| == |ids| && (redo ==> IdsFit(files.disk, i + 1))
      ensures |ids| == |old(ids)|
    {
      ghost var d, b := files.disk, files.budget;
      DidNothing(d, b);
      ok := true;
      if !redo || ids[i] != 0 {
        ReplayedLogs(d, i, id, stamp, snaps[i], |ReplayWrites(d.tables[i], i, id, stamp, snaps[i])|);
        ok := CommitTable(i, stamp, snaps[i]);
      }
    }

    /** Part way through a commit or redo with the writes ws: pre is done, todo brings the tables
        from table i on up to date. */
    ghost predicate Committing(i: nat, stamp: nat, redo: bool, snaps: seq<seq<Copy>>, d: Disk, b: nat, ws: seq<Write>, pre: seq<Write>, todo: seq<Write>)
      reads this, files
    {
      && i <= |heads| && Holding(files.disk, snaps) && (redo ==> IdsFit(files.disk, i))
      && todo == ReplayFrom(files.disk, i, id, stamp, snaps, redo) && Splits(ws, pre, todo)
      && Did(d, b, pre, files.disk, files.budget, true)
    }

    /** One table's turn. */
    method CommitNext(i: nat, stamp: nat, redo: bool, ghost snaps: seq<seq<Copy>>, ghost d: Disk, ghost b: nat, ghost ws: seq<Write>, ghost pre: seq<Write>, ghost todo: seq<Write>)
      returns (ok: bool, ghost pre': seq<Write>, ghost todo': seq<Write>)
      requires i < |heads| && Committing(i, stamp, redo, snaps, d, b, ws, pre, todo)
      modifies files, this`ids
      ensures |ids| == |old(ids)|
      ensures if ok then Committing(i + 1, stamp, redo, snaps, d, b, ws, pre', todo') else Did(d, b, ws, files.disk, files.budget, false)
    {
      ghost var m, c := files.disk, files.budget;
      ghost var a, rest := TurnSplits(m, i, id, stamp, snaps, redo);
      assert snaps[i] == snaps[i];
      ok := CommitOne(i, stamp, redo, snaps);
      DidNext(d, b, pre, m, c, a, rest, files.disk, files.budget, ok);
      pre', todo' := pre + a, rest;
      assert LogOf(files.disk, id) == LogOf(m, id) || !ok;
    }

    lemma Begins(stamp: nat, redo: bool, snaps: seq<seq<Copy>>, ws: seq<Write>)
      requires Holding(files.disk, snaps) && (redo ==> IdsFit(files.disk, 0)) && ws == ReplayFrom(files.disk, 0, id, stamp, snaps, redo)
      ensures Committing(0, stamp, redo, snaps, files.disk, files.budget, ws, [], ws)
    {
      DidNothing(files.disk, files.budget);
      SplitsEnds(ws);
    }

    lemma Ends(i: nat, stamp: nat, redo: bool, snaps: seq<seq<Copy>>, d: Disk, b: nat, ws: seq<Write>, pre: seq<Write>, todo: seq<Write>)
      requires i == |heads| && Committing(i, stamp, redo, snaps, d, b, ws, pre, todo)
      ensures Did(d, b, ws, files.disk, files.budget, true)
    {
      SplitsEnds(pre);
    }

    method CommitTables(stamp: nat, redo: bool, ghost snaps: seq<seq<Copy>>) returns (ok: bool)
      requires Holding(files.disk, snaps) && (redo ==> IdsFit(files.disk, 0))
      modifies files, this`ids
      ensures |ids| == |old(ids)|
      ensures Did(old(files.disk), old(files.budget), ReplayFrom(old(files.disk), 0, id, stamp, snaps, redo), files.disk, files.budget, ok)
    {
      ghost var d, b := files.disk, files.budget;
      ghost var ws := ReplayFrom(d, 0, id, stamp, snaps, redo);
      ghost var pre, todo := [], ws;
      Begins(stamp, redo, snaps, ws);
      ok := true;
      var i := 0;
      while i < |heads|
        invariant 0 <= i <= |heads| && |ids| == |old(ids)|
        invariant var committing := Committing(i, stamp, redo, snaps, d, b, ws, pre, todo); committing
      {
        ok, pre, todo := CommitNext(i, stamp, redo, snaps, d, b, ws, pre, todo);
        if !ok { return; }
        i := i + 1;
      }
      Ends(i, stamp, redo, snaps, d, b, ws, pre, todo);
    }

    /** Brings the tables to the checkpoint of the current record, and closes the record. */
    method CommitLog(now: nat, redo: bool, ghost snaps: seq<seq<Copy>>) returns (ok: bool)
      requires Holding(files.disk, snaps) && (redo ==> IdsFit(files.disk, 0))
      modifies files, this`ids, this`key, this`timeStamp
      ensures timeStamp == Stamp(old(timeStamp), now)
      ensures Did(old(files.disk), old(files.budget), CommitWrites(old(files.disk), id, old(key), timeStamp, snaps, redo), files.disk, files.budget, ok)
      ensures |ids| == |old(ids)| && (ok ==> key == Closed(old(key), timeStamp))
    {
      ghost var d, b := files.disk, files.budget;
      timeStamp := if now <= timeStamp then timeStamp + 1 else now;
      ghost var ws, last := ReplayFrom(d, 0, id, timeStamp, snaps, redo), [ToLog(id, 0, Keys(Closed(key, timeStamp)))];
      ok := CommitTables(timeStamp, redo, snaps);
      if !ok {
        DidFail(d, b, ws, last, files.disk, files.budget);
        return;
      }
      ghost var m, c := files.disk, files.budget;
      key := key.(head := key.head[key.recCur := Item(key.head, key.recCur).(result := LCR_COMMIT, stamp := timeStamp)]);
      key := key.(recCur := key.recCur + 1);
      ok := files.WriteLog(id, 0, Keys(key));
      DidThen(d, b, ws, m, c, last, files.disk, files.budget, ok);
    }

    method Commit(now: nat, ghost snaps: seq<seq<Copy>>) returns (state: State)
      requires Holding(files.disk, snaps)
      modifies files, this`ids, this`key, this`timeStamp
      ensures state == Clean || state == Corrupt
      ensures Did(old(files.disk), old(files.budget), CommitWrites(old(files.disk), id, old(key), timeStamp, snaps, false), files.disk, files.budget, state == Clean)
      ensures |ids| == |old(ids)| && (state == Clean ==> key == Closed(old(key), timeStamp))
      ensures timeStamp == Stamp(old(timeStamp), now)
    {
      var ok := CommitLog(now, false, snaps);
      state := if ok then Clean else Corrupt;
    }

    method RedoLog(now: nat, ghost snaps: seq<seq<Copy>>) returns (state: State)
      requires Prepared(LogOf(files.disk, id), snaps) && Remembers(LogOf(files.disk, id), key, heads)
      requires |heads| == |snaps| && IdsFit(files.disk, 0) && |ids| == |heads|
      modifies files, this`ids, this`key, this`timeStamp
      ensures state == Clean || state == Corrupt
      ensures Did(old(files.disk), old(files.budget), CommitWrites(old(files.disk), id, old(key), timeStamp, snaps, true), files.disk, files.budget, state == Clean)
      ensures |ids| == |old(ids)| && (state == Clean ==> key == Closed(old(key), timeStamp))
      ensures timeStamp == Stamp(old(timeStamp), now)
    {
      KnownLoaded(LogOf(files.disk, id), heads, key, snaps);
      var ok := CommitLog(now, true, snaps);
      state := if ok then Clean else Corrupt;
    }

    /** The newest log file id a table names. */
    method NewestId() returns (m: nat)
      requires |ids| == |files.disk.tables| && forall i :: 0 <= i < |ids| ==> ids[i] == Id(files.disk.tables[i])
      ensures m == MaxId(files.disk.tables)
    {
      m := 0;
      var i := 0;
      while i < |ids|
        invariant 0 <= i <= |ids| && m == MaxId(files.disk.tables[..i])
      {
        MaxGrows(files.disk.tables, i);
        if ids[i] > m { m := ids[i]; }
        i := i + 1;
      }
      assert files.disk.tables[..i] == files.disk.tables;
    }

    /** Tables that name an older log file go with the newest; one that names none calls for a
        new log file. */
    method AdoptIds(m: nat)
      requires m != 0 && IdsFit(files.disk, 0)
      modifies this`ids, this`needRotate
      ensures IdsFit(files.disk, 0) && (forall i :: 0 <= i < |ids| ==> ids[i] == 0 || ids[i] >= m)
      ensures needRotate <==> old(needRotate) || exists i :: 0 <= i < |ids| && ids[i] == 0
    {
      var i := 0;
      while i < |ids|
        invariant 0 <= i <= |ids| && IdsFit(files.disk, 0) && (forall j :: 0 <= j < i ==> ids[j] == 0 || ids[j] >= m)
        invariant needRotate <==> old(needRotate) || exists j :: 0 <= j < i && ids[j] == 0
      {
        if ids[i] == 0 {
          needRotate := true;
        } else if ids[i] < m {
          ids := ids[i := m];
        }
        i := i + 1;
      }
    }

    /** Reads the header and the pages of the tables from log file m; false when a page belongs
        to no table. */
    method LoadLogFile(m: nat) returns (ok: bool)
      requires LogOk(LogOf(files.disk, m), |files.disk.tables|) && |ids| == |files.disk.tables|
      modifies this`id, this`timeStamp, this`key, this`heads
      ensures ok && id == m == timeStamp && key == KeyOf(LogOf(files.disk, m)) && |heads| == |ids|
      ensures Remembers(LogOf(files.disk, m), key, heads)
    {
      var log := LogOf(files.disk, m);
      id, timeStamp := m, m;
      key := log[0].key;
      heads := [];
      ok := true;
      var page := 1;
      while page < key.pageFirst
        invariant id == m == timeStamp && key == log[0].key
        invariant 1 <= page <= key.pageFirst == |ids| + 1 && |heads| == page - 1 && ok
        invariant HeadsIn(log, heads)
      {
        if page - 1 < |ids| {
          heads := heads + [log[page].head];
        } else {
          ok := false;
        }
        page := page + 1;
      }
    }

    /** Gives up a record that was begun but not prepared. */
    method AbortRecord() returns (ok: bool)
      modifies this`key, files
      ensures Did(old(files.disk), old(files.budget), [ToLog(id, 0, Keys(Aborted(old(key))))], files.disk, files.budget, ok)
      ensures key == Aborted(old(key))
    {
      key := key.(head := key.head[key.recCur := Item(key.head, key.recCur).(result := LCR_ABORT)]);
      key := key.(recCur := key.recCur + 1);
      ok := files.WriteLog(id, 0, Keys(key));
    }

    /** The tables as they were found, and the log file they name. */
    ghost predicate Found()
      reads this, files
    {
      && id == 0 && |ids| == |files.disk.tables| > 0 && (forall i :: 0 <= i < |ids| ==> ids[i] == Id(files.disk.tables[i]))
      && var m := MaxId(files.disk.tables); m != 0 ==> LogOk(LogOf(files.disk, m), |ids|) && Unfinished(KeyOf(LogOf(files.disk, m)))
    }

    /** No table names a log file: the first one is begun. */
    method BeginFirst(now: nat) returns (state: State)
      requires Found() && MaxId(files.disk.tables) == 0
      modifies this`id, this`timeStamp, this`key, this`heads, files
      ensures Did(old(files.disk), old(files.budget), InitWrites(Stamp(old(timeStamp), now), |old(files.disk).tables|, recMax),
                  files.disk, files.budget, state == Clean)
      ensures state == Clean || state == Corrupt
      ensures state == Clean ==> Valid() && Item(key.head, key.recCur).first == 0
    {
      ghost var d := files.disk;
      var ok := InitLogFile(now);
      assert [] + InitWrites(id, |ids|, recMax) == InitWrites(id, |ids|, recMax);
      InitDone(d, id, |ids|, recMax);
      if ok { assert Memory() == Begin(id, |ids|, recMax); }
      state := if ok then Clean else Corrupt;
    }

    /** A record begun but not prepared is given up. */
    method EndLast() returns (state: State)
      requires |ids| == |files.disk.tables| == |heads| > 0 && 0 != id == timeStamp && id == MaxId(files.disk.tables)
      requires Remembers(LogOf(files.disk, id), key, heads) && GoodKey(key, |ids|) && Open(key)
      requires MustRotate(files.disk.tables) ==> needRotate
      modifies this`key, files
      ensures Did(old(files.disk), old(files.budget), if Item(old(key).head, old(key).recCur).first != 0 then [ToLog(id, 0, Keys(Aborted(old(key))))] else [],
                  files.disk, files.budget, state == Clean)
      ensures state == Clean || state == Corrupt
      ensures state == Clean ==> Valid() && Item(key.head, key.recCur).first == 0
      ensures Item(old(key).head, old(key).recCur).first != 0 ==> Item(key.head, old(key).recCur).result == LCR_ABORT
    {
      ghost var d := files.disk;
      state := Clean;
      if Item(key.head, key.recCur).first != 0 {
        ClosedOpens(key, |ids|, 0);
        PageZero(LogOf(d, id), Keys(Aborted(key)), heads);
        AfterOne(d, ToLog(id, 0, Keys(Aborted(key))));
        var ok := AbortRecord();
        state := if ok then Clean else Corrupt;
      }
    }

    /** Looks at what the last run left.  A record begun but not prepared is given up; a prepared
        one is to be redone. */
    method IntegrityVerify(now: nat) returns (state: State)
      requires Found()
      modifies this, files
      ensures state == Redo <==> ToRedo(old(files.disk))
      ensures state == Redo ==> files.disk == old(files.disk) && files.budget == old(files.budget)
      ensures state == Redo ==> var m := MaxId(files.disk.tables);
                && id == m == timeStamp && key == KeyOf(LogOf(files.disk, m)) && IdsFit(files.disk, 0)
                && |heads| == |ids| && Remembers(LogOf(files.disk, m), key, heads)
      ensures state != Redo ==> Did(old(files.disk), old(files.budget), RecoverWrites(old(files.disk), Stamp(old(timeStamp), now), recMax, now),
                                    files.disk, files.budget, state == Clean)
      ensures state == Clean || state == Redo || state == Corrupt
      ensures state == Clean ==> Valid() && Item(key.head, key.recCur).first == 0
      ensures var k := KeyOf(LogOf(old(files.disk), MaxId(old(files.disk).tables)));
              state == Clean && MaxId(old(files.disk).tables) != 0 && Item(k.head, k.recCur).first != 0 ==> Item(key.head, k.recCur).result == LCR_ABORT
      ensures needRotate <==> old(needRotate) || MustRotate(old(files.disk).tables)
    {
      var m := NewestId();
      if m == 0 {
        state := BeginFirst(now);
        return;
      }
      AdoptIds(m);
      var ok := LoadLogFile(m);
      if Item(key.head, key.recCur).result == LCR_PREPARED { return Redo; }
      state := EndLast();
    }

    /** Prepare, then commit. */
    method PrepareAndCommit(snaps: seq<seq<Copy>>, now: nat, later: nat, ghost stamp: nat) returns (ok: bool)
      requires Ready(files.disk, Memory(), snaps) && |heads| == |ids| && id <= timeStamp
      requires stamp == Stamp(if Full() then Stamp(timeStamp, now) else timeStamp, later)
      modifies this, files
      ensures var m, rotate, newId := old(Memory()), old(Full()), Stamp(old(timeStamp), now);
              && Did(old(files.disk), old(files.budget), CheckpointWrites(old(files.disk), m, snaps, rotate, newId, stamp), files.disk, files.budget, ok)
              && (ok ==> Memory() == NextMemory(m, snaps, rotate, newId, stamp) && |ids| == |old(ids)| && id <= timeStamp)
      ensures needRotate == old(needRotate) && (ok && recMax > 0 ==> key.recCur <= key.recMax)
    {
      ghost var d, b, m, rotate, newId := files.disk, files.budget, Memory(), Full(), Stamp(timeStamp, now);
      ghost var a, e, w := Stages(d, m, snaps, rotate, newId, stamp);
      var state := Prepare(snaps, now);
      ghost var c := files.budget;
      if state != PreparedState {
        DidFail(d, b, a, w, files.disk, c);
        return false;
      }
      assert files.disk == e;
      ghost var o := Opened(m, rotate, newId);
      SavedAt(o.heads, heads, o.key.pageLast, key, snaps);
      KnownAll(LogOf(e, id), heads, key, snaps);
      state := Commit(later, snaps);
      DidThen(d, b, a, e, c, w, files.disk, files.budget, state == Clean);
      ok := state == Clean;
    }

    /** A checkpoint that gets through leaves the logger valid for the next one; cut short
        anywhere, it leaves the files safe. */
    method Checkpoint(snaps: seq<seq<Copy>>, now: nat, later: nat) returns (ok: bool, ghost target: nat, ghost stamp: nat)
      requires Valid() && |snaps| == |heads| && SnapsOk(snaps)
      modifies this, files
      ensures var m, rotate, newId := old(Memory()), old(Full()), Stamp(old(timeStamp), now);
              && stamp == Stamp(if rotate then newId else old(timeStamp), later) && target == Target(m, rotate, newId)
              && Did(old(files.disk), old(files.budget), CheckpointWrites(old(files.disk), m, snaps, rotate, newId, stamp), files.disk, files.budget, ok)
              && (ok ==> Memory() == NextMemory(m, snaps, rotate, newId, stamp))
      ensures Adopted(old(files.disk).tables) ==> Safe(files.disk, old(files.disk).tables, target, snaps)
      ensures ok ==> Valid() && AtNew(files.disk.tables, old(files.disk).tables, snaps, target, stamp) && Adopted(files.disk.tables)
      ensures target == old(id) <==> !old(needRotate) && old(key).recCur < old(key).recMax && old(key).pageLast <= rotatePages
      ensures needRotate == old(needRotate) && (ok ==> id == target && (recMax > 0 ==> key.recCur <= key.recMax))
      ensures recMax > 0 && Roomy(old(files.disk)) ==> Roomy(files.disk)
    {
      ghost var d, b, m, rotate, newId := files.disk, files.budget, Memory(), Full(), Stamp(timeStamp, now);
      stamp := Stamp(if rotate then newId else timeStamp, later);
      target := Target(m, rotate, newId);
      ok := PrepareAndCommit(snaps, now, later, stamp);
      CheckpointEnds(d, b, m, snaps, rotate, newId, stamp, files.disk, files.budget, ok);
      CheckpointRoomy(d, b, m, snaps, rotate, newId, stamp, files.disk, files.budget, ok);
    }
  }

  lemma MaxGrows(fs: seq<File>, i: nat)
    requires i < |fs|
    ensures MaxId(fs[..i + 1]) == if Id(fs[i]) > MaxId(fs[..i]) then Id(fs[i]) else MaxId(fs[..i])
  {
    assert fs[..i + 1][..i] == fs[..i];
  }

  /** However far a checkpoint got, the files are safe; all the way, and the logger is at rest. */
  lemma CheckpointEnds(d: Disk, b: nat, m: Memory, snaps: seq<seq<Copy>>, rotate: bool, newId: nat, stamp: nat, e: Disk, c: nat, ok: bool)
    requires Ready(d, m, snaps) && newId > m.id && (MustRotate(d.tables) ==> rotate)
    requires Did(d, b, CheckpointWrites(d, m, snaps, rotate, newId, stamp), e, c, ok)
    ensures Adopted(d.tables) ==> Safe(e, d.tables, Target(m, rotate, newId), snaps)
    ensures ok ==> AtRest(e, NextMemory(m, snaps, rotate, newId, stamp)) && Adopted(e.tables) && !MustRotate(e.tables)
    ensures ok ==> AtNew(e.tables, d.tables, snaps, Target(m, rotate, newId), stamp)
  {
    if Adopted(d.tables) {
      var ws := CheckpointWrites(d, m, snaps, rotate, newId, stamp);
      CheckpointSafe(d, m, snaps, rotate, newId, stamp, ws, if |ws| <= b then |ws| else b);
    }
    if ok { CheckpointRests(d, m, snaps, rotate, newId, stamp); }
  }

  lemma CheckpointRoomy(d: Disk, b: nat, m: Memory, snaps: seq<seq<Copy>>, rotate: bool, newId: nat, stamp: nat, e: Disk, c: nat, ok: bool)
    requires Ready(d, m, snaps) && (!rotate ==> m.key.recCur < m.key.recMax)
    requires Did(d, b, CheckpointWrites(d, m, snaps, rotate, newId, stamp), e, c, ok)
    ensures m.recMax > 0 && Roomy(d) ==> Roomy(e)
  {
    if m.recMax > 0 && Roomy(d) {
      assert RecordsFit(KeyOf(LogOf(d, m.id)));
      CheckpointFits(d, m, snaps, rotate, newId, stamp);
      DidFit(d, b, CheckpointWrites(d, m, snaps, rotate, newId, stamp), e, c, ok);
    }
  }

  lemma DidFit(d: Disk, b: nat, ws: seq<Write>, e: Disk, c: nat, ok: bool)
    requires Roomy(d) && WritesFit(ws) && Did(d, b, ws, e, c, ok)
    ensures Roomy(e)
  {
    StaysRoomy(d, ws, if |ws| <= b then |ws| else b);
  }

  lemma RecoveryRoomy(d: Disk, b: nat, newId: nat, recMax: nat, now: nat, e: Disk, c: nat, ok: bool)
    requires Did(d, b, RecoverWrites(d, newId, recMax, now), e, c, ok)
    ensures Roomy(d) ==> Roomy(e)
  {
    if Roomy(d) {
      RecoverFits(d, newId, recMax, now);
      DidFit(d, b, RecoverWrites(d, newId, recMax, now), e, c, ok);
    }
  }

  lemma Stages(d: Disk, m: Memory, snaps: seq<seq<Copy>>, rotate: bool, newId: nat, stamp: nat)
      returns (a: seq<Write>, e: Disk, w: seq<Write>)
    requires Ready(d, m, snaps)
    ensures a == StagingWrites(m, snaps, rotate, newId) && e == AfterAll(d, a) && |e.tables| == |snaps|
    ensures w == CommitWrites(e, Target(m, rotate, newId), Staged(m, snaps, rotate, newId), stamp, snaps, false)
    ensures CheckpointWrites(d, m, snaps, rotate, newId, stamp) == a + w
    ensures Prepared(LogOf(e, Target(m, rotate, newId)), snaps) && KeyOf(LogOf(e, Target(m, rotate, newId))) == Staged(m, snaps, rotate, newId)
  {
    a := StagingWrites(m, snaps, rotate, newId);
    e := AfterAll(d, a);
    StagingDone(d, m, snaps, rotate, newId);
    w := CommitWrites(e, Target(m, rotate, newId), Staged(m, snaps, rotate, newId), stamp, snaps, false);
  }

  /** The current record of a log file is yet to be closed. */
  ghost predicate Unfinished(k: KeyPage) {
    Open(k) || Item(k.head, k.recCur).result == LCR_PREPARED
  }

  /** The newest log file ends with a prepared record. */
  predicate ToRedo(d: Disk) {
    var id := MaxId(d.tables);
    var k := KeyOf(LogOf(d, id));
    id != 0 && Item(k.head, k.recCur).result == LCR_PREPARED
  }

  /** The tables' head pages say where the snapshots of the current record are. */
  ghost predicate HeadsAt(heads: seq<Head>, key: KeyPage, snaps: seq<seq<Copy>>) {
    && |heads| == |snaps|
    && forall i {:trigger heads[i]} :: 0 <= i < |heads| ==>
         var at := Start(Item(key.head, key.recCur).first, 0, i, snaps);
         Item(heads[i], key.recCur).first == at && Item(heads[i], key.recCur).last == at + |snaps[i]|
  }

  lemma SavedAt(hs: seq<Head>, heads: seq<Head>, from: nat, key: KeyPage, snaps: seq<seq<Copy>>)
    requires |hs| == |snaps| && heads == SavedHeads(hs, key.recCur, from, snaps) && Item(key.head, key.recCur).first == from
    ensures HeadsAt(heads, key, snaps)
  {
  }

  lemma KnownAll(log: Log, heads: seq<Head>, key: KeyPage, snaps: seq<seq<Copy>>)
    requires Prepared(log, snaps) && KeyOf(log) == key && HeadsAt(heads, key, snaps)
    ensures AllKnown(log, heads, key.recCur, snaps)
  {
    forall i {:trigger snaps[i]} | 0 <= i < |snaps| ensures Known(log, Item(heads[i], key.recCur), snaps[i]) {
      assert Keeps(log, i, key.recCur, snaps[i], Start(Item(key.head, key.recCur).first, 0, i, snaps));
      assert heads[i] == heads[i];
    }
  }

  lemma KnownLoaded(log: Log, heads: seq<Head>, key: KeyPage, snaps: seq<seq<Copy>>)
    requires Prepared(log, snaps) && Remembers(log, key, heads) && |heads| == |snaps|
    ensures AllKnown(log, heads, key.recCur, snaps)
  {
    forall i {:trigger heads[i]} | 0 <= i < |heads|
      ensures var at := Start(Item(key.head, key.recCur).first, 0, i, snaps);
              Item(heads[i], key.recCur).first == at && Item(heads[i], key.recCur).last == at + |snaps[i]|
    {
      assert Keeps(log, i, key.recCur, snaps[i], Start(Item(key.head, key.recCur).first, 0, i, snaps));
      assert HeadAt(log, i, heads[i]);
    }
    KnownAll(log, heads, key, snaps);
  }

  /** A start of the system: load, look, and redo if need be.  From every state a crash can leave
      it makes the writes of a recovery, or those before the next crash.  When there was nothing to
      redo, the logger it loaded is fit for checkpoints. */
  method StartUp(files: Storage, recMax: nat, rotatePages: nat, loaded: nat, now: nat, ghost fs: seq<File>, ghost id: nat, ghost snaps: seq<seq<Copy>>)
      returns (ok: bool, logger: GlobalLogger?)
    requires Safe(files.disk, fs, id, snaps) && SnapsOk(snaps) && |fs| > 0
    modifies files
    ensures Did(old(files.disk), old(files.budget), RecoverWrites(old(files.disk), Stamp(loaded, now), recMax, now), files.disk, files.budget, ok)
    ensures Safe(files.disk, fs, id, snaps) && (OldState(old(files.disk), fs) ==> OldState(files.disk, fs))
    ensures ok ==> OldState(files.disk, fs) || NewState(files.disk, fs, id, snaps)
    ensures logger != null <==> ok && !ToRedo(old(files.disk))
    ensures logger != null ==> fresh(logger) && logger.files == files && logger.recMax == recMax && logger.Valid()
    ensures logger != null ==> (logger.needRotate <==> MustRotate(old(files.disk).tables))
    ensures Roomy(old(files.disk)) ==> Roomy(files.disk)
  {
    ghost var d, b := files.disk, files.budget;
    var started := new GlobalLogger(files, recMax, rotatePages, loaded);
    SafeFound(d, fs, id, snaps);
    var state := started.IntegrityVerify(now);
    logger := if state == Clean then started else null;
    if state == Redo {
      RedoIsPrepared(d, fs, id, snaps);
      state := started.RedoLog(now, snaps);
    }
    ok := state == Clean;
    Survives(d, b, fs, id, snaps, Stamp(loaded, now), recMax, now, files.disk, files.budget, ok);
    RecoveryRoomy(d, b, Stamp(loaded, now), recMax, now, files.disk, files.budget, ok);
  }

  /** However many writes succeed, the files stay safe; if all do, they are old or new. */
  lemma Survives(d: Disk, b: nat, fs: seq<File>, id: nat, snaps: seq<seq<Copy>>, newId: nat, recMax: nat, now: nat, e: Disk, c: nat, ok: bool)
    requires Safe(d, fs, id, snaps) && SnapsOk(snaps) && |fs| > 0
    requires Did(d, b, RecoverWrites(d, newId, recMax, now), e, c, ok)
    ensures Safe(e, fs, id, snaps) && (OldState(d, fs) ==> OldState(e, fs))
    ensures ok ==> OldState(e, fs) || NewState(e, fs, id, snaps)
  {
    var ws := RecoverWrites(d, newId, recMax, now);
    var n := if b <= |ws| then b else |ws|;
    RecoveryKeepsSafe(d, fs, id, snaps, newId, recMax, now, n);
    if OldState(d, fs) { SettledStays(d, newId, recMax, now, n); }
  }

  lemma SafeFound(d: Disk, fs: seq<File>, id: nat, snaps: seq<seq<Copy>>)
    requires Safe(d, fs, id, snaps) && |fs| > 0
    ensures var m := MaxId(d.tables); m != 0 ==> LogOk(LogOf(d, m), |d.tables|) && Unfinished(KeyOf(LogOf(d, m)))
  {
    if NewState(d, fs, id, snaps) { NewMax(d.tables, fs, snaps, id); }
  }

  lemma RedoIsPrepared(d: Disk, fs: seq<File>, id: nat, snaps: seq<seq<Copy>>)
    requires Safe(d, fs, id, snaps) && |fs| > 0 && ToRedo(d)
    ensures MaxId(d.tables) == id && Prepared(LogOf(d, id), snaps) && |snaps| == |d.tables|
    ensures forall newId, recMax, now :: RecoverWrites(d, newId, recMax, now) == CommitWrites(d, id, KeyOf(LogOf(d, id)), Stamp(id, now), snaps, true)
  {
    RedoIsMid(d, fs, id, snaps);
  }

  lemma RedoIsMid(d: Disk, fs: seq<File>, id: nat, snaps: seq<seq<Copy>>)
    requires Safe(d, fs, id, snaps) && |fs| > 0 && ToRedo(d)
    ensures MidState(d, fs, id, snaps)
  {
    if NewState(d, fs, id, snaps) { NewMax(d.tables, fs, snaps, id); }
  }

  /** What a commit or redo writes for one table. */
  function TurnWrites(d: Disk, i: nat, id: nat, stamp: nat, snaps: seq<seq<Copy>>, redo: bool): seq<Write>
    requires i < |snaps| == |d.tables|
  {
    if redo && Id(d.tables[i]) == 0 then [] else ReplayWrites(d.tables[i], i, id, stamp, snaps[i])
  }

  lemma TurnSplits(d: Disk, i: nat, id: nat, stamp: nat, snaps: seq<seq<Copy>>, redo: bool) returns (a: seq<Write>, rest: seq<Write>)
    requires i < |snaps| == |d.tables|
    ensures a == TurnWrites(d, i, id, stamp, snaps, redo) && |AfterAll(d, a).tables| == |snaps|
    ensures rest == ReplayFrom(AfterAll(d, a), i + 1, id, stamp, snaps, redo)
    ensures ReplayFrom(d, i, id, stamp, snaps, redo) == a + rest
  {
    a := TurnWrites(d, i, id, stamp, snaps, redo);
    SameTables(d, a, |a|);
    rest := ReplayFrom(AfterAll(d, a), i + 1, id, stamp, snaps, redo);
  }

  /** Every write goes to table i. */
  ghost predicate TableOnly(ws: seq<Write>, i: nat) {
    forall x :: 0 <= x < |ws| ==> ws[x].ToTable? && ws[x].table == i
  }

  lemma {:induction false} TableOnlyKeeps(d: Disk, i: nat, ws: seq<Write>, n: nat)
    requires i < |d.tables| && n <= |ws| && TableOnly(ws, i)
    ensures var e := After(d, ws, n);
            e.logs == d.logs && |e.tables| == |d.tables| && forall j :: 0 <= j < |d.tables| && j != i ==> e.tables[j] == d.tables[j]
    decreases n
  {
    if n > 0 { TableOnlyKeeps(d, i, ws, n - 1); }
  }

  lemma ReplayedLogs(d: Disk, i: nat, id: nat, stamp: nat, snap: seq<Copy>, n: nat)
    requires i < |d.tables| && n <= |ReplayWrites(d.tables[i], i, id, stamp, snap)|
    ensures var e := After(d, ReplayWrites(d.tables[i], i, id, stamp, snap), n);
            e.logs == d.logs && |e.tables| == |d.tables| && forall j :: 0 <= j < |d.tables| && j != i ==> e.tables[j] == d.tables[j]
  {
    TableOnlyKeeps(d, i, ReplayWrites(d.tables[i], i, id, stamp, snap), n);
  }

  /** The copies of a snapshot, written to table i. */
  function Copied(i: nat, snap: seq<Copy>): seq<Write> {
    seq(|snap|, k requires 0 <= k < |snap| => ToTable(i, snap[k].index, snap[k].page))
  }

  lemma FrontCopies(log: Log, at: nat, snap: seq<Copy>, n: nat)
    requires n <= |snap| && Copies(log, at, snap, |snap|)
    ensures Copies(log, at, snap[..n], n)
  {
  }

  lemma {:induction false} CopiedLogs(d: Disk, i: nat, snap: seq<Copy>, n: nat)
    requires n <= |snap|
    ensures After(d, Copied(i, snap), n).logs == d.logs
    decreases n
  {
    if n > 0 { CopiedLogs(d, i, snap, n - 1); }
  }

  /** The first i tables' head pages are up to date. */
  ghost predicate HeadsSaved(hs: seq<Head>, heads: seq<Head>, r: nat, from: nat, snaps: seq<seq<Copy>>, i: nat) {
    && i <= |hs| == |heads| == |snaps|
    && (forall j {:trigger heads[j]} :: 0 <= j < i ==> heads[j] == SavedHead(hs[j], r, Start(from, 0, j, snaps), |snaps[j]|))
    && (forall j {:trigger heads[j]} :: i <= j < |hs| ==> heads[j] == hs[j])
  }

  lemma HeadSaved(hs: seq<Head>, a: seq<Head>, b: seq<Head>, r: nat, from: nat, page: nat, snaps: seq<seq<Copy>>, i: nat)
    requires i < |hs| && HeadsSaved(hs, a, r, from, snaps, i) && page == Start(from, 0, i, snaps)
    requires b == a[i := SavedHead(a[i], r, page, |snaps[i]|)]
    ensures HeadsSaved(hs, b, r, from, snaps, i + 1)
    ensures Start(from, 0, i + 1, snaps) == page + |snaps[i]|
  {
    StartStep(from, 0, i, snaps);
  }

  lemma {:induction false} StartStep(at: nat, i: nat, j: nat, snaps: seq<seq<Copy>>)
    requires i <= j < |snaps|
    ensures Start(at, i, j + 1, snaps) == Start(at, i, j, snaps) + |snaps[j]|
    decreases j - i
  {
    if i < j { StartStep(at + |snaps[i]|, i + 1, j, snaps); }
  }
}

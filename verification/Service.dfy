/** The whole life of a set of tables: start-ups, checkpoints and crashes, for any number of rounds.

    Every round is one run of the program.  It starts up, makes the checkpoints it is asked for and
    ends, or crashes on the way at any page write.  Whatever happened, the tables are those the
    first ones and the checkpoints that took effect make: every checkpoint that was reported done
    took effect, in order, and nothing took effect that was not begun. */
module Service {
  import opened LogFiles
  import opened CrashSafety
  import opened NextCheckpoint
  import opened CheckpointLogger
  import opened RecordTable

  type Snaps = seq<seq<Copy>>

  /** One checkpoint asked for, with the clock before and after prepare. */
  datatype Job = Job(snaps: Snaps, now: nat, later: nat)

  /** One run of the program: its clock, how many page writes it lives for, and its work. */
  datatype Round = Round(loaded: nat, now: nat, budget: nat, jobs: seq<Job>)

  /** A checkpoint that took effect: what it held, its log file and its time. */
  datatype Point = Point(snaps: Snaps, id: nat, stamp: nat)

  ghost predicate Fits(jobs: seq<Job>, tables: nat) {
    forall k :: 0 <= k < |jobs| ==> |jobs[k].snaps| == tables && SnapsOk(jobs[k].snaps)
  }

  function Asked(jobs: seq<Job>): (r: seq<Snaps>)
    ensures |r| == |jobs|
  {
    seq(|jobs|, k requires 0 <= k < |jobs| => jobs[k].snaps)
  }

  /** All checkpoints asked for, round after round. */
  function AllAsked(rounds: seq<Round>): seq<Snaps> {
    if rounds == [] then [] else AllAsked(rounds[..|rounds| - 1]) + Asked(rounds[|rounds| - 1].jobs)
  }

  function Held(points: seq<Point>): seq<Snaps> {
    seq(|points|, k requires 0 <= k < |points| => points[k].snaps)
  }

  /** The tables after a checkpoint. */
  ghost function Next(fs: seq<File>, p: Point): seq<File> {
    seq(|fs|, i requires 0 <= i < |fs| => if i < |p.snaps| then NewTable(fs[i], p.snaps[i], p.id, p.stamp) else fs[i])
  }

  /** What the checkpoints, one after the other, make of the first tables. */
  ghost function Made(fs: seq<File>, points: seq<Point>): seq<File> {
    if points == [] then fs else Next(Made(fs, points[..|points| - 1]), points[|points| - 1])
  }

  /** a is b with some elements left out. */
  ghost predicate Within(a: seq<Snaps>, b: seq<Snaps>)
    decreases |b|
  {
    || a == []
    || (b != [] && (|| (a[|a| - 1] == b[|b| - 1] && Within(a[..|a| - 1], b[..|b| - 1]))
                    || Within(a, b[..|b| - 1])))
  }

  lemma WithinMore(a: seq<Snaps>, b: seq<Snaps>, x: Snaps)
    requires Within(a, b)
    ensures Within(a, b + [x])
  {
    assert (b + [x])[..|b|] == b;
  }

  lemma WithinBoth(a: seq<Snaps>, b: seq<Snaps>, x: Snaps)
    requires Within(a, b)
    ensures Within(a + [x], b + [x])
  {
    assert (a + [x])[..|a|] == a && (b + [x])[..|b|] == b;
  }

  lemma {:induction false} WithinCat(a: seq<Snaps>, b: seq<Snaps>, c: seq<Snaps>, k: nat)
    requires Within(a, b) && k <= |c|
    ensures Within(a + c[..k], b + c)
    decreases |c|
  {
    if c == [] {
      assert a + c[..k] == a && b + c == b;
    } else {
      var n := |c| - 1;
      assert b + c == (b + c[..n]) + [c[n]];
      if k == |c| {
        WithinCat(a, b, c[..n], n);
        assert a + c == (a + c[..n][..n]) + [c[n]] && c[..k] == c;
        WithinBoth(a + c[..n][..n], b + c[..n], c[n]);
      } else {
        WithinCat(a, b, c[..n], k);
        assert c[..n][..k] == c[..k];
        WithinMore(a + c[..k], b + c[..n], c[n]);
      }
    }
  }

  // ---------------------------------------------------------------- the books

  /** What happened so far: the checkpoints begun, reported done, and in effect; the tables as those
      in effect make them; and the checkpoint that may still be on its way to them. */
  datatype Books = Books(begun: seq<Snaps>, reported: seq<Snaps>, points: seq<Point>, tables: seq<File>, id: nat, snaps: Snaps)

  ghost predicate InOrder(first: seq<File>, k: Books) {
    && Made(first, k.points) == k.tables && |k.tables| == |first| > 0 && Adopted(k.tables)
    && Within(k.reported, Held(k.points))
  }

  /** A checkpoint on its way is the last one begun. */
  ghost predicate OnItsWay(d: Disk, k: Books) {
    if OldState(d, k.tables) then Within(Held(k.points), k.begun)
    else k.begun != [] && k.snaps == k.begun[|k.begun| - 1] && Within(Held(k.points), k.begun[..|k.begun| - 1])
  }

  ghost predicate Sound(first: seq<File>, d: Disk, k: Books) {
    InOrder(first, k) && Safe(d, k.tables, k.id, k.snaps) && SnapsOk(k.snaps) && OnItsWay(d, k)
  }

  /** Nothing is on its way. */
  ghost predicate Settled(first: seq<File>, d: Disk, k: Books) {
    Sound(first, d, k) && OldState(d, k.tables)
  }

  lemma MadeMore(fs: seq<File>, points: seq<Point>, p: Point)
    ensures Made(fs, points + [p]) == Next(Made(fs, points), p) && Held(points + [p]) == Held(points) + [p.snaps]
  {
    assert (points + [p])[..|points|] == points;
  }

  lemma NextIs(gs: seq<File>, fs: seq<File>, p: Point)
    requires AtNew(gs, fs, p.snaps, p.id, p.stamp)
    ensures gs == Next(fs, p)
  {
    forall i | 0 <= i < |gs| ensures gs[i] == Next(fs, p)[i] { }
  }

  lemma NewAdopts(gs: seq<File>, fs: seq<File>, snaps: Snaps, id: nat, stamp: nat)
    requires AtNew(gs, fs, snaps, id, stamp) && id != 0
    ensures Adopted(gs)
  {
    forall i {:trigger gs[i]} | 0 < i < |gs| ensures Id(gs[i]) != 0 { NewId(fs[i], snaps[i], id, stamp); }
  }

  lemma NewIsOld(d: Disk, fs: seq<File>, id: nat, snaps: Snaps)
    requires NewState(d, fs, id, snaps) && |fs| > 0
    ensures OldState(d, d.tables)
  {
    NewMax(d.tables, fs, snaps, id);
  }

  lemma RestIsOld(d: Disk, m: Memory)
    requires AtRest(d, m)
    ensures OldState(d, d.tables)
  {
    LoadedOk(LogOf(d, m.id), m);
  }

  /** The checkpoint on its way got through in the end. */
  lemma TakesEffect(first: seq<File>, d: Disk, e: Disk, k: Books) returns (k': Books)
    requires Sound(first, d, k) && !OldState(d, k.tables) && NewState(e, k.tables, k.id, k.snaps)
    ensures Settled(first, e, k') && k'.begun == k.begun && k'.reported == k.reported
  {
    var stamp :| AtNew(e.tables, k.tables, k.snaps, k.id, stamp);
    var p := Point(k.snaps, k.id, stamp);
    k' := k.(points := k.points + [p], tables := e.tables);
    MadeMore(first, k.points, p);
    NextIs(e.tables, k.tables, p);
    NewAdopts(e.tables, k.tables, k.snaps, k.id, stamp);
    NewIsOld(e, k.tables, k.id, k.snaps);
    var n := |k.begun| - 1;
    assert k.begun == k.begun[..n] + [k.snaps];
    WithinBoth(Held(k.points), k.begun[..n], k.snaps);
    WithinMore(k.reported, Held(k.points), k.snaps);
  }

  /** A start-up, cut short or not, keeps the books sound; got through, it settles them. */
  lemma StartedUp(first: seq<File>, d: Disk, e: Disk, k: Books, ok: bool) returns (k': Books)
    requires Sound(first, d, k) && Safe(e, k.tables, k.id, k.snaps) && (OldState(d, k.tables) ==> OldState(e, k.tables))
    requires ok ==> OldState(e, k.tables) || NewState(e, k.tables, k.id, k.snaps)
    ensures Sound(first, e, k') && (ok ==> Settled(first, e, k')) && k'.begun == k.begun && k'.reported == k.reported
  {
    if ok && !OldState(e, k.tables) {
      k' := TakesEffect(first, d, e, k);
    } else {
      k' := k;
      if OldState(e, k.tables) && !OldState(d, k.tables) {
        var n := |k.begun| - 1;
        assert k.begun == k.begun[..n] + [k.snaps];
        WithinMore(Held(k.points), k.begun[..n], k.snaps);
      }
    }
  }

  /** A checkpoint that crashed is on its way. */
  lemma Crashed(first: seq<File>, d: Disk, e: Disk, k: Books, id: nat, snaps: Snaps) returns (k': Books)
    requires Settled(first, d, k) && Safe(e, k.tables, id, snaps) && SnapsOk(snaps)
    ensures Sound(first, e, k') && k'.begun == k.begun + [snaps] && k'.reported == k.reported
  {
    k' := k.(begun := k.begun + [snaps], id := id, snaps := snaps);
    assert k'.begun[..|k.begun|] == k.begun;
    WithinMore(Held(k.points), k.begun, snaps);
  }

  /** A checkpoint that got through is in effect. */
  lemma Done(first: seq<File>, d: Disk, e: Disk, k: Books, p: Point) returns (k': Books)
    requires Settled(first, d, k) && AtNew(e.tables, k.tables, p.snaps, p.id, p.stamp) && Adopted(e.tables) && OldState(e, e.tables)
    ensures Settled(first, e, k') && k'.begun == k.begun + [p.snaps] && k'.reported == k.reported + [p.snaps]
  {
    k' := k.(begun := k.begun + [p.snaps], reported := k.reported + [p.snaps], points := k.points + [p], tables := e.tables);
    MadeMore(first, k.points, p);
    NextIs(e.tables, k.tables, p);
    WithinBoth(Held(k.points), k.begun, p.snaps);
    WithinBoth(k.reported, Held(k.points), p.snaps);
  }

  /** What is in effect was begun. */
  lemma BegunAll(first: seq<File>, d: Disk, k: Books)
    requires Sound(first, d, k)
    ensures Within(Held(k.points), k.begun)
  {
    if !OldState(d, k.tables) {
      var n := |k.begun| - 1;
      assert k.begun == k.begun[..n] + [k.snaps];
      WithinMore(Held(k.points), k.begun[..n], k.snaps);
    }
  }

  // ---------------------------------------------------------------- one round

  /** No log file has more records than it has room for, if none had before. */
  ghost predicate StaysInRoom(recMax: nat, d: Disk, e: Disk) {
    recMax > 0 && Roomy(d) ==> Roomy(e)
  }

  /** The logger and the books between two checkpoints. */
  ghost predicate Going(logger: GlobalLogger, first: seq<File>, k: Books)
    reads logger, logger.files
  {
    var valid, settled := logger.Valid(), Settled(first, logger.files.disk, k);
    valid && settled
  }

  /** One checkpoint. */
  method WorkOne(logger: GlobalLogger, job: Job, ghost first: seq<File>, ghost k: Books) returns (ok: bool, ghost k': Books)
    requires Going(logger, first, k) && |job.snaps| == |first| && SnapsOk(job.snaps)
    modifies logger, logger.files
    ensures Sound(first, logger.files.disk, k') && (ok ==> Going(logger, first, k'))
    ensures k'.begun == k.begun + [job.snaps] && k'.reported == k.reported + if ok then [job.snaps] else []
    ensures StaysInRoom(logger.recMax, old(logger.files.disk), logger.files.disk)
  {
    ghost var d := logger.files.disk;
    ghost var target, stamp;
    ok, target, stamp := logger.Checkpoint(job.snaps, job.now, job.later);
    ghost var e := logger.files.disk;
    if ok {
      RestIsOld(e, logger.Memory());
      k' := Done(first, d, e, k, Point(job.snaps, target, stamp));
    } else {
      k' := Crashed(first, d, e, k, target, job.snaps);
    }
  }

  lemma AskedSome(begun: seq<Snaps>, jobs: seq<Job>)
    ensures begun + Asked(jobs)[..0] == begun
  {
  }

  lemma AskedNext(begun: seq<Snaps>, jobs: seq<Job>, n: nat)
    requires n < |jobs|
    ensures begun + Asked(jobs)[..n] + [jobs[n].snaps] == begun + Asked(jobs)[..n + 1]
  {
  }

  /** The checkpoints of one round. */
  method Work(logger: GlobalLogger, jobs: seq<Job>, ghost first: seq<File>, ghost k: Books)
      returns (all: bool, reported: seq<Snaps>, ghost n: nat, ghost k': Books)
    requires Going(logger, first, k) && Fits(jobs, |first|)
    modifies logger, logger.files
    ensures Sound(first, logger.files.disk, k') && (all ==> Settled(first, logger.files.disk, k'))
    ensures n <= |jobs| && k'.begun == k.begun + Asked(jobs)[..n] && k'.reported == k.reported + reported
    ensures StaysInRoom(logger.recMax, old(logger.files.disk), logger.files.disk)
  {
    ghost var recMax, d := logger.recMax, logger.files.disk;
    k' := k;
    all, reported, n := true, [], 0;
    AskedSome(k.begun, jobs);
    var j := 0;
    while j < |jobs|
      invariant 0 <= j <= |jobs| && n == j && all
      invariant Going(logger, first, k') && StaysInRoom(recMax, d, logger.files.disk)
      invariant k'.begun == k.begun + Asked(jobs)[..n] && k'.reported == k.reported + reported
    {
      all, k' := WorkOne(logger, jobs[j], first, k');
      AskedNext(k.begun, jobs, n);
      n := n + 1;
      if !all { return; }
      reported := reported + [jobs[j].snaps];
      j := j + 1;
    }
  }

  /** One run of the program.  After a redo it ends, to be started anew. */
  method Live(files: Storage, recMax: nat, rotatePages: nat, round: Round, ghost first: seq<File>, ghost k: Books)
      returns (settled: bool, reported: seq<Snaps>, ghost n: nat, ghost k': Books)
    requires Sound(first, files.disk, k) && Fits(round.jobs, |first|)
    modifies files
    ensures Sound(first, files.disk, k') && (settled ==> Settled(first, files.disk, k'))
    ensures n <= |round.jobs| && k'.begun == k.begun + Asked(round.jobs)[..n] && k'.reported == k.reported + reported
    ensures StaysInRoom(recMax, old(files.disk), files.disk)
  {
    ghost var d := files.disk;
    files.Restart(round.budget);
    var logger;
    settled, logger := StartUp(files, recMax, rotatePages, round.loaded, round.now, k.tables, k.id, k.snaps);
    k' := StartedUp(first, d, files.disk, k, settled);
    reported, n := [], 0;
    assert Asked(round.jobs)[..0] == [] && k.begun + [] == k.begun && k.reported + [] == k.reported;
    if logger != null {
      settled, reported, n, k' := Work(logger, round.jobs, first, k');
    }
  }

  // ---------------------------------------------------------------- any number of rounds

  lemma MoreAsked(rounds: seq<Round>, r: nat, begun: seq<Snaps>, n: nat)
    requires r < |rounds| && Within(begun, AllAsked(rounds[..r])) && n <= |rounds[r].jobs|
    ensures Within(begun + Asked(rounds[r].jobs)[..n], AllAsked(rounds[..r + 1]))
  {
    WithinCat(begun, AllAsked(rounds[..r]), Asked(rounds[r].jobs), n);
    assert rounds[..r + 1][..r] == rounds[..r];
  }

  /** Whatever was asked for and whenever it crashed: what was reported done is in effect, what is
      in effect was begun, what was begun was asked for, all in order; and once a round has ended
      well the tables are just what the checkpoints in effect make of the first ones. */
  method Serve(files: Storage, recMax: nat, rotatePages: nat, rounds: seq<Round>) returns (settled: bool, reported: seq<Snaps>, ghost k: Books)
    requires |files.disk.tables| > 0 && OldState(files.disk, files.disk.tables) && Adopted(files.disk.tables)
    requires forall r :: 0 <= r < |rounds| ==> Fits(rounds[r].jobs, |files.disk.tables|)
    modifies files
    ensures k.reported == reported && Within(reported, Held(k.points)) && Within(Held(k.points), k.begun) && Within(k.begun, AllAsked(rounds))
    ensures Safe(files.disk, Made(old(files.disk).tables, k.points), k.id, k.snaps)
    ensures settled ==> files.disk.tables == Made(old(files.disk).tables, k.points)
    ensures recMax > 0 && Roomy(old(files.disk)) ==> Roomy(files.disk)
  {
    ghost var first := files.disk.tables;
    k := Books([], [], [], first, 0, []);
    settled, reported := true, [];
    var r := 0;
    assert rounds[..0] == [];
    while r < |rounds|
      invariant 0 <= r <= |rounds| && Sound(first, files.disk, k) && (settled ==> Settled(first, files.disk, k))
      invariant k.reported == reported && Within(k.begun, AllAsked(rounds[..r]))
      invariant StaysInRoom(recMax, old(files.disk), files.disk)
    {
      ghost var k0 := k;
      var more; ghost var n;
      settled, more, n, k := Live(files, recMax, rotatePages, rounds[r], first, k);
      reported := reported + more;
      MoreAsked(rounds, r, k0.begun, n);
      r := r + 1;
    }
    assert rounds[..r] == rounds;
    BegunAll(first, files.disk, k);
  }
}

/** The cache in front of the table file: what it shows stays what was last written, through loads,
    evictions and checkpoints. */
module PageCache {
  import opened Common
  import opened PageHash

  type File = map<nat, Image>

  /** What page i holds, cached or not. */
  function Shown(f: File, ps: Pages): (v: map<nat, Image>)
    ensures forall i {:trigger i in v} {:trigger v[i]} :: (i in v <==> i in f || i in ps) && (i in v ==> v[i] == if i in ps then ps[i].image else f[i])
  {
    map i | i in f.Keys + ps.Keys :: if i in ps then ps[i].image else f[i]
  }

  /** The pages of the table and the first page, which is always there. */
  function All(ps: Pages, magic: Page): Pages {
    ps[0 := magic]
  }

  /** A clean page is as the file has it, unless its copy is still to be written, or was lost with a
      checkpoint that failed. */
  ghost predicate Faithful(f: File, ps: Pages, taken: set<nat>, lost: set<nat>, i: nat) {
    i in ps && !ps[i].dirty ==> if i in taken then ps[i].snap == ps[i].image else i in lost || (i in f && f[i] == ps[i].image)
  }

  /** The file, or the copy still to be written, holds what was shown when the snapshot was taken,
      but for what was lost. */
  ghost predicate Copied(f: File, ps: Pages, taken: set<nat>, lost: set<nat>, begun: File, i: nat) {
    && (i in taken ==> i in ps) && (i in f || i in taken ==> i in begun)
    && (i in begun && i !in lost ==> if i in taken then begun[i] == ps[i].snap else i in f && begun[i] == f[i])
  }

  ghost predicate PageSound(f: File, ps: Pages, taken: set<nat>, lost: set<nat>, begun: File, i: nat) {
    Faithful(f, ps, taken, lost, i) && Copied(f, ps, taken, lost, begun, i)
  }

  ghost predicate Sound(f: File, ps: Pages, taken: set<nat>, lost: set<nat>, begun: File) {
    forall i: nat {:trigger PageSound(f, ps, taken, lost, begun, i)} :: PageSound(f, ps, taken, lost, begun, i)
  }

  /** But for what was lost, the file is what was shown then. */
  ghost predicate Holds(f: File, begun: File, lost: set<nat>) {
    f.Keys <= begun.Keys && forall i {:trigger f[i]} {:trigger begun[i]} :: i in begun && i !in lost ==> i in f && f[i] == begun[i]
  }

  lemma AllWritten(f: File, ps: Pages, lost: set<nat>, begun: File)
    requires Sound(f, ps, {}, lost, begun)
    ensures Holds(f, begun, lost)
  {
    forall i: nat ensures (i in f ==> i in begun) && (i in begun && i !in lost ==> i in f && f[i] == begun[i]) { assert PageSound(f, ps, {}, lost, begun, i); }
  }

  lemma HoldsAll(f: File, begun: File)
    requires Holds(f, begun, {})
    ensures f == begun
  {
  }

  /** A table opened with an empty cache. */
  lemma StartsSound(f: File, ps: Pages, magic: Page)
    requires ps == map[] && magic.dirty
    ensures Sound(f, All(ps, magic), {}, {}, f) && Shown(f, All(ps, magic)) == f[0 := magic.image]
  {
    forall i: nat ensures PageSound(f, All(ps, magic), {}, {}, f, i) { assert i in All(ps, magic) <==> i == 0; }
  }

  lemma AllSameContents(ps: Pages, ps': Pages, magic: Page)
    requires SameContents(ps, ps')
    ensures SameContents(All(ps, magic), All(ps', magic))
  {
  }

  lemma SameShown(f: File, ps: Pages, ps': Pages)
    requires SameContents(ps, ps')
    ensures Shown(f, ps') == Shown(f, ps)
  {
  }

  lemma SameSound(f: File, ps: Pages, ps': Pages, taken: set<nat>, lost: set<nat>, begun: File)
    requires SameContents(ps, ps') && Sound(f, ps, taken, lost, begun)
    ensures Sound(f, ps', taken, lost, begun)
  {
    forall i: nat ensures PageSound(f, ps', taken, lost, begun, i) { assert PageSound(f, ps, taken, lost, begun, i); }
  }

  /** Finding a page changes none. */
  lemma FoundSound(f: File, ps: Pages, ps': Pages, magic: Page, taken: set<nat>, lost: set<nat>, begun: File)
    requires SameContents(ps, ps') && Sound(f, All(ps, magic), taken, lost, begun)
    ensures Shown(f, All(ps', magic)) == Shown(f, All(ps, magic)) && Sound(f, All(ps', magic), taken, lost, begun) && DirtyOf(ps') == DirtyOf(ps)
  {
    AllSameContents(ps, ps', magic);
    SameShown(f, All(ps, magic), All(ps', magic));
    SameSound(f, All(ps, magic), All(ps', magic), taken, lost, begun);
  }

  lemma AllPut(ps: Pages, ps': Pages, magic: Page, i: nat, p: Page)
    requires ps' == ps[i := p] && i != 0
    ensures All(ps', magic) == All(ps, magic)[i := p] && (i in ps ==> All(ps, magic)[i] == ps[i])
  {
  }

  lemma AllGained(ps: Pages, ps': Pages, magic: Page, i: nat)
    requires Gained(ps, ps', i) && i != 0
    ensures Gained(All(ps, magic), All(ps', magic), i) && All(ps', magic)[i] == ps'[i]
  {
  }

  /** A page read from the file changes nothing of what is shown. */
  lemma LoadedShown(f: File, ps: Pages, ps': Pages, i: nat)
    requires i in f && Gained(ps, ps', i) && ps'[i].image == f[i]
    ensures Shown(f, ps') == Shown(f, ps)
  {
  }

  lemma LoadedSound(f: File, ps: Pages, ps': Pages, i: nat, taken: set<nat>, lost: set<nat>, begun: File)
    requires Sound(f, ps, taken, lost, begun) && i in f && Gained(ps, ps', i) && ps'[i].image == f[i]
    ensures Sound(f, ps', taken, lost, begun)
  {
    forall j: nat ensures PageSound(f, ps', taken, lost, begun, j) { assert PageSound(f, ps, taken, lost, begun, j); }
  }

  /** A page written to keeps its copy. */
  lemma WrittenSound(f: File, ps: Pages, ps': Pages, i: nat, image: Image, taken: set<nat>, lost: set<nat>, begun: File)
    requires Sound(f, ps, taken, lost, begun) && i in ps && ps' == ps[i := ps[i].(image := image, dirty := true)]
    ensures Shown(f, ps') == Shown(f, ps)[i := image] && Sound(f, ps', taken, lost, begun)
  {
    forall j: nat ensures PageSound(f, ps', taken, lost, begun, j) { assert PageSound(f, ps, taken, lost, begun, j); }
  }

  /** A dirty page is new. */
  ghost predicate Added(ps: Pages, ps': Pages, i: nat, image: Image) {
    Gained(ps, ps', i) && ps'[i].image == image && ps'[i].dirty
  }

  lemma AddedDirty(ps: Pages, ps1: Pages, ps': Pages, i: nat, image: Image)
    requires Gained(ps, ps1, i) && ps' == ps1[i := ps1[i].(image := image, dirty := true)]
    ensures Added(ps, ps', i, image)
  {
  }

  lemma ExtendedSound(f: File, ps: Pages, ps': Pages, i: nat, image: Image, taken: set<nat>, lost: set<nat>, begun: File)
    requires Sound(f, ps, taken, lost, begun) && Added(ps, ps', i, image) && i !in f
    ensures Shown(f, ps') == Shown(f, ps)[i := image] && Sound(f, ps', taken, lost, begun)
  {
    forall j: nat ensures PageSound(f, ps', taken, lost, begun, j) { assert PageSound(f, ps, taken, lost, begun, j); }
  }

  // ---------------------------------------------------------------- snapshots

  /** The pages of s have been copied. */
  ghost predicate AllSnapped(ps: Pages, ps': Pages, s: set<nat>) {
    ps'.Keys == ps.Keys && forall i {:trigger ps'[i]} {:trigger ps[i]} :: i in ps ==> ps'[i] == if i in s then Snapped(ps[i]) else ps[i]
  }

  ghost predicate Snapshot(ps: Pages, ps': Pages, list: seq<nat>, s: set<nat>) {
    AllSnapped(ps, ps', s) && Names(list, s) && s <= ps.Keys
  }

  /** The list names the pages of s, each once. */
  ghost predicate Names(list: seq<nat>, s: set<nat>) {
    Distinct(list) && forall i {:trigger i in list} {:trigger i in s} :: i in list <==> i in s
  }

  /** The pages that a snapshot copies: the dirty ones, and when there are any the first page too. */
  function ToCopy(all: Pages): set<nat> {
    if DirtyOf(all) == {} then {} else DirtyOf(all) + {0}
  }

  /** A snapshot of all changed pages changes nothing of what is shown. */
  lemma SnappedSound(f: File, ps: Pages, ps': Pages, s: set<nat>, lost: set<nat>, lost': set<nat>, begun: File, v: File)
    requires Sound(f, ps, {}, lost, begun) && AllSnapped(ps, ps', s) && s == ToCopy(ps) && s <= ps.Keys && lost' == lost - s && v == Shown(f, ps)
    ensures Shown(f, ps') == v && Sound(f, ps', s, lost', v)
  {
    forall i: nat ensures PageSound(f, ps', s, lost', v, i) { assert PageSound(f, ps, {}, lost, begun, i) && (i in DirtyOf(ps) ==> i in s); }
  }

  /** The first page is the last of a snapshot, and in every one. */
  ghost predicate FirstComesLast(list: seq<nat>) {
    forall k {:trigger list[k]} :: 0 <= k < |list| ==> (list[k] == 0 <==> k == |list| - 1)
  }

  lemma LastIsFirst(list: seq<nat>, list': seq<nat>, s: set<nat>)
    requires Names(list, s) && 0 !in s && (list' == list + [0] || list' == list == [])
    ensures FirstComesLast(list')
  {
    forall k {:trigger list'[k]} | 0 <= k < |list'| ensures list'[k] == 0 <==> k == |list'| - 1 {
      if k < |list| { assert list'[k] == list[k] && list[k] in list; }
    }
  }

  /** What was changed is copied, with the first page and nothing else; there are no changes left
      that are not. */
  ghost predicate CopiesChanged(all: Pages, all': Pages, s: set<nat>) {
    && (forall i {:trigger i in s} :: i in all ==> (i in s <==> all[i].dirty || (i == 0 && exists j {:trigger all[j]} :: j in all && all[j].dirty)))
    && forall i {:trigger all'[i]} :: i in all' ==> !all'[i].dirty && (i in s ==> all'[i].snap == all'[i].image)
  }

  lemma ChangedCopied(all: Pages, all': Pages, s: set<nat>)
    requires AllSnapped(all, all', s) && s == ToCopy(all)
    ensures CopiesChanged(all, all', s)
  {
    forall i | i in all ensures i in s <==> all[i].dirty || (i == 0 && exists j {:trigger all[j]} :: j in all && all[j].dirty) {
      assert i in DirtyOf(all) <==> all[i].dirty;
      if DirtyOf(all) != {} { var j :| j in DirtyOf(all); assert all[j].dirty; }
    }
  }

  lemma CopiesWait(list: seq<nat>, s: set<nat>)
    requires Names(list, s)
    ensures Waiting(list, 0, s)
  {
    assert list[0..] == list;
  }

  /** The snapshot of the table's pages, and of the first page with them. */
  lemma MagicSnapped(ps: Pages, ps': Pages, magic: Page, magic': Page, dirty: set<nat>, s: set<nat>)
    requires 0 !in ps && AllSnapped(ps, ps', dirty) && dirty == DirtyOf(ps)
    requires if dirty != {} || magic.dirty then s == dirty + {0} && magic' == Snapped(magic) else s == {} && magic' == magic
    ensures AllSnapped(All(ps, magic), All(ps', magic'), s)
  {
  }

  lemma MagicToCopy(ps: Pages, magic: Page)
    requires 0 !in ps
    ensures ToCopy(All(ps, magic)) == if DirtyOf(ps) != {} || magic.dirty then DirtyOf(ps) + {0} else {}
    ensures DirtyOf(All(ps, magic)) == DirtyOf(ps) + if magic.dirty then {0} else {}
  {
    var all := All(ps, magic);
    forall i ensures i in DirtyOf(all) <==> i in DirtyOf(ps) || (i == 0 && magic.dirty) { assert i in all <==> i in ps || i == 0; }
  }

  lemma MagicNamed(list: seq<nat>, s: set<nat>, dirty: bool, list': seq<nat>)
    requires Names(list, s) && 0 !in s && list' == if list != [] || dirty then list + [0] else []
    ensures Names(list', if s != {} || dirty then s + {0} else {}) && (list != [] <==> s != {})
  {
    if list != [] { assert list[0] in s; }
    if s != {} { var i :| i in s; assert i in list; }
    assert 0 !in list;
  }

  function Firsts(all: seq<nat>, k: nat): set<nat>
    requires k <= |all|
  {
    set i | i in all[..k]
  }

  lemma NextFirst(all: seq<nat>, k: nat)
    requires k < |all| && Distinct(all)
    ensures all[k] in all && all[k] !in Firsts(all, k) && Firsts(all, k + 1) == Firsts(all, k) + {all[k]}
  {
    assert all[..k + 1] == all[..k] + [all[k]];
    forall m | 0 <= m < k ensures all[..k][m] != all[k] { assert all[m] != all[k]; }
  }

  lemma OneSnapped(ps: Pages, ps1: Pages, ps2: Pages, s: set<nat>, i: nat, s': set<nat>, dirty: set<nat>)
    requires dirty == DirtyOf(ps) && AllSnapped(ps, ps1, s * dirty) && i in ps && i !in s && s' == s + {i}
    requires ps2 == if ps1[i].dirty then ps1[i := Snapped(ps1[i])] else ps1
    ensures AllSnapped(ps, ps2, s' * dirty) && (ps1[i].dirty <==> i in dirty) && s' * dirty == s * dirty + (if i in dirty then {i} else {})
  {
  }

  lemma OneNamed(list: seq<nat>, s: set<nat>, i: nat)
    requires Names(list, s) && i !in s
    ensures Names(list + [i], s + {i})
  {
  }

  /** The pages of the snapshot from place k on are still to be written. */
  ghost predicate Waiting(list: seq<nat>, k: nat, taken: set<nat>) {
    k <= |list| && Distinct(list) && forall i {:trigger i in taken} :: i in taken <==> i in list[k..]
  }

  lemma OneWritten(list: seq<nat>, k: nat, taken: set<nat>, n: nat)
    requires Waiting(list, k, taken) && k < |list| && n == k + 1
    ensures list[k] in taken && Waiting(list, n, taken - {list[k]})
  {
    assert list[k..] == [list[k]] + list[n..];
    forall m | 0 <= m < |list| - n ensures list[n..][m] != list[k] { assert list[n..][m] == list[n + m]; }
  }

  /** A copy written changes nothing of what is shown. */
  lemma WrittenBack(f: File, ps: Pages, i: nat, f': File, taken: set<nat>, lost: set<nat>, begun: File)
    requires Sound(f, ps, taken, lost, begun) && i in taken && i in ps && f' == f[i := ps[i].snap]
    ensures Sound(f', ps, taken - {i}, lost, begun) && Shown(f', ps) == Shown(f, ps)
  {
    forall j: nat ensures PageSound(f', ps, taken - {i}, lost, begun, j) { assert PageSound(f, ps, taken, lost, begun, j); }
  }

  lemma TakenThere(f: File, ps: Pages, i: nat, taken: set<nat>, lost: set<nat>, begun: File)
    requires Sound(f, ps, taken, lost, begun) && i in taken
    ensures i in ps
  {
    assert PageSound(f, ps, taken, lost, begun, i);
  }

  ghost predicate SameElsewhere(f: File, f': File, s: set<nat>) {
    forall i {:trigger i in f} {:trigger i in f'} :: i !in s ==> (i in f <==> i in f') && (i in f ==> f'[i] == f[i])
  }

  lemma ElsewhereStep(f: File, f1: File, f2: File, s: set<nat>, t: set<nat>, i: nat)
    requires SameElsewhere(f, f1, s) && i in t && t <= s && i in f2 && f2 == f1[i := f2[i]]
    ensures SameElsewhere(f, f2, s)
  {
  }

  /** Copies not written by the end of a checkpoint are lost. */
  lemma Dropped(f: File, ps: Pages, taken: set<nat>, lost: set<nat>, begun: File)
    requires Sound(f, ps, taken, lost, begun)
    ensures Sound(f, ps, {}, lost + taken, begun)
  {
    forall i: nat ensures PageSound(f, ps, {}, lost + taken, begun, i) { assert PageSound(f, ps, taken, lost, begun, i); }
  }

  // ---------------------------------------------------------------- evictions

  /** Which pages a cleanup leaves, in the order of their use. */
  function Left(order: seq<nat>, dirty: set<nat>, size: nat, high: nat, low: nat): seq<nat> {
    if size <= high then order else Kept(order, dirty, size, low)
  }

  /** Of the pages named, those that go are in the file as they are. */
  ghost predicate Harmless(f: File, ps: Pages, s: set<nat>, left: seq<nat>) {
    forall i {:trigger i in s} :: i in s && i in ps && i !in left ==> i in f && f[i] == ps[i].image
  }

  /** What is lost after a checkpoint: some of the pages copied for it when it failed, and what was
      lost before and not copied. */
  ghost predicate Losses(was: set<nat>, copied: set<nat>, lost: set<nat>, ok: bool) {
    was - copied <= lost <= was + copied && (ok ==> lost == was - copied)
  }

  lemma LossesAre(was: set<nat>, copied: set<nat>, lost: set<nat>, taken: set<nat>, ok: bool)
    requires lost == was - copied && taken <= copied && (ok <==> taken == {})
    ensures Losses(was, copied, lost + taken, ok)
  {
  }

  ghost predicate SameImages(ps: Pages, ps': Pages) {
    ps'.Keys == ps.Keys && forall i {:trigger ps'[i]} {:trigger ps[i]} :: i in ps ==> ps'[i].image == ps[i].image
  }

  lemma SameHarmless(f: File, ps: Pages, ps': Pages, s: set<nat>, left: seq<nat>)
    requires SameImages(ps, ps')
    ensures Harmless(f, ps, s, left) <==> Harmless(f, ps', s, left)
  {
  }

  lemma NothingLost(f: File, ps: Pages)
    ensures forall left: seq<nat> {:trigger Harmless(f, ps, {}, left)} :: Harmless(f, ps, {}, left)
  {
  }

  /** Evicting clean pages changes nothing of what is shown exactly when those of them that the file
      does not have yet, or has not got at all, are there as they were. */
  lemma EvictedShown(f: File, ps: Pages, ps': Pages, taken: set<nat>, lost: set<nat>, begun: File)
    requires Sound(f, ps, taken, lost, begun) && Leaves(ps, ps') && forall i {:trigger i in ps} :: i in ps && ps[i].dirty ==> i in ps'
    ensures Shown(f, ps') == Shown(f, ps) <==> forall i {:trigger i in ps'} :: i in taken + lost && i in ps && i !in ps' ==> i in f && f[i] == ps[i].image
  {
    var v, v' := Shown(f, ps), Shown(f, ps');
    if forall i {:trigger i in ps'} :: i in taken + lost && i in ps && i !in ps' ==> i in f && f[i] == ps[i].image {
      forall i | i in v ensures i in v' && v'[i] == v[i] {
        assert PageSound(f, ps, taken, lost, begun, i);
        assert i in ps && i !in ps' ==> i in f && f[i] == ps[i].image;
      }
    } else {
      var i :| i in taken + lost && i in ps && i !in ps' && !(i in f && f[i] == ps[i].image);
      assert i in v && (i !in v' || v'[i] != v[i]);
    }
  }

  lemma EvictedSound(f: File, ps: Pages, ps': Pages, taken: set<nat>, lost: set<nat>, begun: File)
    requires Sound(f, ps, taken, lost, begun) && Leaves(ps, ps') && taken <= ps'.Keys
    ensures Sound(f, ps', taken, lost, begun)
  {
    forall i: nat ensures PageSound(f, ps', taken, lost, begun, i) { assert PageSound(f, ps, taken, lost, begun, i); }
  }

  /** The pages left are those of the list; the others were clean. */
  ghost predicate CleanGone(ps: Pages, ps': Pages, left: seq<nat>) {
    && Leaves(ps, ps') && (forall i {:trigger i in ps'} {:trigger i in left} :: i in ps' <==> i in left)
    && forall i {:trigger i in ps} :: i in ps && ps[i].dirty ==> i in ps'
  }

  lemma LeftShown(f: File, ps: Pages, ps': Pages, magic: Page, left: seq<nat>, taken: set<nat>, lost: set<nat>, begun: File)
    requires Sound(f, All(ps, magic), taken, lost, begun) && 0 !in ps && CleanGone(ps, ps', left)
    ensures Shown(f, All(ps', magic)) == Shown(f, All(ps, magic)) <==> Harmless(f, ps, taken + lost, left)
    ensures taken <= ps'.Keys + {0} ==> Sound(f, All(ps', magic), taken, lost, begun)
  {
    var all, all' := All(ps, magic), All(ps', magic);
    EvictedShown(f, all, all', taken, lost, begun);
    if taken <= ps'.Keys + {0} { EvictedSound(f, all, all', taken, lost, begun); }
    if Harmless(f, ps, taken + lost, left) {
      forall i {:trigger i in all'} | i in taken + lost && i in all && i !in all' ensures i in f && f[i] == all[i].image { assert i in ps; }
    } else {
      var i :| i in taken + lost && i in ps && i !in left && !(i in f && f[i] == ps[i].image);
      assert i in all && i !in all';
    }
  }

  // ---------------------------------------------------------------- what clients of the cache see

  /** What a client asks: to read a page, to change one, to have a page new to the file; that a
      checkpoint begins, writes one more of its copies, or ends; that what is too much is evicted. */
  datatype Request = Read(i: nat) | Change(i: nat, image: Image) | New(i: nat, image: Image) | Begin | Save | End | Evict

  /** A plain map of pages, what it was when the last checkpoint began, and whether that one is
      still open. */
  datatype Plain = Plain(view: map<nat, Image>, begun: map<nat, Image>, open: bool)

  function Effect(p: Plain, q: Request): Plain {
    match q
    case Change(i, image) => if i in p.view then p.(view := p.view[i := image]) else p
    case New(i, image) => if i !in p.view then p.(view := p.view[i := image]) else p
    case Begin => Plain(p.view, p.view, true)
    case End => p.(open := false)
    case _ => p
  }

  function Answer(p: Plain, q: Request): Option<Image> {
    if (q.Read? || q.Change? || q.New?) && q.i in p.view then Some(p.view[q.i]) else None
  }

  /** One checkpoint at a time, and no eviction while it is open. */
  predicate Allowed(p: Plain, q: Request) {
    match q
    case Begin => !p.open
    case Save => p.open
    case End => p.open
    case Evict => !p.open
    case _ => true
  }

  function Effects(p: Plain, qs: seq<Request>): Plain {
    if qs == [] then p else Effect(Effects(p, qs[..|qs| - 1]), qs[|qs| - 1])
  }

  function Answers(p: Plain, qs: seq<Request>): seq<Option<Image>> {
    if qs == [] then [] else Answers(p, qs[..|qs| - 1]) + [Answer(Effects(p, qs[..|qs| - 1]), qs[|qs| - 1])]
  }

  ghost predicate AllAllowed(p: Plain, qs: seq<Request>) {
    forall k {:trigger qs[k]} :: 0 <= k < |qs| ==> Allowed(Effects(p, qs[..k]), qs[k])
  }

  ghost predicate SameAt(v: map<nat, Image>, v': map<nat, Image>, i: nat) {
    (i in v <==> i in v') && (i in v ==> v[i] == v'[i])
  }

  lemma SameEverywhere(v: map<nat, Image>, v': map<nat, Image>)
    requires forall i: nat {:trigger SameAt(v, v', i)} :: SameAt(v, v', i)
    ensures v == v'
  {
    forall i: nat ensures (i in v <==> i in v') && (i in v ==> v[i] == v'[i]) { assert SameAt(v, v', i); }
  }

  class PageCache {
    var file: File                   // the pages of the table file
    const hash: PageHash
    var magic: Page                  // page 0, never evicted
    var snapshot: seq<nat>           // the pages of the snapshot taken
    var saved: nat                   // how many of their copies the file has
    ghost var taken: set<nat>        // the others
    ghost var lost: set<nat>         // pages copied for a checkpoint that failed
    ghost var begun: File            // what was shown when the last snapshot was taken

    ghost function AllPages(): Pages
      reads this, hash
    {
      All(hash.pages, magic)
    }

    ghost predicate Valid()
      reads this, hash
    {
      var valid := hash.Valid() && 0 !in hash.pages && Waiting(snapshot, saved, taken) && Sound(file, AllPages(), taken, lost, begun);
      valid
    }

    /** What the pages hold. */
    ghost function View(): map<nat, Image>
      reads this, hash
    {
      Shown(file, AllPages())
    }

    /** Nothing was lost. */
    ghost predicate Intact()
      reads this, hash
    {
      Valid() && lost == {}
    }

    constructor (file: File, first: Image, high: nat, low: nat)
      ensures Intact() && taken == {} && fresh(hash) && hash.pages == map[] && hash.order == [] && hash.high == high && hash.low == low
      ensures this.file == file == begun && View() == file[0 := if 0 in file then file[0] else first]
    {
      this.file, begun := file, file;
      magic := Page(if 0 in file then file[0] else first, true, [], 0, 0);
      snapshot, saved, taken, lost := [], 0, {}, {};
      hash := new PageHash(high, low);
      new;
      StartsSound(file, hash.pages, magic);
    }

    /** Page i, brought into the cache if need be; None when neither cache nor file has it.  It is
        the one used last then. */
    method Load(i: nat) returns (r: Option<Image>)
      requires Valid() && i != 0 && hash.size + 1 < LRU_LIMIT
      modifies hash
      ensures Valid() && View() == old(View()) && hash.low == old(hash.low) && hash.high == old(hash.high)
      ensures r == (if i in View() then Some(View()[i]) else None) && DirtyOf(hash.pages) == DirtyOf(old(hash.pages))
      ensures r.Some? ==> i in hash.pages && hash.order == Minus(old(hash.order), i) + [i]
      ensures hash.size <= old(hash.size) + if r.Some? then 1 else 0
    {
      var found := Lookup(i);
      if !found {
        if i !in file { return None; }
        LoadCache(i);
      }
      r := Some(hash.pages[i].image);
    }

    method Lookup(i: nat) returns (found: bool)
      requires Valid()
      modifies hash`pages, hash`lru, hash`order
      ensures Valid() && View() == old(View()) && found == (i in hash.pages) && DirtyOf(hash.pages) == DirtyOf(old(hash.pages))
      ensures hash.size == old(hash.size) && hash.low == old(hash.low) && hash.high == old(hash.high)
      ensures hash.order == if found then Minus(old(hash.order), i) + [i] else old(hash.order)
    {
      ghost var ps := hash.pages;
      found := hash.Find(i);
      FoundSound(file, ps, hash.pages, magic, taken, lost, begun);
    }

    method LoadCache(i: nat)
      requires Valid() && hash.size + 1 < LRU_LIMIT && i in file && i !in hash.pages && i != 0
      modifies hash
      ensures Valid() && View() == old(View()) && i in hash.pages && hash.order == Minus(old(hash.order), i) + [i]
      ensures DirtyOf(hash.pages) == DirtyOf(old(hash.pages))
      ensures hash.low == old(hash.low) && hash.high == old(hash.high) && hash.size == old(hash.size) + 1
    {
      ghost var ps := hash.pages;
      InsertClean(i, file[i]);
      AllGained(ps, hash.pages, magic, i);
      LoadedShown(file, All(ps, magic), All(hash.pages, magic), i);
      LoadedSound(file, All(ps, magic), All(hash.pages, magic), i, taken, lost, begun);
    }

    method InsertClean(i: nat, image: Image)
      requires hash.Valid() && i !in hash.pages && i != 0 && hash.size + 1 < LRU_LIMIT
      modifies hash
      ensures hash.Valid() && Gained(old(hash.pages), hash.pages, i) && hash.pages[i].image == image && DirtyOf(hash.pages) == DirtyOf(old(hash.pages))
      ensures hash.order == Minus(old(hash.order), i) + [i] && hash.size == old(hash.size) + 1
      ensures hash.low == old(hash.low) && hash.high == old(hash.high)
    {
      ghost var ps := hash.pages;
      NotInOrder(ps, hash.order, hash.lru, i);
      hash.Insert(i, image);
      OneBigger(ps, hash.pages, i);
      SameDirty(ps, hash.pages, i);
    }

    /** A page just loaded is written to; a copy of it is not. */
    method Write(i: nat, image: Image)
      requires Valid() && i in hash.pages
      modifies hash`pages
      ensures Valid() && View() == old(View())[i := image]
      ensures hash.pages == old(hash.pages)[i := old(hash.pages)[i].(image := image, dirty := true)] && hash.size == old(hash.size)
    {
      ghost var ps, p := hash.pages, hash.pages[i].(image := image, dirty := true);
      hash.Write(i, image);
      AllPut(ps, hash.pages, magic, i, p);
      WrittenSound(file, All(ps, magic), All(hash.pages, magic), i, image, taken, lost, begun);
    }

    /** The first page is written to. */
    method WriteFirst(image: Image)
      requires Valid()
      modifies this`magic
      ensures Valid() && View() == old(View())[0 := image] && magic == old(magic).(image := image, dirty := true)
    {
      ghost var all := AllPages();
      magic := magic.(image := image, dirty := true);
      assert AllPages() == all[0 := all[0].(image := image, dirty := true)];
      WrittenSound(file, all, AllPages(), 0, image, taken, lost, begun);
    }

    /** A page new to the file, all zero at first. */
    method Extend(i: nat, zero: Image)
      requires Valid() && i !in View() && hash.size + 1 < LRU_LIMIT
      modifies hash
      ensures Valid() && View() == old(View())[i := zero] && Added(old(hash.pages), hash.pages, i, zero) && hash.size == old(hash.size) + 1
    {
      ghost var ps := hash.pages;
      InsertDirty(i, zero);
      AllGained(ps, hash.pages, magic, i);
      ExtendedSound(file, All(ps, magic), All(hash.pages, magic), i, zero, taken, lost, begun);
    }

    method InsertDirty(i: nat, zero: Image)
      requires hash.Valid() && i !in hash.pages && i != 0 && hash.size + 1 < LRU_LIMIT
      modifies hash
      ensures hash.Valid() && Added(old(hash.pages), hash.pages, i, zero) && hash.size == old(hash.size) + 1
    {
      ghost var ps := hash.pages;
      hash.Insert(i, zero);
      OneBigger(ps, hash.pages, i);
      ghost var ps1 := hash.pages;
      hash.Write(i, zero);
      AddedDirty(ps, ps1, hash.pages, i, zero);
    }

    /** Copies the changed pages, and the first page with them; nothing is dirty afterwards. */
    method SnapshotCreate()
      requires Valid() && taken == {}
      modifies this`snapshot, this`saved, this`taken, this`lost, this`begun, this`magic, hash`pages
      ensures Valid() && View() == old(View()) == begun && taken == ToCopy(old(AllPages())) && lost == old(lost) - taken
      ensures var copied, same := Snapshot(old(AllPages()), AllPages(), snapshot, taken), SameImages(old(hash.pages), hash.pages); copied && same
      ensures FirstComesLast(snapshot) && CopiesChanged(old(AllPages()), AllPages(), taken)
    {
      ghost var all := AllPages();
      CopyAll();
      ghost var all1, copied, v := AllPages(), ToCopy(all), Shown(file, all);
      ghost var lost1 := lost - copied;
      CopiesWait(snapshot, copied);
      SnappedSound(file, all, all1, copied, lost, lost1, begun, v);
      ChangedCopied(all, all1, copied);
      saved, taken, lost, begun := 0, copied, lost1, v;
    }

    method CopyAll()
      requires hash.Valid() && 0 !in hash.pages
      modifies this`snapshot, this`magic, hash`pages
      ensures hash.Valid() && 0 !in hash.pages && Snapshot(old(AllPages()), AllPages(), snapshot, ToCopy(old(AllPages())))
      ensures SameImages(old(hash.pages), hash.pages) && FirstComesLast(snapshot)
    {
      ghost var ps, first := hash.pages, magic;
      SnapshotPages();
      ghost var list := snapshot;
      if snapshot != [] || magic.dirty {
        magic := Snapped(magic);
        snapshot := snapshot + [0];
      }
      MagicNamed(list, DirtyOf(ps), first.dirty, snapshot);
      LastIsFirst(list, snapshot, DirtyOf(ps));
      MagicToCopy(ps, first);
      MagicSnapped(ps, hash.pages, first, magic, DirtyOf(ps), ToCopy(All(ps, first)));
    }

    /** Copies the changed pages. */
    method SnapshotPages()
      requires hash.Valid() && 0 !in hash.pages
      modifies this`snapshot, hash`pages
      ensures hash.Valid() && Snapshot(old(hash.pages), hash.pages, snapshot, DirtyOf(old(hash.pages)))
    {
      ghost var ps, dirty := hash.pages, DirtyOf(hash.pages);
      var all := hash.Collect();
      var k := 0;
      snapshot := [];
      ghost var s: set<nat> := {};
      while k < |all|
        invariant k <= |all| && hash.Valid() && Snapshot(ps, hash.pages, snapshot, s * dirty) && s == Firsts(all, k)
        decreases |all| - k
      {
        NextFirst(all, k);
        SnapshotOne(all[k], ps, s, dirty);
        s, k := s + {all[k]}, k + 1;
      }
      assert s * dirty == dirty;
    }

    method SnapshotOne(i: nat, ghost ps: Pages, ghost s: set<nat>, ghost dirty: set<nat>)
      requires hash.Valid() && Snapshot(ps, hash.pages, snapshot, s * dirty) && dirty == DirtyOf(ps) && i in ps && i !in s
      modifies this`snapshot, hash`pages
      ensures hash.Valid() && Snapshot(ps, hash.pages, snapshot, (s + {i}) * dirty)
    {
      ghost var ps1 := hash.pages;
      OneNamed(snapshot, s * dirty, i);
      var some := hash.SetSnapshot(i);
      if some { snapshot := snapshot + [i]; }
      OneSnapped(ps, ps1, hash.pages, s, i, s + {i}, dirty);
    }

    /** One more of the copies is written to the file. */
    method SaveNext()
      requires Valid() && saved < |snapshot|
      modifies this`file, this`saved, this`taken
      ensures Valid() && View() == old(View()) && saved == old(saved) + 1 && taken == old(taken) - {snapshot[old(saved)]}
      ensures var i := snapshot[old(saved)]; i in AllPages() && file == old(file)[i := AllPages()[i].snap]
    {
      var i, n := snapshot[saved], saved + 1;
      OneWritten(snapshot, saved, taken, n);
      TakenThere(file, AllPages(), i, taken, lost, begun);
      var snap := if i == 0 then magic.snap else hash.pages[i].snap;
      WrittenBack(file, AllPages(), i, file[i := snap], taken, lost, begun);
      file := file[i := snap];
      saved, taken := n, taken - {i};
    }

    /** The copies are written one after the other, until all are or the file fails. */
    method SaveAll(until: nat) returns (ok: bool)
      requires Valid()
      modifies this`file, this`saved, this`taken
      ensures Valid() && View() == old(View()) && taken <= old(taken) && (ok <==> taken == {}) && (until >= |snapshot| ==> ok)
      ensures SameElsewhere(old(file), file, old(taken))
    {
      while saved < |snapshot| && saved < until
        invariant Valid() && View() == old(View()) && taken <= old(taken) && SameElsewhere(old(file), file, old(taken))
        decreases |snapshot| - saved
      {
        ghost var f, t, i := file, taken, snapshot[saved];
        SaveNext();
        ElsewhereStep(old(file), f, file, old(taken), t, i);
      }
      ok := saved == |snapshot|;
      NoneWaiting(snapshot, saved, taken);
    }

    /** Evicts what is too much.  What is shown stays as it was exactly when no page goes whose
        contents the file has not got. */
    method Cleanup()
      requires Valid()
      modifies hash
      ensures hash.Valid() && 0 !in hash.pages && hash.order == Left(old(hash.order), DirtyOf(old(hash.pages)), old(hash.size), hash.high, hash.low)
      ensures View() == old(View()) <==> Harmless(file, old(hash.pages), taken + lost, hash.order)
      ensures taken <= hash.pages.Keys + {0} ==> Valid()
      ensures hash.high == old(hash.high) && hash.low == old(hash.low) && hash.size <= old(hash.size)
    {
      ghost var ps := hash.pages;
      EvictClean();
      LeftShown(file, ps, hash.pages, magic, hash.order, taken, lost, begun);
    }

    method EvictClean()
      requires hash.Valid()
      modifies hash
      ensures hash.Valid() && hash.order == Left(old(hash.order), DirtyOf(old(hash.pages)), old(hash.size), hash.high, hash.low)
      ensures CleanGone(old(hash.pages), hash.pages, hash.order)
      ensures hash.high == old(hash.high) && hash.low == old(hash.low) && hash.size <= old(hash.size)
    {
      ghost var ps, order, size := hash.pages, hash.order, hash.size;
      hash.Cleanup();
      DirtyStay(ps, hash.pages, order, hash.order, size, hash.low);
      NoBigger(ps, hash.pages);
    }

    /** Ends the snapshot, written or not, and evicts what is too much. */
    method SnapshotRelease()
      requires Valid()
      modifies this`saved, this`taken, this`lost, hash
      ensures Valid() && taken == {} && lost == old(lost) + old(taken)
      ensures hash.order == Left(old(hash.order), DirtyOf(old(hash.pages)), old(hash.size), hash.high, hash.low)
      ensures View() == old(View()) <==> Harmless(file, old(hash.pages), lost, hash.order)
      ensures hash.high == old(hash.high) && hash.low == old(hash.low) && hash.size <= old(hash.size) && Holds(file, begun, lost)
    {
      Drop();
      Cleanup();
    }

    /** Nothing of the snapshot is written any more. */
    method Drop()
      requires Valid()
      modifies this`saved, this`taken, this`lost
      ensures Valid() && View() == old(View()) && taken == {} && lost == old(lost) + old(taken) && Holds(file, begun, lost)
    {
      Dropped(file, AllPages(), taken, lost, begun);
      AllWritten(file, AllPages(), lost + taken, begun);
      saved, taken, lost := |snapshot|, {}, lost + taken;
    }

    /** A whole checkpoint, of which the first copies up to `until` get into the file.  The file
        holds what was shown when it began, but for the copies that were lost.  What is shown stays
        as it was exactly when no page lost is evicted with contents that the file has not got. */
    method Checkpoint(until: nat) returns (ok: bool)
      requires Valid() && taken == {}
      modifies this, hash
      ensures Valid() && taken == {} && begun == old(View()) && Holds(file, begun, lost)
      ensures (until >= |snapshot| ==> ok) && Losses(old(lost), ToCopy(old(AllPages())), lost, ok)
      ensures View() == old(View()) <==> Harmless(file, old(hash.pages), lost, hash.order)
    {
      ghost var ps := hash.pages;
      ok := Store(until);
      ghost var ps1 := hash.pages;
      SnapshotRelease();
      SameHarmless(file, ps, ps1, lost, hash.order);
    }

    method Store(until: nat) returns (ok: bool)
      requires Valid() && taken == {}
      modifies this, hash`pages
      ensures Valid() && View() == old(View()) == begun && SameImages(old(hash.pages), hash.pages)
      ensures (until >= |snapshot| ==> ok) && Losses(old(lost), ToCopy(old(AllPages())), lost + taken, ok)
    {
      ghost var was := lost;
      SnapshotCreate();
      ghost var copied := taken;
      ok := SaveAll(until);
      LossesAre(was, copied, lost, taken, ok);
    }

    // -------------------------------------------------------------- requests

    /** Page i is as the plain map has it, and was so when the last checkpoint began. */
    ghost predicate ShowsPage(p: Plain, i: nat)
      reads this, hash
    {
      Intact() && (!p.open ==> taken == {}) && SameAt(View(), p.view, i) && SameAt(begun, p.begun, i)
    }

    /** What a client sees of the cache. */
    ghost predicate Shows(p: Plain)
      reads this, hash
    {
      forall i: nat {:trigger ShowsPage(p, i)} :: ShowsPage(p, i)
    }

    lemma Seen(p: Plain)
      requires Shows(p)
      ensures Valid() && lost == {} && View() == p.view && begun == p.begun && (!p.open ==> taken == {})
    {
      assert ShowsPage(p, 0);
      forall i: nat ensures SameAt(View(), p.view, i) && SameAt(begun, p.begun, i) { assert ShowsPage(p, i); }
      SameEverywhere(View(), p.view);
      SameEverywhere(begun, p.begun);
    }

    lemma ToSee(p: Plain)
      requires Valid() && lost == {} && View() == p.view && begun == p.begun && (!p.open ==> taken == {})
      ensures Shows(p)
    {
    }

    /** With no checkpoint open the file holds what was shown when the last one began. */
    lemma FileIsBegun(p: Plain)
      requires Shows(p) && !p.open
      ensures file == p.begun
    {
      Seen(p);
      AllWritten(file, AllPages(), lost, begun);
      HoldsAll(file, begun);
    }

    method ReadPage(i: nat, ghost p: Plain) returns (r: Option<Image>)
      requires Shows(p) && hash.size + 1 < LRU_LIMIT
      modifies hash
      ensures r == Answer(p, Read(i)) && hash.size <= old(hash.size) + (if r.Some? then 1 else 0) && (r.Some? ==> i == 0 || i in hash.pages)
      ensures Shows(p)
    {
      Seen(p);
      if i == 0 { r := Some(magic.image); } else { r := Load(i); }
      ToSee(p);
    }

    /** Changes a page, if there is one, that is loaded for it. */
    method ChangePage(i: nat, image: Image, ghost p: Plain) returns (r: Option<Image>)
      requires Shows(p) && hash.size + 1 < LRU_LIMIT
      modifies this`magic, hash
      ensures r == Answer(p, Change(i, image)) && hash.size <= old(hash.size) + 1
      ensures Shows(Effect(p, Change(i, image)))
    {
      r := ReadPage(i, p);
      if r.Some? { WriteTo(i, image, p); }
    }

    method WriteTo(i: nat, image: Image, ghost p: Plain)
      requires Shows(p) && (i == 0 || i in hash.pages) && i in p.view
      modifies this`magic, hash`pages
      ensures hash.size == old(hash.size)
      ensures Shows(Effect(p, Change(i, image)))
    {
      Seen(p);
      if i == 0 { WriteFirst(image); } else { Write(i, image); }
      ToSee(Effect(p, Change(i, image)));
    }

    /** A new page, if it is new. */
    method NewPage(i: nat, image: Image, ghost p: Plain) returns (r: Option<Image>)
      requires Shows(p) && hash.size + 1 < LRU_LIMIT
      modifies hash
      ensures r == Answer(p, New(i, image)) && hash.size <= old(hash.size) + 1
      ensures Shows(Effect(p, New(i, image)))
    {
      r := ReadPage(i, p);
      if r.None? { AddPage(i, image, p); }
    }

    method AddPage(i: nat, image: Image, ghost p: Plain)
      requires Shows(p) && i !in p.view && hash.size + 1 < LRU_LIMIT
      modifies hash
      ensures hash.size == old(hash.size) + 1
      ensures Shows(Effect(p, New(i, image)))
    {
      Seen(p);
      Extend(i, image);
      ToSee(Effect(p, New(i, image)));
    }

    method BeginSave(ghost p: Plain)
      requires Shows(p) && Allowed(p, Begin)
      modifies this, hash`pages
      ensures Shows(Effect(p, Begin))
    {
      Seen(p);
      SnapshotCreate();
      ToSee(Effect(p, Begin));
    }

    method SaveOne(ghost p: Plain)
      requires Shows(p) && Allowed(p, Save)
      modifies this`file, this`saved, this`taken
      ensures Shows(p)
    {
      Seen(p);
      if saved < |snapshot| { SaveNext(); }
      ToSee(p);
    }

    /** Writes the copies that are left. */
    method EndSave(ghost p: Plain)
      requires Shows(p) && Allowed(p, End)
      modifies this, hash
      ensures hash.size <= old(hash.size)
      ensures Shows(Effect(p, End))
    {
      SaveRest(p);
      Finish(p);
    }

    method SaveRest(ghost p: Plain)
      requires Shows(p)
      modifies this`file, this`saved, this`taken
      ensures Shows(p.(open := false))
    {
      Seen(p);
      var _ := SaveAll(|snapshot|);
      ToSee(p.(open := false));
    }

    method Finish(ghost p: Plain)
      requires Shows(p.(open := false))
      modifies this`saved, this`taken, this`lost, hash
      ensures hash.size <= old(hash.size)
      ensures Shows(p.(open := false))
    {
      Seen(p.(open := false));
      SnapshotRelease();
      ToSee(p.(open := false));
    }

    method EvictSome(ghost p: Plain)
      requires Shows(p) && Allowed(p, Evict)
      modifies hash
      ensures hash.size <= old(hash.size)
      ensures Shows(p)
    {
      Seen(p);
      NothingLost(file, hash.pages);
      Cleanup();
      ToSee(p);
    }

    /** Answers one request. */
    method Serve(q: Request, ghost p: Plain) returns (r: Option<Image>)
      requires Shows(p) && Allowed(p, q) && hash.size + 1 < LRU_LIMIT
      modifies this, hash
      ensures r == Answer(p, q) && hash.size <= old(hash.size) + 1
      ensures Shows(Effect(p, q))
    {
      r := None;
      if q.Read? || q.Change? || q.New? { r := ServePage(q, p); } else { ServeSave(q, p); }
    }

    method ServePage(q: Request, ghost p: Plain) returns (r: Option<Image>)
      requires Shows(p) && (q.Read? || q.Change? || q.New?) && hash.size + 1 < LRU_LIMIT
      modifies this`magic, hash
      ensures r == Answer(p, q) && hash.size <= old(hash.size) + 1
      ensures Shows(Effect(p, q))
    {
      match q
      case Read(i) => r := ReadPage(i, p);
      case Change(i, image) => r := ChangePage(i, image, p);
      case New(i, image) => r := NewPage(i, image, p);
    }

    method ServeSave(q: Request, ghost p: Plain)
      requires Shows(p) && Allowed(p, q) && (q.Begin? || q.Save? || q.End? || q.Evict?)
      modifies this, hash
      ensures hash.size <= old(hash.size)
      ensures Shows(Effect(p, q))
    {
      match q
      case Begin => BeginSave(p);
      case Save => SaveOne(p);
      case End => EndSave(p);
      case Evict => EvictSome(p);
    }
  }

  lemma OneBigger(ps: Pages, ps': Pages, i: nat)
    requires Gained(ps, ps', i)
    ensures |ps'| == |ps| + 1
  {
    assert |ps'.Keys| == |ps.Keys + {i}|;
  }

  lemma SameDirty(ps: Pages, ps': Pages, i: nat)
    requires Gained(ps, ps', i) && !ps'[i].dirty
    ensures DirtyOf(ps') == DirtyOf(ps)
  {
  }

  lemma NoBigger(was: Pages, ps: Pages)
    requires Leaves(was, ps)
    ensures |ps| <= |was|
  {
    assert was.Keys == ps.Keys + (was.Keys - ps.Keys);
  }

  lemma NotInOrder(ps: Pages, order: seq<nat>, lru: nat, i: nat)
    requires OrderOk(ps, order, lru) && i !in ps
    ensures Minus(order, i) == order
  {
    MinusSame(order, i);
  }

  lemma NoneWaiting(list: seq<nat>, k: nat, taken: set<nat>)
    requires Waiting(list, k, taken)
    ensures k == |list| <==> taken == {}
  {
    if k < |list| { assert list[k] == list[k..][0]; assert list[k] in taken; }
  }

  /** No dirty page is evicted. */
  lemma DirtyStay(ps: Pages, ps': Pages, order: seq<nat>, order': seq<nat>, size: nat, low: nat)
    requires InOrder(ps, order) && InOrder(ps', order') && size == |ps| && (order' == order || order' == Kept(order, DirtyOf(ps), size, low))
    ensures forall i {:trigger i in ps} :: i in ps && ps[i].dirty ==> i in ps'
  {
    RisingSize(ps, order);
    KeptWhich(order, DirtyOf(ps), size, low);
    forall i | i in ps && ps[i].dirty ensures i in ps' { assert i in DirtyOf(ps) && i in order; }
  }

  // ---------------------------------------------------------------- any number of requests

  /** All but the requests from k on are answered. */
  ghost predicate Answered(p: Plain, qs: seq<Request>, k: nat, p': Plain, rs: seq<Option<Image>>) {
    k <= |qs| && p' == Effects(p, qs[..k]) && rs == Answers(p, qs[..k])
  }

  lemma OneMoreAnswered(p: Plain, qs: seq<Request>, k: nat, n: nat, p1: Plain, rs: seq<Option<Image>>, r: Option<Image>)
    requires Answered(p, qs, k, p1, rs) && k < |qs| && n == k + 1 && r == Answer(p1, qs[k])
    ensures Answered(p, qs, n, Effect(p1, qs[k]), rs + [r])
  {
    assert qs[..n][..k] == qs[..k];
  }

  /** Whatever is read, changed, added, evicted and saved, also while a checkpoint is open: the
      answers and what is shown are those of a plain map, and when no checkpoint is open the file
      is what was shown when the last one began. */
  method ServeAll(cache: PageCache, qs: seq<Request>, ghost p: Plain) returns (rs: seq<Option<Image>>)
    requires cache.Shows(p) && AllAllowed(p, qs) && cache.hash.size + |qs| < LRU_LIMIT
    modifies cache, cache.hash
    ensures cache.Shows(Effects(p, qs)) && rs == Answers(p, qs)
    ensures !Effects(p, qs).open ==> cache.file == Effects(p, qs).begun
  {
    rs := [];
    ghost var p1 := p;
    var k := 0;
    while k < |qs|
      invariant cache.Shows(p1) && cache.hash.size <= old(cache.hash.size) + k && Answered(p, qs, k, p1, rs)
      decreases |qs| - k
    {
      var n := k + 1;
      assert Allowed(Effects(p, qs[..k]), qs[k]);
      var r := cache.Serve(qs[k], p1);
      OneMoreAnswered(p, qs, k, n, p1, rs, r);
      p1 := Effect(p1, qs[k]);
      rs, k := rs + [r], n;
    }
    assert qs[..k] == qs;
    if !p1.open { cache.FileIsBegun(p1); }
  }

  /** What was shown at the last Begin, whatever was asked since. */
  lemma {:induction false} LastBegin(p: Plain, qs: seq<Request>, b: nat)
    requires b < |qs| && qs[b] == Begin && forall k {:trigger qs[k]} :: b < k < |qs| ==> qs[k] != Begin
    ensures Effects(p, qs).begun == Effects(p, qs[..b]).view
    decreases |qs|
  {
    var n := |qs| - 1;
    var front := qs[..n];
    if b < n {
      LastBegin(p, front, b);
      assert front[..b] == qs[..b] && qs[n] != Begin;
    }
  }

  // ---------------------------------------------------------------- a page evicted too early

  /** With room for one page, page i is changed and copied for a checkpoint; before the copy is in
      the file, page j is read and what is too much evicted, as a walk does.  Then page i reads as
      it was before the change. */
  method EvictedTooEarly(f: File, i: nat, j: nat, x: Image) returns (before: Option<Image>, after: Option<Image>)
    requires i in f && j in f && i != j && i != 0 && j != 0
    ensures before == Some(x) && after == Some(f[i])
  {
    var cache := new PageCache(f, [], 1, 1);
    ghost var v := cache.View();
    LoadOne(cache, i, v);
    ChangeOne(cache, i, x, v);
    v := v[i := x];
    CopyChanged(cache, i, v);
    before := ReadTwo(cache, i, j, v);
    EvictOne(cache, i, j);
    after := FindOne(cache, i);
  }

  /** The pages cached, in the order of their use, and room for one page. */
  ghost predicate Cached(hash: PageHash, order: seq<nat>)
    reads hash
  {
    hash.order == order && hash.size <= 2 && hash.high == hash.low == 1
  }

  method LoadOne(cache: PageCache, i: nat, ghost v: map<nat, Image>)
    requires cache.Valid() && cache.View() == v && i in v && i != 0 && Cached(cache.hash, []) && cache.hash.size == 0
    modifies cache.hash
    ensures cache.Valid() && cache.View() == v && Cached(cache.hash, [i]) && i in cache.hash.pages
  {
    var one := cache.Load(i);
  }

  method ChangeOne(cache: PageCache, i: nat, x: Image, ghost v: map<nat, Image>)
    requires cache.Valid() && cache.View() == v && Cached(cache.hash, [i]) && i in cache.hash.pages
    modifies cache.hash`pages
    ensures cache.Valid() && cache.View() == v[i := x] && Cached(cache.hash, [i])
  {
    cache.Write(i, x);
  }

  method CopyChanged(cache: PageCache, i: nat, ghost v: map<nat, Image>)
    requires cache.Valid() && cache.View() == v && cache.taken == {} && Cached(cache.hash, [i])
    modifies cache`snapshot, cache`saved, cache`taken, cache`lost, cache`begun, cache`magic, cache.hash`pages
    ensures cache.Valid() && cache.View() == v && DirtyOf(cache.hash.pages) == {} && Cached(cache.hash, [i])
  {
    ghost var all := cache.AllPages();
    cache.SnapshotCreate();
    NoneDirty(all, cache.hash.pages, cache.magic);
  }

  lemma NoneDirty(all: Pages, ps: Pages, magic: Page)
    requires 0 !in ps && AllSnapped(all, All(ps, magic), ToCopy(all))
    ensures DirtyOf(ps) == {}
  {
    forall i | i in ps ensures !ps[i].dirty { assert i in All(ps, magic) && (i in DirtyOf(all) ==> i in ToCopy(all)); }
  }

  /** Page i and then page j. */
  method ReadTwo(cache: PageCache, i: nat, j: nat, ghost v: map<nat, Image>) returns (one: Option<Image>)
    requires cache.Valid() && cache.View() == v && Cached(cache.hash, [i]) && DirtyOf(cache.hash.pages) == {}
    requires i in v && j in v && i != j && i != 0 && j != 0
    modifies cache.hash
    ensures cache.Valid() && DirtyOf(cache.hash.pages) == {} && one == Some(v[i])
    ensures cache.hash.order == [i, j] && cache.hash.high == cache.hash.low == 1
  {
    UsedNext(i, j);
    one := cache.Load(i);
    var two := cache.Load(j);
  }

  lemma UsedNext(i: nat, j: nat)
    requires i != j
    ensures Minus([i], i) + [i] == [i] && Minus([i], j) + [j] == [i, j]
  {
    assert [i][1..] == [];
  }

  method EvictOne(cache: PageCache, i: nat, j: nat)
    requires cache.Valid() && DirtyOf(cache.hash.pages) == {} && cache.hash.order == [i, j] && i != j && cache.hash.high == cache.hash.low == 1
    modifies cache.hash
    ensures cache.hash.Valid() && i !in cache.hash.pages
  {
    TwoInOrder(cache.hash.pages, i, j);
    cache.Cleanup();
    assert cache.hash.order == [j];
    NotInOrder(cache.hash.pages, cache.hash.order, cache.hash.lru, i);
  }

  lemma TwoInOrder(ps: Pages, i: nat, j: nat)
    requires InOrder(ps, [i, j])
    ensures |ps| == 2 && Kept([i, j], {}, 2, 1) == [j]
  {
    RisingSize(ps, [i, j]);
  }

  method FindOne(cache: PageCache, i: nat) returns (r: Option<Image>)
    requires cache.hash.Valid() && i !in cache.hash.pages && i in cache.file
    modifies cache.hash
    ensures r == Some(cache.file[i])
  {
    var found := cache.hash.Find(i);
    r := if found then None else Some(cache.file[i]);
  }
}

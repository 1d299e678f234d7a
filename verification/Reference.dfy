/** Shared ownership of an object: handles of two kinds over a control block with two counters.
    Counters are changed under a lock; what follows a counter reaching zero is done outside it, so
    that it mixes with what other threads do. */
module Reference {
  import opened Common

  /** The control block's counters; the handles there are; what threads that let go of a handle have
      still to do; how often the object was destroyed and the block deleted. */
  datatype State = State(hard: int, weak: int,
                         hards: nat, weaks: nat,
                         toDestroy: nat, toRelease: nat, toDelete: nat,
                         destroyed: nat, deleted: nat)

  /** What a thread can do in one go, each using the control block. */
  datatype Action =
    | CopyHard        // a new hard handle from a hard one
    | MakeWeak        // a new weak handle from a hard one
    | CopyWeak        // a new weak handle from a weak one
    | Upgrade         // a hard handle from a weak one, if the object is still there
    | DropHard        // a hard handle goes: its count is taken down
    | DropWeak        // a weak handle goes: its count is taken down
    | Destroy         // the thread that took the hard count to zero destroys the object
    | ReleaseOwn      // and then gives up the weak count the hard handles share
    | Delete          // the thread that took the weak count to zero deletes the block

  const START := State(1, 1, 1, 0, 0, 0, 0, 0, 0)

  predicate Enabled(s: State, a: Action) {
    match a
    case CopyHard => s.hards > 0
    case MakeWeak => s.hards > 0
    case CopyWeak => s.weaks > 0
    case Upgrade => s.weaks > 0
    case DropHard => s.hards > 0
    case DropWeak => s.weaks > 0
    case Destroy => s.toDestroy > 0
    case ReleaseOwn => s.toRelease > 0
    case Delete => s.toDelete > 0
  }

  function Next(s: State, a: Action): State
    requires Enabled(s, a)
  {
    match a
    case CopyHard => s.(hard := s.hard + 1, hards := s.hards + 1)
    case MakeWeak => s.(weak := s.weak + 1, weaks := s.weaks + 1)
    case CopyWeak => s.(weak := s.weak + 1, weaks := s.weaks + 1)
    case Upgrade => if s.hard == 0 then s else s.(hard := s.hard + 1, hards := s.hards + 1)
    case DropHard =>
      var t := s.(hard := s.hard - 1, hards := s.hards - 1);
      if t.hard != 0 then t else t.(toDestroy := t.toDestroy + 1)
    case DropWeak => WeakDown(s.(weaks := s.weaks - 1))
    case Destroy => s.(toDestroy := s.toDestroy - 1, destroyed := s.destroyed + 1, toRelease := s.toRelease + 1)
    case ReleaseOwn => WeakDown(s.(toRelease := s.toRelease - 1))
    case Delete => s.(toDelete := s.toDelete - 1, deleted := s.deleted + 1)
  }

  function WeakDown(s: State): State {
    var t := s.(weak := s.weak - 1);
    if t.weak != 0 then t else t.(toDelete := t.toDelete + 1)
  }

  /** The one weak count that the hard handles share: theirs, or that of the thread that let go of
      the last of them and is not done yet. */
  function Own(s: State): nat {
    s.toDestroy + s.toRelease + if s.hard > 0 then 1 else 0
  }

  predicate Inv(s: State) {
    && s.hard == s.hards && Own(s) <= 1 && s.weak == s.weaks + Own(s)
    && s.destroyed + s.toDestroy == (if s.hard > 0 then 0 else 1)
    && s.deleted + s.toDelete == (if s.weak == 0 then 1 else 0)
  }

  lemma StepKeeps(s: State, a: Action)
    requires Inv(s) && Enabled(s, a)
    ensures Inv(Next(s, a))
  {
  }

  /** The state after the steps of any number of threads in this order, if they can come so. */
  function After(run: seq<Action>): Option<State>
    decreases |run|
  {
    if run == [] then Some(START)
    else
      var s := After(run[..|run| - 1]);
      if s.Some? && Enabled(s.value, run[|run| - 1]) then Some(Next(s.value, run[|run| - 1])) else None
  }

  lemma {:induction false} RunsKeep(s: State, run: seq<Action>)
    requires After(run) == Some(s)
    ensures Inv(s)
    decreases |run|
  {
    if run != [] {
      var n := |run| - 1;
      RunsKeep(After(run[..n]).value, run[..n]);
      StepKeeps(After(run[..n]).value, run[n]);
    }
  }

  /** The object is destroyed once at most, and not while there is a hard handle; the block is
      deleted once at most, after the object was destroyed and when no handle and no thread needs
      it; when all handles are gone and all threads done, both have happened. */
  lemma Lifetimes(s: State, run: seq<Action>)
    requires After(run) == Some(s)
    ensures s.destroyed <= 1 && (s.hards > 0 ==> s.destroyed == 0)
    ensures s.deleted <= 1 && (s.deleted == 1 ==> s.destroyed == 1 && s.hards == 0 && s.weaks == 0 && s.toDestroy == s.toRelease == 0)
    ensures s.hards == s.weaks == 0 && s.toDestroy == s.toRelease == s.toDelete == 0 ==> s.destroyed == 1 && s.deleted == 1
  {
    RunsKeep(s, run);
  }

  /** Whatever a thread can do next, the block it uses is still there, and the counters it takes
      down are not zero. */
  lemma NeverTooLate(s: State, run: seq<Action>, a: Action)
    requires After(run) == Some(s) && Enabled(s, a)
    ensures s.deleted == 0
    ensures a.DropHard? ==> s.hard > 0
    ensures a.DropWeak? || a.ReleaseOwn? ==> s.weak > 0
  {
    RunsKeep(s, run);
  }

  /** An upgrade gives a hard handle exactly when there is one already, and then the object has
      not been destroyed; what was destroyed is never given out again. */
  lemma UpgradeOnlyAlive(s: State, run: seq<Action>)
    requires After(run) == Some(s) && Enabled(s, Upgrade)
    ensures var t := Next(s, Upgrade); (t.hards == s.hards + 1 <==> s.hards > 0) && (t.hards > s.hards ==> t.destroyed == 0)
    ensures s.destroyed == 1 ==> Next(s, Upgrade) == s
  {
    RunsKeep(s, run);
  }

  /** Every step taken after a handle went brings the clearing up nearer to its end. */
  function Pending(s: State): nat {
    3 * s.toDestroy + 2 * s.toRelease + s.toDelete
  }

  /** What is pending is done in three steps at most, when nobody interferes. */
  lemma {:induction false} ClearsUp(s: State, run: seq<Action>) returns (t: State, run': seq<Action>)
    requires After(run) == Some(s)
    ensures After(run') == Some(t) && t.toDestroy == t.toRelease == t.toDelete == 0 && t.hards == s.hards && t.weaks == s.weaks
    ensures |run'| <= |run| + Pending(s) <= |run| + 3
    decreases Pending(s)
  {
    RunsKeep(s, run);
    t, run' := s, run;
    if Pending(s) > 0 {
      var a := if s.toDestroy > 0 then Destroy else if s.toRelease > 0 then ReleaseOwn else Delete;
      var next := run + [a];
      assert next[..|next| - 1] == run;
      t, run' := ClearsUp(Next(s, a), next);
    }
  }

  /** What each step does to the handles there are: a copy is one more, a drop one less, and what
      threads have still to do leaves them alone. */
  lemma HandlesAfter(s: State, run: seq<Action>, a: Action)
    requires After(run) == Some(s) && Enabled(s, a)
    ensures Next(s, a).hards - s.hards ==
      if a.CopyHard? || (a.Upgrade? && s.hards > 0) then 1 else if a.DropHard? then -1 else 0
    ensures Next(s, a).weaks - s.weaks == if a.MakeWeak? || a.CopyWeak? then 1 else if a.DropWeak? then -1 else 0
  {
    Agrees(s, run);
    match a
    case Upgrade =>
    case DropWeak =>
    case ReleaseOwn =>
    case _ =>
  }

  lemma Agrees(s: State, run: seq<Action>)
    requires After(run) == Some(s)
    ensures s.hard == s.hards
  {
    RunsKeep(s, run);
  }

  /** When nothing is pending the handles decide everything else. */
  lemma HandlesDecide(s: State, t: State)
    requires Inv(s) && Inv(t) && s.hards == t.hards && s.weaks == t.weaks && Pending(s) == Pending(t) == 0
    ensures s == t
  {
    assert s.toDestroy == s.toRelease == s.toDelete == t.toDestroy == t.toRelease == t.toDelete == 0;
  }

  /** Dropping a handle and clearing up takes that handle away and no other; the object is then
      destroyed exactly when no hard handle is left, and the block deleted when none is left at all. */
  lemma Dropped(s: State, run: seq<Action>, a: Action) returns (t: State, run': seq<Action>)
    requires After(run) == Some(s) && Enabled(s, a) && (a.DropHard? || a.DropWeak?)
    ensures After(run') == Some(t) && Inv(t) && Pending(t) == 0
    ensures t.hards == (if a.DropHard? then s.hards - 1 else s.hards) && t.weaks == (if a.DropWeak? then s.weaks - 1 else s.weaks)
    ensures t.destroyed == (if t.hards == 0 then 1 else 0) && t.deleted == (if t.hards == t.weaks == 0 then 1 else 0)
  {
    HandlesAfter(s, run, a);
    var next := run + [a];
    assert next[..|next| - 1] == run;
    t, run' := ClearsUp(Next(s, a), next);
    RunsKeep(t, run');
  }

  /** The control block as one thread drives it, its calls not interrupted by others. */
  class Block {
    var hardCount: int
    var weakCount: int
    var destroyed: nat
    var deleted: nat
    ghost var hards: nat
    ghost var weaks: nat

    ghost function Now(): State
      reads this
    {
      State(hardCount, weakCount, hards, weaks, 0, 0, 0, destroyed, deleted)
    }

    constructor ()
      ensures Now() == START
    {
      hardCount, weakCount, destroyed, deleted, hards, weaks := 1, 1, 0, 0, 1, 0;
    }

    /** The state that `Dropped` ends in, by `HandlesDecide`. */
    method HardRelease()
      requires Inv(Now()) && Enabled(Now(), DropHard)
      modifies this
      ensures Inv(Now()) && hards == old(hards) - 1 && weaks == old(weaks)
      ensures destroyed == (if hards == 0 then 1 else 0) && deleted == (if hards == 0 && weaks == 0 then 1 else 0)
    {
      hardCount, hards := hardCount - 1, hards - 1;
      if hardCount != 0 { return; }
      destroyed := destroyed + 1;
      weakCount := weakCount - 1;
      if weakCount != 0 { return; }
      deleted := deleted + 1;
    }

    method WeakRelease()
      requires Inv(Now()) && Enabled(Now(), DropWeak)
      modifies this
      ensures Inv(Now()) && weaks == old(weaks) - 1 && hards == old(hards)
      ensures destroyed == old(destroyed) && deleted == (if hards == 0 && weaks == 0 then 1 else 0)
    {
      weakCount, weaks := weakCount - 1, weaks - 1;
      if weakCount != 0 { return; }
      deleted := deleted + 1;
    }

    method HardRef()
      requires Inv(Now()) && Enabled(Now(), CopyHard)
      modifies this
      ensures Inv(Now()) && hards == old(hards) + 1 && weaks == old(weaks) && destroyed == old(destroyed) && deleted == old(deleted)
    {
      hardCount, hards := hardCount + 1, hards + 1;
    }

    /** True when the object is gone. */
    method HardRefCheck() returns (gone: bool)
      requires Inv(Now()) && Enabled(Now(), Upgrade)
      modifies this
      ensures Now() == Next(old(Now()), Upgrade) && gone == (old(hards) == 0)
      ensures Inv(Now()) && hards == (if gone then old(hards) else old(hards) + 1) && weaks == old(weaks)
    {
      if hardCount == 0 { return true; }
      hardCount, hards := hardCount + 1, hards + 1;
      gone := false;
    }

    method WeakRef()
      requires Inv(Now()) && (Enabled(Now(), CopyWeak) || Enabled(Now(), MakeWeak))
      modifies this
      ensures Inv(Now()) && weaks == old(weaks) + 1 && hards == old(hards) && destroyed == old(destroyed) && deleted == old(deleted)
    {
      weakCount, weaks := weakCount + 1, weaks + 1;
    }
  }

  /** A hard handle to block a takes over what a hard handle to another block b refers to: it lets
      go of a first.  `inside` tells that the handle to b is part of the object of a.  The handle
      is gone by the time it is read, and b has one less for it, exactly when it was inside and a
      had no other; otherwise a has one less and b one more. */
  method Assign(a: Block, b: Block, inside: bool) returns (gone: bool)
    requires a != b && Inv(a.Now()) && Inv(b.Now()) && a.hards > 0 && b.hards > 0
    modifies a, b
    ensures Inv(a.Now()) && Inv(b.Now()) && (gone <==> inside && old(a.hards) == 1)
    ensures a.hards == old(a.hards) - 1
    ensures if gone then b.hards == old(b.hards) - 1 else b.hards == old(b.hards) + 1
  {
    gone := LetGo(a, inside);
    if gone { b.HardRelease(); } else { b.HardRef(); }
  }

  /** Whether a handle inside the object goes with it. */
  method LetGo(a: Block, inside: bool) returns (gone: bool)
    requires Inv(a.Now()) && a.hards > 0
    modifies a
    ensures Inv(a.Now()) && a.hards == old(a.hards) - 1 && (gone <==> inside && old(a.hards) == 1)
  {
    a.HardRelease();
    gone := inside && a.destroyed > 0;
  }
}

/** Page indices: the free list threaded through the free pages, and the file's high mark. */
module PagePool {
  import opened Common

  /** The list starts at `head` and follows the link kept in each free page. */
  ghost predicate Linked(head: nat, link: map<nat, nat>, free: seq<nat>)
    decreases |free|
  {
    if free == [] then head == 0
    else head == free[0] && head in link && Linked(link[head], link, free[1..])
  }

  /** Every page of the file is either handed out or on the free list, and there once. */
  ghost predicate Conserved(free: seq<nat>, used: set<nat>, max: nat) {
    && Distinct(free)
    && (forall x :: x in used ==> 1 <= x <= max)
    && (forall x :: x in free ==> 1 <= x <= max && x !in used)
    && (forall x :: 1 <= x <= max ==> x in used || x in free)
  }

  lemma PopConserved(free: seq<nat>, used: set<nat>, max: nat)
    requires Conserved(free, used, max) && free != []
    ensures Conserved(free[1..], used + {free[0]}, max)
  {
    var rest := free[1..];
    assert free == [free[0]] + rest;
    forall i | 0 <= i < |rest| ensures rest[i] in free && rest[i] != free[0] {
      assert rest[i] == free[i + 1];
    }
  }

  lemma PushConserved(p: nat, free: seq<nat>, used: set<nat>, max: nat)
    requires Conserved(free, used, max) && p in used
    ensures Conserved([p] + free, used - {p}, max)
  {
  }

  lemma {:induction false} LinkedElsewhere(head: nat, link: map<nat, nat>, free: seq<nat>, p: nat, x: nat)
    requires Linked(head, link, free) && p !in free
    ensures Linked(head, link[p := x], free)
    decreases |free|
  {
    if free != [] { LinkedElsewhere(link[head], link, free[1..], p, x); }
  }

  class PageAllocator {
    var freePageList: nat            // first free page, 0 when there is none
    var maxPageIdx: nat
    var link: map<nat, nat>          // the word a free page keeps: the next free page
    ghost var free: seq<nat>         // the free list
    ghost var used: set<nat>         // pages handed out

    ghost predicate Valid()
      reads this
    {
      Linked(freePageList, link, free) && Conserved(free, used, maxPageIdx)
    }

    constructor ()
      ensures Valid() && used == {} && maxPageIdx == 0
    {
      freePageList, maxPageIdx, link := 0, 0, map[];
      free, used := [], {};
    }

    method Alloc() returns (p: nat)
      requires Valid()
      modifies this
      ensures Valid() && p != 0
      ensures p !in old(used) && used == old(used) + {p}
      ensures if old(free) == [] then p == old(maxPageIdx) + 1 && maxPageIdx == p && free == []
              else p == old(free)[0] && free == old(free)[1..] && maxPageIdx == old(maxPageIdx)
    {
      assert free != [] ==> free[0] in free;
      if freePageList != 0 {
        PopConserved(free, used, maxPageIdx);
        p := freePageList;
        freePageList := link[p];
        free := free[1..];
      } else {
        maxPageIdx := maxPageIdx + 1;
        p := maxPageIdx;
      }
      used := used + {p};
    }

    method Free(p: nat)
      requires Valid() && p in used
      modifies this
      ensures Valid()
      ensures used == old(used) - {p} && free == [p] + old(free) && maxPageIdx == old(maxPageIdx)
    {
      PushConserved(p, free, used, maxPageIdx);
      LinkedElsewhere(freePageList, link, free, p, freePageList);
      link := link[p := freePageList];
      freePageList := p;
      free := [p] + free;
      used := used - {p};
      assert free[1..] == old(free);
    }
  }
}

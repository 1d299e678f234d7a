/** Index pages as the cache holds them: fixed arrays of keys and child links, and the header
    kept in the spare last entry.  The methods are the accessors the tree code is written in. */
module IndexPages {
  import opened Common
  import opened TreeShape
  import opened PagePool

  const INDEXCOUNT: nat := PAGEUSED / 16 - 1
  const INDEXMINL: nat := INDEXCOUNT / 2
  const INDEXMINR: nat := INDEXCOUNT - INDEXMINL - 1
  const INDEXSLIPR: nat := (INDEXCOUNT - INDEXMINR) / 2 + 1
  const INDEXSLIPL: nat := (INDEXCOUNT - INDEXMINR) / 2

  const NO_SLOT := Slot(0.0, [], 0, 0, 0)

  /** The contents of a page. */
  datatype IndexPage = IndexPage(slot: seq<Slot>, child: seq<nat>,
                                 lPos: nat, rPos: nat, parentIndex: nat, parentPos: int)

  function EmptyPage(): IndexPage {
    IndexPage(seq(INDEXCOUNT, i => NO_SLOT), seq(INDEXCOUNT + 1, i => 0), 0, 0, 0, 0)
  }

  function WithSlot(v: map<nat, IndexPage>, p: nat, i: nat, s: Slot): map<nat, IndexPage>
    requires p in v && i < |v[p].slot|
  {
    v[p := v[p].(slot := v[p].slot[i := s])]
  }

  function WithChild(v: map<nat, IndexPage>, p: nat, i: nat, c: nat): map<nat, IndexPage>
    requires p in v && i < |v[p].child|
  {
    v[p := v[p].(child := v[p].child[i := c])]
  }

  function WithWindow(v: map<nat, IndexPage>, p: nat, l: nat, r: nat): map<nat, IndexPage>
    requires p in v
  {
    v[p := v[p].(lPos := l, rPos := r)]
  }

  function WithParent(v: map<nat, IndexPage>, p: nat, index: nat, pos: int): map<nat, IndexPage>
    requires p in v
  {
    v[p := v[p].(parentIndex := index, parentPos := pos)]
  }

  /** Adds d to the position a page keeps of itself in its parent. */
  function Bumped(v: map<nat, IndexPage>, p: nat, d: int): map<nat, IndexPage>
    requires p in v
  {
    v[p := v[p].(parentPos := v[p].parentPos + d)]
  }

  function Pasted(s: IndexPage, a: nat, d: IndexPage, b: nat, n: nat): IndexPage
    requires a + n <= |s.slot| && a + n < |s.child|
  {
    d.(slot := seq(|d.slot|, i requires 0 <= i < |d.slot| => if b <= i < b + n then s.slot[a + i - b] else d.slot[i]),
       child := seq(|d.child|, i requires 0 <= i < |d.child| => if b <= i <= b + n then s.child[a + i - b] else d.child[i]))
  }

  class IndexCache {
    const pool: PageAllocator
    var view: map<nat, IndexPage>

    constructor (pool: PageAllocator)
      ensures view == map[] && this.pool == pool
    {
      this.pool := pool;
      view := map[];
    }

    method SetSlot(p: nat, i: nat, s: Slot)
      requires p in view && i < |view[p].slot|
      modifies this`view
      ensures view == WithSlot(old(view), p, i, s)
    {
      view := WithSlot(view, p, i, s);
    }

    method SetChild(p: nat, i: nat, c: nat)
      requires p in view && i < |view[p].child|
      modifies this`view
      ensures view == WithChild(old(view), p, i, c)
    {
      view := WithChild(view, p, i, c);
    }

    method SetWindow(p: nat, l: nat, r: nat)
      requires p in view
      modifies this`view
      ensures view == WithWindow(old(view), p, l, r)
    {
      view := WithWindow(view, p, l, r);
    }

    method SetParent(p: nat, index: nat, pos: int)
      requires p in view
      modifies this`view
      ensures view == WithParent(old(view), p, index, pos)
    {
      view := WithParent(view, p, index, pos);
    }

    method Bump(p: nat, d: int)
      requires p in view
      modifies this`view
      ensures view == Bumped(old(view), p, d)
    {
      view := Bumped(view, p, d);
    }

    /** memcpy of n keys with the children on both sides of them, to another page. */
    method CopyBlock(src: nat, a: nat, dst: nat, b: nat, n: nat)
      requires src in view && dst in view && a + n <= |view[src].slot| && a + n < |view[src].child|
      modifies this`view
      ensures view == old(view)[dst := Pasted(old(view)[src], a, old(view)[dst], b, n)]
    {
      view := view[dst := Pasted(view[src], a, view[dst], b, n)];
    }

    /** A fresh, zeroed page. */
    method Alloc() returns (p: nat)
      requires pool.Valid() && view.Keys <= pool.used
      modifies this`view, pool
      ensures pool.Valid() && p != 0 && p !in old(view) && p !in old(pool.used) && pool.used == old(pool.used) + {p}
      ensures view == old(view)[p := EmptyPage()]
    {
      p := pool.Alloc();
      view := view[p := EmptyPage()];
    }

    method Free(p: nat)
      requires pool.Valid() && p in view && p in pool.used
      modifies this`view, pool
      ensures pool.Valid() && pool.used == old(pool.used) - {p} && view == old(view) - {p}
    {
      pool.Free(p);
      view := view - {p};
    }
  }
}

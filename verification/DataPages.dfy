/** The allocator of blocks inside data pages. */
module DataPages {
  import opened Common
  import opened Blocks
  import PagePool

  /** The blocks in use other than a are the same in v and w. */
  ghost predicate SameUse(v: Space, w: Space, a: Addr) {
    forall c: Addr {:trigger InUse(v, c)} {:trigger InUse(w, c)} :: c != a ==> (InUse(v, c) <==> InUse(w, c)) && (InUse(v, c) ==> w[c] == v[c])
  }

  /** The pages in use before and after block a was chosen for `size` bytes. */
  ghost predicate Chosen(v: Space, st: map<Addr, nat>, used: set<nat>, size: nat, a: Addr, used': set<nat>) {
    if NoRoom(v, size) then a.pos == 0 && a.page !in used && used' == used + {a.page}
    else used' == used && BestFit(v, st, size, a)
  }

  /** Block a was cut off behind its first `size` bytes, at the next multiple of 16; the rest, and
      the free block behind it if there was one, are one free block. */
  ghost predicate CutBehind(v: Space, w: Space, a: Addr, size: nat) {
    && a in v && a in w
    && var at := w[a].next;
    && at % 16 == 0 && a.pos + HDR + size <= at < a.pos + HDR + size + 16 && at < v[a].next && Free(w, Addr(a.page, at))
    && w[Addr(a.page, at)].next == if Free(v, After(v, a)) then v[After(v, a)].next else v[a].next
  }

  predicate InUse(v: Space, a: Addr) {
    a in v && v[a].size > 0
  }

  ghost function PagesOf(v: Space): set<nat> {
    set a | a in v :: a.page
  }

  /** A page without a block in use is no data page. */
  ghost predicate NoneEmpty(v: Space) {
    forall a {:trigger Free(v, a)} :: Free(v, a) ==> Capacity(v, a) != PAGEMAXSPARE
  }

  /** The space between operations. */
  ghost predicate Settled(v: Space, h: seq<Addr>, st: map<Addr, nat>, now: nat) {
    && Tiled(v) && Listed(v, h, st, {}) && PartedBut(v, NIL, NIL) && NoneEmpty(v)
    && forall b {:trigger b in st} :: b in st ==> st[b] < now
  }

  /** Everything is settled but for the free block a, which is on no list yet, and may be
      followed by a free block when it is x or y. */
  ghost predicate Loose(v: Space, h: seq<Addr>, st: map<Addr, nat>, now: nat, a: Addr, x: Addr, y: Addr) {
    && Tiled(v) && Listed(v, h, st, {a}) && PartedBut(v, x, y) && Free(v, a)
    && OthersWhole(v, a)
    && forall b {:trigger b in st} :: b in st ==> st[b] < now
  }

  ghost predicate OthersWhole(v: Space, a: Addr) {
    forall b {:trigger Free(v, b)} :: Free(v, b) && b != a ==> Capacity(v, b) != PAGEMAXSPARE
  }

  // ---------------------------------------------------------------- pages in use

  /** A data page has a block in use. */
  lemma PageInUse(v: Space, h: seq<Addr>, st: map<Addr, nat>, now: nat, p: nat) returns (a: Addr)
    requires Settled(v, h, st, now) && p in PagesOf(v)
    ensures InUse(v, a) && a.page == p
  {
    var b :| b in v && b.page == p;
    assert BlockOk(v, b);
    a := Addr(p, 0);
    if Free(v, a) {
      assert BlockOk(v, a) && Parted(v, NIL, NIL, a);
      a := After(v, a);
    }
  }

  lemma SamePages(v: Space, w: Space)
    requires Tiled(v) && Tiled(w)
    requires forall c: Addr {:trigger c in v} :: c.pos == 0 ==> (c in v <==> c in w)
    ensures PagesOf(v) == PagesOf(w)
  {
    forall p | p in PagesOf(v) ensures p in PagesOf(w) {
      var c :| c in v && c.page == p;
      assert BlockOk(v, c) && Addr(p, 0) in w;
    }
    forall p | p in PagesOf(w) ensures p in PagesOf(v) {
      var c :| c in w && c.page == p;
      assert BlockOk(w, c) && Addr(p, 0) in v;
    }
  }

  /** Changing links changes nothing but the lists. */
  lemma Relinked(v: Space, w: Space)
    requires LinksOnly(v, w)
    ensures PagesOf(w) == PagesOf(v) && SameUse(v, w, NIL)
    ensures forall c: Addr {:trigger Free(w, c)} {:trigger Free(v, c)} :: (Free(w, c) <==> Free(v, c)) && (Free(v, c) ==> Capacity(w, c) == Capacity(v, c))
  {
    forall c: Addr ensures (InUse(v, c) <==> InUse(w, c)) && (InUse(v, c) ==> w[c] == v[c]) { }
    forall c: Addr ensures (Free(w, c) <==> Free(v, c)) && (Free(v, c) ==> Capacity(w, c) == Capacity(v, c)) { }
  }

  lemma NotYet(v: Space, p: nat, used: set<nat>)
    requires PagesOf(v) <= used && p !in used
    ensures NoBlocks(v, p)
  {
    forall c | c in v ensures c.page != p { assert c.page in PagesOf(v); }
  }

  lemma Grown(v: Space, p: nat, used: set<nat>)
    requires NoBlocks(v, p) && PagesOf(v) <= used && p !in used
    ensures var w := WithFresh(v, p);
            && PagesOf(w) <= used + {p} && (used + {p}) - PagesOf(w) == used - PagesOf(v) && SameUse(v, w, NIL)
            && forall b {:trigger Free(w, b)} :: Free(w, b) && b != Addr(p, 0) ==> Free(v, b) && Capacity(w, b) == Capacity(v, b)
  {
    var w, a := WithFresh(v, p), Addr(p, 0);
    assert a in w && a.page == p;
    forall q | q in PagesOf(w) ensures q in PagesOf(v) || q == p { }
    forall q | q in PagesOf(v) ensures q in PagesOf(w) {
      var c :| c in v && c.page == q;
      assert c in w;
    }
    assert p in PagesOf(w);
    forall c: Addr ensures (InUse(v, c) <==> InUse(w, c)) && (InUse(v, c) ==> w[c] == v[c]) { }
  }

  lemma Dropped(v: Space, a: Addr, used: set<nat>)
    requires a in v && Free(v, a) && NoBlocks(v - {a}, a.page) && PagesOf(v) <= used
    ensures var w := v - {a};
            && a.page in used && PagesOf(w) <= used - {a.page} && (used - {a.page}) - PagesOf(w) == used - PagesOf(v)
            && SameUse(v, w, NIL)
  {
    var w := v - {a};
    assert a.page in PagesOf(v);
    forall q | q in PagesOf(v) && q != a.page ensures q in PagesOf(w) {
      var c :| c in v && c.page == q;
      assert c in w;
    }
    forall q | q in PagesOf(w) ensures q in PagesOf(v) && q != a.page {
      var c :| c in w && c.page == q;
      assert c in v;
    }
    forall c: Addr ensures (InUse(v, c) <==> InUse(w, c)) && (InUse(v, c) ==> w[c] == v[c]) { }
  }

  lemma UseThrough(v: Space, w: Space, u: Space, a: Addr, b: Addr, c: Addr)
    requires SameUse(v, w, a) && SameUse(w, u, b) && (a == c || a == NIL) && (b == c || b == NIL)
    requires !InUse(v, NIL) && !InUse(w, NIL) && !InUse(u, NIL)
    ensures SameUse(v, u, c)
  {
    forall d: Addr | d != c ensures (InUse(v, d) <==> InUse(u, d)) && (InUse(v, d) ==> u[d] == v[d]) {
      assert InUse(w, d) || !InUse(w, d);
    }
  }

  lemma NilFree(v: Space)
    requires Tiled(v)
    ensures NIL !in v
  {
    assert NIL in v ==> BlockOk(v, NIL);
  }

  // ---------------------------------------------------------------- joining free blocks

  /** The free block b behind a, both on no list, joins a. */
  lemma Joined(v: Space, h: seq<Addr>, st: map<Addr, nat>, now: nat, a: Addr, b: Addr, x: Addr, y: Addr)
    requires Tiled(v) && Listed(v, h, st, {a, b}) && PartedBut(v, x, y) && Free(v, a) && Free(v, b) && b == After(v, a)
    requires x == a && (y == a || y == b)
    requires forall c {:trigger Free(v, c)} :: Free(v, c) && c != a && c != b ==> Capacity(v, c) != PAGEMAXSPARE
    requires forall c {:trigger c in st} :: c in st ==> st[c] < now
    ensures var w := Merged(v, a, b);
            && Loose(w, h, st, now, a, if y == b then a else NIL, if y == b then a else NIL)
            && PagesOf(w) == PagesOf(v) && SameUse(v, w, NIL)
  {
    var w := Merged(v, a, b);
    assert BlockOk(v, a) && BlockOk(v, b);
    MergeTiled(v, a, b);
    MergeParted(v, a, b, x, y);
    ListedStill(v, w, h, st, {a, b}, {a});
    SamePages(v, w);
    forall c: Addr ensures (InUse(v, c) <==> InUse(w, c)) && (InUse(v, c) ==> w[c] == v[c]) { }
    forall c: Addr | Free(w, c) && c != a ensures Capacity(w, c) != PAGEMAXSPARE { assert Free(v, c); }
  }

  lemma ReleasedLoose(v: Space, h: seq<Addr>, st: map<Addr, nat>, now: nat, a: Addr, p: Addr)
    requires Settled(v, h, st, now) && InUse(v, a) && p in v && if a.pos == 0 then p == a else After(v, p) == a
    ensures var w := Released(v, a);
            && Loose(w, h, st, now, a, p, a) && PagesOf(w) == PagesOf(v) && SameUse(v, w, a)
  {
    var w := Released(v, a);
    ReleaseTiled(v, a);
    ReleaseParted(v, a, p);
    ListedStill(v, w, h, st, {}, {a});
    SamePages(v, w);
    forall c: Addr | c != a ensures (InUse(v, c) <==> InUse(w, c)) && (InUse(v, c) ==> w[c] == v[c]) { }
    forall c: Addr | Free(w, c) && c != a ensures Capacity(w, c) != PAGEMAXSPARE { assert Free(v, c); }
  }

  /** No free block in front of a, or none behind: one exception less. */
  lemma NotInFront(v: Space, a: Addr, p: Addr)
    requires PartedBut(v, p, a) && (p == a || !Free(v, p))
    ensures PartedBut(v, a, a)
  {
    forall c: Addr ensures Parted(v, a, a, c) { assert Parted(v, p, a, c); }
  }

  lemma NotBehind(v: Space, a: Addr)
    requires PartedBut(v, a, a) && a in v && !Free(v, After(v, a))
    ensures PartedBut(v, NIL, NIL)
  {
    forall c: Addr ensures Parted(v, NIL, NIL, c) { assert Parted(v, a, a, c); }
  }

  // ---------------------------------------------------------------- splitting

  /** After the block behind a, if free, came off its list, a can be shortened. */
  lemma CutLoose(v: Space, h: seq<Addr>, st: map<Addr, nat>, now: nat, a: Addr, at: nat)
    requires ShortenPre(v, a, at) && PartedBut(v, NIL, NIL) && |v[a].bytes| >= at - a.pos - HDR
    requires Listed(v, h, st, if Free(v, After(v, a)) then {After(v, a)} else {})
    requires NoneEmpty(v) && forall c {:trigger c in st} :: c in st ==> st[c] < now
    ensures var w := Shortened(v, a, at);
            && Loose(w, h, st, now, Addr(a.page, at), NIL, NIL) && PagesOf(w) == PagesOf(v) && SameUse(v, w, a) && InUse(w, a)
            && w[a] == v[a].(next := at, bytes := v[a].bytes[..at - a.pos - HDR])
  {
    var w, b, n := Shortened(v, a, at), After(v, a), Addr(a.page, at);
    assert BlockOk(v, a);
    ShortenTiled(v, a, at);
    ShortenParted(v, a, at);
    ShortenListed(v, h, st, if Free(v, b) then {b} else {}, a, at);
    SamePages(v, w);
    forall c: Addr | c != a ensures (InUse(v, c) <==> InUse(w, c)) && (InUse(v, c) ==> w[c] == v[c]) { }
    forall c: Addr | Free(w, c) && c != n ensures Capacity(w, c) != PAGEMAXSPARE { assert Free(v, c); }
  }

  class DataPages {
    const pool: PagePool.PageAllocator
    var blocks: Space
    var heads: seq<Addr>             // the free lists, one for each class of capacities
    ghost var stamp: map<Addr, nat>  // when a block was put on its list
    ghost var now: nat

    ghost predicate Valid()
      reads this, pool
    {
      var settled := Settled(blocks, heads, stamp, now);
      pool.Valid() && settled && PagesOf(blocks) <= pool.used
    }

    constructor (pool: PagePool.PageAllocator)
      requires pool.Valid()
      ensures Valid() && blocks == map[] && this.pool == pool
    {
      this.pool := pool;
      blocks, heads := map[], seq(LISTS, i => NIL);
      stamp, now := map[], 0;
    }

    /** Takes the free block a off its list. */
    method ClrFragment(a: Addr, ghost loose: set<Addr>)
      requires Listed(blocks, heads, stamp, loose) && Free(blocks, a) && a !in loose
      modifies this`blocks, this`heads
      ensures LinksOnly(old(blocks), blocks) && Listed(blocks, heads, stamp, loose + {a})
    {
      TakeOff(blocks, heads, stamp, loose, a);
      var p, n := blocks[a].back, blocks[a].link;
      if p.page != 0 {
        if n.page != 0 {
          blocks := Linked(blocks, p, n);
          blocks := Backed(blocks, n, p);
        } else {
          blocks := Linked(blocks, p, NIL);
        }
      } else {
        var i := Class(blocks, a);
        if n.page != 0 {
          heads := heads[i := n];
          blocks := Backed(blocks, n, NIL);
        } else {
          heads := heads[i := NIL];
        }
      }
    }

    /** Gives the page of the loose block a, all of it, back. */
    method DropPage(a: Addr)
      requires pool.Valid() && PagesOf(blocks) <= pool.used && Loose(blocks, heads, stamp, now, a, NIL, NIL)
      requires Capacity(blocks, a) == PAGEMAXSPARE
      modifies this`blocks, pool
      ensures Valid() && SameUse(old(blocks), blocks, NIL)
      ensures pool.used - PagesOf(blocks) == old(pool.used - PagesOf(blocks))
      ensures pool.used == old(pool.used) - {a.page} && blocks == old(blocks) - {a}
    {
      ghost var v := blocks;
      DropOk(v, heads, stamp, a);
      Dropped(v, a, pool.used);
      blocks := blocks - {a};
      pool.Free(a.page);
      forall c: Addr | Free(blocks, c) ensures Capacity(blocks, c) != PAGEMAXSPARE { assert Free(v, c); }
    }

    /** Puts the loose block a on the list of its capacity class, or gives its page back when
        nothing on it is in use. */
    method SetFragment(a: Addr)
      requires pool.Valid() && PagesOf(blocks) <= pool.used && Loose(blocks, heads, stamp, now, a, NIL, NIL)
      modifies this`blocks, this`heads, this`stamp, this`now, pool
      ensures Valid() && SameUse(old(blocks), blocks, NIL)
      ensures pool.used - PagesOf(blocks) == old(pool.used - PagesOf(blocks))
      ensures if old(Capacity(blocks, a)) == PAGEMAXSPARE then pool.used == old(pool.used) - {a.page} && a !in blocks
              else pool.used == old(pool.used) && Free(blocks, a) && blocks[a].next == old(blocks[a].next)
    {
      ghost var v := blocks;
      ClassRange(blocks, a);
      if Capacity(blocks, a) == PAGEMAXSPARE {
        DropPage(a);
        return;
      }
      Put(blocks, heads, stamp, now, {a}, a);
      assert {a} - {a} == {};
      var i := Class(blocks, a);
      var n := heads[i];
      if n.page != 0 { blocks := Backed(blocks, n, a); }
      blocks := Linked(blocks, a, n);
      blocks := Backed(blocks, a, NIL);
      heads := heads[i := a];
      stamp, now := stamp[a := now], now + 1;
      assert blocks == PutOn(v, old(heads), a);
      Relinked(v, blocks);
      LinksTiled(v, blocks);
      LinksParted(v, blocks, NIL, NIL);
    }

    /** A loose free block with room for `size` bytes: the one that became free last in the least
        class whose blocks all have room, and a new page only when there is none. */
    method GetFragment(size: nat) returns (a: Addr)
      requires Valid()
      modifies this`blocks, this`heads, pool
      ensures pool.Valid() && PagesOf(blocks) <= pool.used && Loose(blocks, heads, stamp, now, a, NIL, NIL)
      ensures Capacity(blocks, a) >= if size < PAGEMAXSPARE then size else PAGEMAXSPARE
      ensures SameUse(old(blocks), blocks, NIL) && !InUse(old(blocks), a)
      ensures pool.used - PagesOf(blocks) == old(pool.used - PagesOf(blocks))
      ensures Chosen(old(blocks), old(stamp), old(pool.used), size, a, pool.used)
    {
      ghost var v := blocks;
      if size < PAGEMAXSPARE {
        var i := (size + FRAGMIN - 1) / FRAGMIN;
        while i < LISTS
          invariant size <= i * FRAGMIN && blocks == v && heads == old(heads) && i <= LISTS && EmptyTo(heads, size, i)
        {
          assert HeadOk(blocks, heads, {}, i);
          a := heads[i];
          if a.page != 0 {
            FirstIsBest(v, heads, stamp, now, size, i);
            ClassRange(blocks, a);
            PopHead(i, a);
            Relinked(v, blocks);
            LinksTiled(v, blocks);
            LinksParted(v, blocks, NIL, NIL);
            return;
          }
          i := i + 1;
        }
      }
      NoneIsNoRoom(v, heads, stamp, now, size);
      ghost var used := pool.used;
      var p := pool.Alloc();
      a := Addr(p, 0);
      NotYet(v, p, used);
      FreshOk(v, heads, stamp, p);
      Grown(v, p, used);
      blocks := WithFresh(blocks, p);
    }

    /** Takes the block at the head of list i. */
    method PopHead(i: nat, a: Addr)
      requires Listed(blocks, heads, stamp, {}) && i < |heads| && a == heads[i] && a.page != 0
      modifies this`blocks, this`heads
      ensures LinksOnly(old(blocks), blocks) && Listed(blocks, heads, stamp, {a})
    {
      assert HeadOk(blocks, heads, {}, i);
      TakeOff(blocks, heads, stamp, {}, a);
      assert {} + {a} == {a};
      var n := blocks[a].link;
      heads := heads[i := if n.page != 0 then n else NIL];
      if n.page != 0 { blocks := Backed(blocks, n, NIL); }
    }

    /** Gives the room behind the first `size` bytes of block a back, when it is worth a block. */
    method AdjustHead(a: Addr, size: nat)
      requires Valid() && InUse(blocks, a) && blocks[a].size == size
      modifies this`blocks, this`heads, this`stamp, this`now, pool
      ensures Valid() && SameUse(old(blocks), blocks, a) && InUse(blocks, a) && Trimmed(old(blocks)[a], blocks[a])
      ensures size <= |blocks[a].bytes| == Capacity(blocks, a) && pool.used == old(pool.used)
      ensures pool.used - PagesOf(blocks) == old(pool.used - PagesOf(blocks))
      ensures if old(Capacity(blocks, a)) < PAGEMINSPARE + size + HDR then blocks == old(blocks) else CutBehind(old(blocks), blocks, a, size)
    {
      ghost var v := blocks;
      assert BlockOk(blocks, a);
      if Capacity(blocks, a) >= PAGEMINSPARE + size + HDR {
        RestFits(blocks, a, size);
        var at := RoundUp(a.pos + HDR + size);
        var b := After(blocks, a);
        if blocks[a].next != PAGEUSED && blocks[b].size == 0 {
          ClrFragment(b, {});
          assert {} + {b} == {b};
          Relinked(v, blocks);
          LinksTiled(v, blocks);
          LinksParted(v, blocks, NIL, NIL);
        }
        assert b in blocks ==> BlockOk(blocks, b);
        SplitAt(a, at, v);
      } else {
        assert v[a].bytes[..|v[a].bytes|] == v[a].bytes;
      }
    }

    method SplitAt(a: Addr, at: nat, ghost v: Space)
      requires pool.Valid() && PagesOf(blocks) <= pool.used && ShortenPre(blocks, a, at) && PartedBut(blocks, NIL, NIL) && NoneEmpty(blocks)
      requires Listed(blocks, heads, stamp, if Free(blocks, After(blocks, a)) then {After(blocks, a)} else {})
      requires forall c {:trigger c in stamp} :: c in stamp ==> stamp[c] < now
      requires SameUse(v, blocks, NIL) && InUse(v, a) && Tiled(v) && v[a] == blocks[a] && LinksOnly(v, blocks)
      requires at < a.pos + HDR + v[a].size + 16
      modifies this`blocks, this`heads, this`stamp, this`now, pool
      ensures Valid() && SameUse(v, blocks, a) && InUse(blocks, a) && Trimmed(v[a], blocks[a])
      ensures v[a].size <= |blocks[a].bytes| == Capacity(blocks, a) && pool.used == old(pool.used)
      ensures pool.used - PagesOf(blocks) == old(pool.used - PagesOf(blocks)) && CutBehind(v, blocks, a, v[a].size)
    {
      ghost var w := blocks;
      ShortenTiled(w, a, at);
      CutLoose(w, heads, stamp, now, a, at);
      blocks := Shortened(blocks, a, at);
      ghost var u := blocks;
      SetFragment(Addr(a.page, at));
      NilFree(v); NilFree(w); NilFree(u); NilFree(blocks);
      UseThrough(v, w, u, NIL, a, a);
      UseThrough(v, u, blocks, a, NIL, a);
      assert InUse(u, a) && BlockOk(blocks, a);
    }

    /** A block for the next `size` bytes, or for as many as a page takes. */
    method AllocData(size: nat, first: bool) returns (a: Addr)
      requires Valid() && size > 0
      modifies this`blocks, this`heads, this`stamp, this`now, pool
      ensures Valid() && !InUse(old(blocks), a) && InUse(blocks, a) && SameUse(old(blocks), blocks, a)
      ensures blocks[a].size == (if size < PAGEMAXSPARE then size else PAGEMAXSPARE) <= |blocks[a].bytes|
      ensures blocks[a].first == first && blocks[a].link == NIL
      ensures pool.used - PagesOf(blocks) == old(pool.used - PagesOf(blocks))
      ensures Chosen(old(blocks), old(stamp), old(pool.used), size, a, pool.used)
      ensures Capacity(blocks, a) < PAGEMINSPARE + blocks[a].size + HDR
    {
      ghost var v := blocks;
      a := GetFragment(size);
      ghost var w := blocks;
      var n := if size < PAGEMAXSPARE then size else PAGEMAXSPARE;
      Claim(a, n, first);
      ghost var u := blocks;
      if size < PAGEMAXSPARE { AdjustHead(a, n); } else { assert BlockOk(blocks, a); }
      NilFree(v); NilFree(w); NilFree(u); NilFree(blocks);
      UseThrough(v, w, u, NIL, a, a);
      UseThrough(v, u, blocks, a, a, a);
    }

    /** Puts the loose block a to use. */
    method Claim(a: Addr, size: nat, first: bool)
      requires pool.Valid() && PagesOf(blocks) <= pool.used && Loose(blocks, heads, stamp, now, a, NIL, NIL)
      requires 0 < size <= Capacity(blocks, a)
      modifies this`blocks
      ensures Valid() && InUse(blocks, a) && SameUse(old(blocks), blocks, a) && PagesOf(blocks) == old(PagesOf(blocks))
      ensures blocks[a].size == size <= |blocks[a].bytes| && blocks[a].first == first && blocks[a].link == NIL
    {
      ghost var v := blocks;
      ClaimOk(blocks, heads, stamp, {a}, a, size, first);
      assert {a} - {a} == {};
      blocks := Claimed(blocks, a, size, first);
      SamePages(v, blocks);
      forall c: Addr | c != a ensures (InUse(v, c) <==> InUse(blocks, c)) && (InUse(v, c) ==> blocks[c] == v[c]) { }
      forall c: Addr | Free(blocks, c) ensures Capacity(blocks, c) != PAGEMAXSPARE { assert Free(v, c); }
    }

    /** Rewrites the header or the bytes of block a in use. */
    method Update(a: Addr, b: Block)
      requires Valid() && InUse(blocks, a) && b.next == blocks[a].next && 0 < b.size <= Capacity(blocks, a) == |b.bytes|
      modifies this`blocks
      ensures Valid() && blocks == old(blocks)[a := b] && SameUse(old(blocks), blocks, a) && InUse(blocks, a)
      ensures PagesOf(blocks) == old(PagesOf(blocks))
    {
      ghost var v := blocks;
      blocks := blocks[a := b];
      UpdateOk(v, blocks, heads, stamp, now, a);
    }

    method Write(a: Addr, at: nat, s: seq<byte>)
      requires Valid() && InUse(blocks, a) && at + |s| <= |blocks[a].bytes|
      modifies this`blocks
      ensures Valid() && blocks == old(blocks)[a := Overwritten(old(blocks)[a], at, s)] && SameUse(old(blocks), blocks, a) && InUse(blocks, a)
      ensures PagesOf(blocks) == old(PagesOf(blocks))
    {
      assert BlockOk(blocks, a);
      Update(a, Overwritten(blocks[a], at, s));
    }

    method SetLink(a: Addr, b: Addr)
      requires Valid() && InUse(blocks, a)
      modifies this`blocks
      ensures Valid() && blocks == old(blocks)[a := old(blocks)[a].(link := b)] && SameUse(old(blocks), blocks, a) && InUse(blocks, a)
      ensures PagesOf(blocks) == old(PagesOf(blocks))
    {
      assert BlockOk(blocks, a);
      Update(a, blocks[a].(link := b));
    }

    method SetSize(a: Addr, size: nat)
      requires Valid() && InUse(blocks, a) && 0 < size <= |blocks[a].bytes|
      modifies this`blocks
      ensures Valid() && blocks == old(blocks)[a := old(blocks)[a].(size := size)] && SameUse(old(blocks), blocks, a) && InUse(blocks, a)
      ensures PagesOf(blocks) == old(PagesOf(blocks))
    {
      assert BlockOk(blocks, a);
      Update(a, blocks[a].(size := size));
    }

    /** The block in front of block a on its page, or a itself when it is the first. */
    method Previous(a: Addr) returns (p: Addr)
      requires Tiled(blocks) && a in blocks
      ensures p in blocks && if a.pos == 0 then p == a else After(blocks, p) == a
    {
      assert BlockOk(blocks, a);
      p := Addr(a.page, 0);
      if p == a { return; }
      assert Before(blocks, p, a);
      while After(blocks, p) != a
        invariant p in blocks && p.page == a.page && p.pos < a.pos
        decreases a.pos - p.pos
      {
        assert BlockOk(blocks, p) && Before(blocks, p, a) && BlockOk(blocks, a);
        p := After(blocks, p);
      }
    }

    /** The loose block a joins the free block p in front of it, if there is one. */
    method JoinPrevious(a: Addr, p: Addr) returns (cur: Addr)
      requires Loose(blocks, heads, stamp, now, a, p, a) && p in blocks && if a.pos == 0 then p == a else After(blocks, p) == a
      modifies this`blocks, this`heads
      ensures Loose(blocks, heads, stamp, now, cur, cur, cur)
      ensures PagesOf(blocks) == old(PagesOf(blocks)) && SameUse(old(blocks), blocks, NIL)
    {
      ghost var v := blocks;
      assert BlockOk(blocks, a);
      if p != a && blocks[p].size == 0 {
        ClrFragment(p, {a});
        ghost var w := blocks;
        assert {a} + {p} == {p, a};
        Relinked(v, w);
        LinksTiled(v, w);
        LinksParted(v, w, p, a);
        Joined(w, heads, stamp, now, p, a, p, a);
        blocks := Merged(blocks, p, a);
        cur := p;
        NilFree(v); NilFree(w); NilFree(blocks);
        UseThrough(v, w, blocks, NIL, NIL, NIL);
      } else {
        cur := a;
        NotInFront(blocks, a, p);
      }
    }

    /** The loose block a joins the free block behind it, if there is one. */
    method JoinNext(a: Addr)
      requires Loose(blocks, heads, stamp, now, a, a, a)
      modifies this`blocks, this`heads
      ensures Loose(blocks, heads, stamp, now, a, NIL, NIL)
      ensures PagesOf(blocks) == old(PagesOf(blocks)) && SameUse(old(blocks), blocks, NIL)
    {
      ghost var v := blocks;
      assert BlockOk(blocks, a);
      var b := After(blocks, a);
      if blocks[a].next != PAGEUSED && blocks[b].size == 0 {
        ClrFragment(b, {a});
        ghost var w := blocks;
        assert {a} + {b} == {a, b};
        Relinked(v, w);
        LinksTiled(v, w);
        LinksParted(v, w, a, a);
        Joined(w, heads, stamp, now, a, b, a, a);
        blocks := Merged(blocks, a, b);
        NilFree(v); NilFree(w); NilFree(blocks);
        UseThrough(v, w, blocks, NIL, NIL, NIL);
      } else {
        if b in blocks { assert BlockOk(blocks, b); }
        NotBehind(blocks, a);
      }
    }

    /** Block a is no longer in use; it joins the free blocks around it. */
    method FreeOne(a: Addr)
      requires Valid() && InUse(blocks, a)
      modifies this`blocks, this`heads, this`stamp, this`now, pool
      ensures Valid() && SameUse(old(blocks), blocks, a) && !InUse(blocks, a)
      ensures pool.used - PagesOf(blocks) == old(pool.used - PagesOf(blocks))
    {
      ghost var v := blocks;
      var p := Previous(a);
      ReleasedLoose(v, heads, stamp, now, a, p);
      blocks := Released(blocks, a);
      ghost var w := blocks;
      var cur := JoinPrevious(a, p);
      ghost var u := blocks;
      JoinNext(cur);
      ghost var x := blocks;
      SetFragment(cur);
      NilFree(v); NilFree(w); NilFree(u); NilFree(x); NilFree(blocks);
      UseThrough(v, w, u, a, NIL, a);
      UseThrough(v, u, x, a, NIL, a);
      UseThrough(v, x, blocks, a, NIL, a);
      NotUsed(w, u, x, blocks, a);
    }
  }

  /** Block b with s in place of its bytes from `at` on. */
  function Overwritten(b: Block, at: nat, s: seq<byte>): Block
    requires at + |s| <= |b.bytes|
  {
    b.(bytes := b.bytes[..at] + s + b.bytes[at + |s|..])
  }

  lemma UpdateOk(v: Space, w: Space, h: seq<Addr>, st: map<Addr, nat>, now: nat, a: Addr)
    requires Settled(v, h, st, now) && InUse(v, a) && a in w && w == v[a := w[a]]
    requires w[a].next == v[a].next && 0 < w[a].size <= Capacity(v, a) == |w[a].bytes|
    ensures Settled(w, h, st, now) && SameUse(v, w, a) && PagesOf(w) == PagesOf(v)
  {
    forall c: Addr | c in w ensures BlockOk(w, c) { assert BlockOk(v, c); }
    forall c: Addr, d: Addr ensures Before(w, c, d) { assert Before(v, c, d); }
    forall c: Addr ensures Parted(w, NIL, NIL, c) { assert Parted(v, NIL, NIL, c); }
    ListedStill(v, w, h, st, {}, {});
    SamePages(v, w);
    forall c: Addr | c != a ensures (InUse(v, c) <==> InUse(w, c)) && (InUse(v, c) ==> w[c] == v[c]) { }
    forall c: Addr | Free(w, c) ensures Capacity(w, c) != PAGEMAXSPARE { assert Free(v, c); }
  }

  lemma NotUsed(w: Space, u: Space, x: Space, y: Space, a: Addr)
    requires SameUse(w, u, NIL) && SameUse(u, x, NIL) && SameUse(x, y, NIL) && !InUse(w, a) && a != NIL
    ensures !InUse(y, a)
  {
    assert !InUse(u, a) && !InUse(x, a);
  }

  /** Block c is block b with its end cut off. */
  ghost predicate Trimmed(b: Block, c: Block) {
    && c.size == b.size && c.link == b.link && c.first == b.first && c.back == b.back
    && |c.bytes| <= |b.bytes| && c.bytes == b.bytes[..|c.bytes|]
  }
}

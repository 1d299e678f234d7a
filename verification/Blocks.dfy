/** Blocks inside data pages, on values: they tile their pages, and the free ones hang on doubly
    linked lists by capacity.

    All conditions are about one block and its neighbours.  A block that an operation has just
    taken off its list, or not yet put on one, is `loose`. */
module Blocks {
  import opened Common

  const HDR: nat := 12
  const FRAGHDR: nat := 16
  const FRAGMIN: nat := 8
  const PAGEMAXSPARE: nat := PAGEUSED - HDR
  const PAGEMINSPARE: nat := FRAGMIN + HDR
  const LISTS: nat := PAGEUSED / FRAGMIN

  datatype Addr = Addr(page: nat, pos: nat)

  const NIL := Addr(0, 0)

  /** A block with its header.  `next` is where the next block of the page begins; size 0 marks a
      free block.  `link` is the next slice of a record, or the next block of a free list, and
      `back` the one before it there.  `bytes` is the room behind the header of a block in use. */
  datatype Block = Block(next: nat, size: nat, link: Addr, back: Addr, first: bool, bytes: seq<byte>)

  type Space = map<Addr, Block>

  function Capacity(v: Space, a: Addr): int
    requires a in v
  {
    v[a].next - a.pos - HDR
  }

  predicate Free(v: Space, a: Addr) {
    a in v && v[a].size == 0
  }

  function After(v: Space, a: Addr): Addr
    requires a in v
  {
    Addr(a.page, v[a].next)
  }

  // ---------------------------------------------------------------- tiling

  /** A block starts on a multiple of 16, has room for a free block's header, and ends where the
      page does or another block begins. */
  ghost predicate BlockOk(v: Space, a: Addr) {
    && a in v && a.page > 0 && a.pos % 16 == 0 && a.pos + FRAGHDR <= v[a].next <= PAGEUSED
    && Addr(a.page, 0) in v
    && (v[a].next < PAGEUSED ==> After(v, a) in v)
    && v[a].size <= Capacity(v, a)
    && (v[a].size > 0 ==> |v[a].bytes| == Capacity(v, a))
  }

  ghost predicate Before(v: Space, a: Addr, b: Addr) {
    a in v && b in v && a.page == b.page && a.pos < b.pos ==> v[a].next <= b.pos
  }

  /** The blocks of each page follow one another from offset 0 to its end without gap or overlap. */
  ghost predicate Tiled(v: Space) {
    && (forall a {:trigger BlockOk(v, a)} :: a in v ==> BlockOk(v, a))
    && (forall a, b {:trigger Before(v, a, b)} :: Before(v, a, b))
  }

  /** Block a and the one behind it are not both free, unless a is x or y. */
  ghost predicate Parted(v: Space, x: Addr, y: Addr, a: Addr) {
    Free(v, a) && Free(v, After(v, a)) ==> a == x || a == y
  }

  ghost predicate PartedBut(v: Space, x: Addr, y: Addr) {
    forall a {:trigger Parted(v, x, y, a)} :: Parted(v, x, y, a)
  }

  // ---------------------------------------------------------------- free lists

  function Class(v: Space, a: Addr): int
    requires a in v
  {
    Capacity(v, a) / FRAGMIN
  }

  /** The list neighbours of the free block a know it.  Along a list the stamps fall, so that no
      list runs in a circle. */
  ghost predicate ListOk(v: Space, h: seq<Addr>, st: map<Addr, nat>, loose: set<Addr>, a: Addr) {
    Free(v, a) && a !in loose ==>
      && a.page != 0 && a in st && 0 <= Class(v, a) < |h|
      && (v[a].link.page != 0 ==>
            var n := v[a].link;
            Free(v, n) && n !in loose && Class(v, n) == Class(v, a) && v[n].back == a && n in st && st[n] < st[a])
      && (if v[a].back.page == 0 then h[Class(v, a)] == a
          else var p := v[a].back; Free(v, p) && p !in loose && Class(v, p) == Class(v, a) && v[p].link == a)
  }

  ghost predicate HeadOk(v: Space, h: seq<Addr>, loose: set<Addr>, i: nat) {
    i < |h| && h[i].page != 0 ==> Free(v, h[i]) && h[i] !in loose && Class(v, h[i]) == i && v[h[i]].back.page == 0
  }

  /** Every free block that is not loose is on exactly one list, the one for its capacity. */
  ghost predicate Listed(v: Space, h: seq<Addr>, st: map<Addr, nat>, loose: set<Addr>) {
    && |h| == LISTS
    && (forall a {:trigger ListOk(v, h, st, loose, a)} :: ListOk(v, h, st, loose, a))
    && (forall i {:trigger HeadOk(v, h, loose, i)} :: HeadOk(v, h, loose, i))
  }

  /** The list from block a on. */
  ghost function ListFrom(v: Space, st: map<Addr, nat>, a: Addr): seq<Addr>
    decreases if a in st then st[a] + 1 else 0
  {
    if a !in v || a !in st then []
    else if v[a].link.page != 0 && v[a].link in st && st[v[a].link] < st[a] then [a] + ListFrom(v, st, v[a].link)
    else [a]
  }

  lemma {:induction false} ListTail(v: Space, h: seq<Addr>, st: map<Addr, nat>, loose: set<Addr>, x: Addr, p: Addr)
    requires Listed(v, h, st, loose) && p in ListFrom(v, st, x) && Free(v, p) && p !in loose && v[p].link.page != 0
    ensures v[p].link in ListFrom(v, st, x)
    decreases if x in st then st[x] + 1 else 0
  {
    assert ListOk(v, h, st, loose, p);
    if x == p {
      assert v[x].link in ListFrom(v, st, v[x].link);
    } else {
      ListTail(v, h, st, loose, v[x].link, p);
    }
  }

  /** Following the list of its capacity class from the head one comes to every free block. */
  lemma {:induction false} OnItsList(v: Space, h: seq<Addr>, st: map<Addr, nat>, loose: set<Addr>, now: nat, a: Addr)
    requires Listed(v, h, st, loose) && Free(v, a) && a !in loose && forall b {:trigger b in st} :: b in st ==> st[b] < now
    ensures 0 <= Class(v, a) < |h| && a in ListFrom(v, st, h[Class(v, a)])
    decreases now - (if a in st then st[a] else 0)
  {
    assert ListOk(v, h, st, loose, a);
    if v[a].back.page == 0 {
      assert a in ListFrom(v, st, a);
    } else {
      var p := v[a].back;
      assert ListOk(v, h, st, loose, p);
      OnItsList(v, h, st, loose, now, p);
      ListTail(v, h, st, loose, h[Class(v, a)], p);
    }
  }

  /** The head of a list is the block put there last. */
  lemma {:induction false} HeadLast(v: Space, h: seq<Addr>, st: map<Addr, nat>, now: nat, a: Addr)
    requires Listed(v, h, st, {}) && Free(v, a) && forall b {:trigger b in st} :: b in st ==> st[b] < now
    ensures 0 <= Class(v, a) < |h| && a in st && var b := h[Class(v, a)];
            b.page != 0 && (b == a || (b in st && st[a] < st[b]))
    decreases now - (if a in st then st[a] else 0)
  {
    assert ListOk(v, h, st, {}, a);
    if v[a].back.page != 0 {
      assert ListOk(v, h, st, {}, v[a].back);
      HeadLast(v, h, st, now, v[a].back);
    }
  }

  // ---------------------------------------------------------------- which block is taken

  /** Every block of the class of b has room for `size` bytes. */
  ghost predicate Room(v: Space, b: Addr, size: nat) {
    Free(v, b) && size < PAGEMAXSPARE && (size + FRAGMIN - 1) / FRAGMIN <= Class(v, b)
  }

  ghost predicate NoRoom(v: Space, size: nat) {
    forall b {:trigger Free(v, b)} :: !Room(v, b, size)
  }

  /** Of all free blocks with room, a is in the least class, and there the one that became free last. */
  ghost predicate BestFit(v: Space, st: map<Addr, nat>, size: nat, a: Addr) {
    && Room(v, a, size) && a in st
    && forall b {:trigger Free(v, b)} :: Room(v, b, size) && b != a ==> b in st && (Class(v, a) < Class(v, b) || (Class(v, a) == Class(v, b) && st[b] < st[a]))
  }

  /** No list from the least class with room up to list i has a block. */
  ghost predicate EmptyTo(h: seq<Addr>, size: nat, i: nat) {
    i <= |h| && forall j {:trigger h[j]} :: (size + FRAGMIN - 1) / FRAGMIN <= j < i ==> h[j].page == 0
  }

  lemma FirstIsBest(v: Space, h: seq<Addr>, st: map<Addr, nat>, now: nat, size: nat, i: nat)
    requires Listed(v, h, st, {}) && (forall b {:trigger b in st} :: b in st ==> st[b] < now) && size < PAGEMAXSPARE
    requires EmptyTo(h, size, i) && (size + FRAGMIN - 1) / FRAGMIN <= i < |h| && h[i].page != 0
    ensures BestFit(v, st, size, h[i])
  {
    var a := h[i];
    assert HeadOk(v, h, {}, i);
    HeadLast(v, h, st, now, a);
    forall b | Room(v, b, size) && b != a ensures b in st && (Class(v, a) < Class(v, b) || (Class(v, a) == Class(v, b) && st[b] < st[a])) {
      HeadLast(v, h, st, now, b);
      assert h[Class(v, b)].page != 0;
    }
  }

  lemma NoneIsNoRoom(v: Space, h: seq<Addr>, st: map<Addr, nat>, now: nat, size: nat)
    requires Listed(v, h, st, {}) && (forall b {:trigger b in st} :: b in st ==> st[b] < now)
    requires size < PAGEMAXSPARE ==> EmptyTo(h, size, |h|)
    ensures NoRoom(v, size)
  {
    forall b ensures !Room(v, b, size) {
      if Room(v, b, size) { HeadLast(v, h, st, now, b); }
    }
  }

  /** A list holds free blocks of one class only, so no block is on two lists. */
  lemma {:induction false} ListHolds(v: Space, h: seq<Addr>, st: map<Addr, nat>, loose: set<Addr>, x: Addr, a: Addr)
    requires Listed(v, h, st, loose) && Free(v, x) && x !in loose && a in ListFrom(v, st, x)
    ensures Free(v, a) && a !in loose && Class(v, a) == Class(v, x)
    decreases if x in st then st[x] + 1 else 0
  {
    assert ListOk(v, h, st, loose, x);
    if a != x { ListHolds(v, h, st, loose, v[x].link, a); }
  }

  lemma ClassRange(v: Space, a: Addr)
    requires Tiled(v) && a in v
    ensures 0 <= Capacity(v, a) <= PAGEMAXSPARE && 0 <= Class(v, a) < LISTS
    ensures Capacity(v, a) == PAGEMAXSPARE <==> a.pos == 0 && v[a].next == PAGEUSED
  {
    assert BlockOk(v, a);
  }

  // ---------------------------------------------------------------- taking a block off its list

  /** Block a with a new next or previous block of its list. */
  function Linked(v: Space, a: Addr, link: Addr): Space
    requires a in v
  {
    v[a := v[a].(link := link)]
  }

  function Backed(v: Space, a: Addr, back: Addr): Space
    requires a in v
  {
    v[a := v[a].(back := back)]
  }

  function TakenOff(v: Space, a: Addr): Space
    requires a in v && (v[a].back.page != 0 ==> v[a].back in v) && (v[a].link.page != 0 ==> v[a].link in v)
  {
    var p, n := v[a].back, v[a].link;
    var w := if p.page != 0 then Linked(v, p, if n.page != 0 then n else NIL) else v;
    if n.page != 0 then Backed(w, n, if p.page != 0 then p else NIL) else w
  }

  function HeadsOff(v: Space, h: seq<Addr>, a: Addr): seq<Addr>
    requires a in v && 0 <= Class(v, a) < |h|
  {
    if v[a].back.page != 0 then h else h[Class(v, a) := if v[a].link.page != 0 then v[a].link else NIL]
  }

  lemma OffReady(v: Space, h: seq<Addr>, st: map<Addr, nat>, loose: set<Addr>, a: Addr)
    requires Listed(v, h, st, loose) && Free(v, a) && a !in loose
    ensures v[a].back.page != 0 ==> Free(v, v[a].back) && v[a].back != a
    ensures v[a].link.page != 0 ==> Free(v, v[a].link) && v[a].link != a
    ensures v[a].back.page != 0 && v[a].link.page != 0 ==> v[a].back != v[a].link
    ensures 0 <= Class(v, a) < |h|
  {
    assert ListOk(v, h, st, loose, a);
    assert ListOk(v, h, st, loose, v[a].back);
    assert ListOk(v, h, st, loose, v[a].link);
  }

  /** How TakenOff and HeadsOff differ from v and h, field by field. */
  ghost predicate OffBy(v: Space, h: seq<Addr>, w: Space, g: seq<Addr>, a: Addr) {
    && a in v && w.Keys == v.Keys && |g| == |h| && 0 <= Class(v, a) < |h|
    && var p, n := v[a].back, v[a].link;
    && (forall c {:trigger w[c]} {:trigger v[c]} :: c in v ==>
          && w[c].next == v[c].next && w[c].size == v[c].size
          && w[c].link == (if c == p && p.page != 0 then if n.page != 0 then n else NIL else v[c].link)
          && w[c].back == (if c == n && n.page != 0 then if p.page != 0 then p else NIL else v[c].back))
    && (forall i {:trigger g[i]} :: 0 <= i < |h| ==>
          g[i] == if p.page == 0 && i == Class(v, a) then if n.page != 0 then n else NIL else h[i])
  }

  lemma OffIs(v: Space, h: seq<Addr>, a: Addr)
    requires a in v && (v[a].back.page != 0 ==> v[a].back in v) && (v[a].link.page != 0 ==> v[a].link in v)
    requires 0 <= Class(v, a) < |h|
    ensures OffBy(v, h, TakenOff(v, a), HeadsOff(v, h, a), a)
  {
  }

  ghost predicate OffPre(v: Space, h: seq<Addr>, w: Space, g: seq<Addr>, st: map<Addr, nat>, loose: set<Addr>, a: Addr) {
    && Listed(v, h, st, loose) && Free(v, a) && a !in loose && OffBy(v, h, w, g, a)
    && (v[a].back.page != 0 ==> Free(v, v[a].back) && v[a].back != a)
    && (v[a].link.page != 0 ==> Free(v, v[a].link) && v[a].link != a)
    && (v[a].back.page != 0 && v[a].link.page != 0 ==> v[a].back != v[a].link)
  }

  lemma OffPrevious(v: Space, h: seq<Addr>, w: Space, g: seq<Addr>, st: map<Addr, nat>, loose: set<Addr>, a: Addr)
    requires OffPre(v, h, w, g, st, loose, a) && v[a].back.page != 0
    ensures ListOk(w, g, st, loose + {a}, v[a].back)
  {
    var p, n := v[a].back, v[a].link;
    assert ListOk(v, h, st, loose, a) && ListOk(v, h, st, loose, p) && w[p].next == v[p].next && w[a].next == v[a].next;
    if n.page != 0 { assert ListOk(v, h, st, loose, n) && w[n].next == v[n].next; }
    if v[p].back.page != 0 { OffOthers(v, h, w, g, st, loose, a, v[p].back); } else { assert g[Class(v, p)] == h[Class(v, p)]; }
  }

  /** A free block other than a that is not a list neighbour of a block c stays what it was for c. */
  lemma OffOthers(v: Space, h: seq<Addr>, w: Space, g: seq<Addr>, st: map<Addr, nat>, loose: set<Addr>, a: Addr, c: Addr)
    requires OffPre(v, h, w, g, st, loose, a) && c in v
    ensures w[c].next == v[c].next && w[c].size == v[c].size && Class(w, c) == Class(v, c)
  {
  }

  lemma OffNext(v: Space, h: seq<Addr>, w: Space, g: seq<Addr>, st: map<Addr, nat>, loose: set<Addr>, a: Addr)
    requires OffPre(v, h, w, g, st, loose, a) && v[a].link.page != 0
    ensures ListOk(w, g, st, loose + {a}, v[a].link)
  {
    var p, n := v[a].back, v[a].link;
    assert ListOk(v, h, st, loose, a) && ListOk(v, h, st, loose, n);
    OffOthers(v, h, w, g, st, loose, a, n);
    if p.page != 0 { assert ListOk(v, h, st, loose, p); OffOthers(v, h, w, g, st, loose, a, p); } else { assert g[Class(v, a)] == n; }
    if v[n].link.page != 0 { assert ListOk(v, h, st, loose, v[n].link); OffOthers(v, h, w, g, st, loose, a, v[n].link); }
  }

  lemma OffBlock(v: Space, h: seq<Addr>, w: Space, g: seq<Addr>, st: map<Addr, nat>, loose: set<Addr>, a: Addr, c: Addr)
    requires OffPre(v, h, w, g, st, loose, a) && Free(v, c) && c !in loose && c != a
    requires v[a].back.page != 0 ==> c != v[a].back
    requires v[a].link.page != 0 ==> c != v[a].link
    ensures ListOk(w, g, st, loose + {a}, c)
  {
    assert ListOk(v, h, st, loose, a) && ListOk(v, h, st, loose, c);
    OffOthers(v, h, w, g, st, loose, a, c);
    if v[c].link.page != 0 { assert ListOk(v, h, st, loose, v[c].link); OffOthers(v, h, w, g, st, loose, a, v[c].link); }
    if v[c].back.page != 0 { assert ListOk(v, h, st, loose, v[c].back); OffOthers(v, h, w, g, st, loose, a, v[c].back); }
    else { assert g[Class(v, c)] == h[Class(v, c)]; }
  }

  lemma OffHead(v: Space, h: seq<Addr>, w: Space, g: seq<Addr>, st: map<Addr, nat>, loose: set<Addr>, a: Addr, i: nat)
    requires OffPre(v, h, w, g, st, loose, a)
    ensures HeadOk(w, g, loose + {a}, i)
  {
    assert ListOk(v, h, st, loose, a) && HeadOk(v, h, loose, i);
    if v[a].link.page != 0 { assert ListOk(v, h, st, loose, v[a].link); }
    if i < |g| && g[i].page != 0 {
      OffOthers(v, h, w, g, st, loose, a, g[i]);
    }
  }

  /** Only the list neighbours of a changed, and only in their links. */
  ghost predicate LinksOnly(v: Space, w: Space) {
    && w.Keys == v.Keys
    && forall c {:trigger w[c]} :: c in v ==>
         w[c].next == v[c].next && w[c].size == v[c].size && (v[c].size > 0 ==> w[c] == v[c])
  }

  lemma TakeOff(v: Space, h: seq<Addr>, st: map<Addr, nat>, loose: set<Addr>, a: Addr)
    requires Listed(v, h, st, loose) && Free(v, a) && a !in loose
    ensures v[a].back.page != 0 ==> Free(v, v[a].back) && v[a].back != a
    ensures v[a].link.page != 0 ==> Free(v, v[a].link) && v[a].link != a
    ensures 0 <= Class(v, a) < |h|
    ensures Listed(TakenOff(v, a), HeadsOff(v, h, a), st, loose + {a}) && LinksOnly(v, TakenOff(v, a))
  {
    OffReady(v, h, st, loose, a);
    OffIs(v, h, a);
    var w, g := TakenOff(v, a), HeadsOff(v, h, a);
    forall c: Addr ensures ListOk(w, g, st, loose + {a}, c) {
      if Free(v, c) && c !in loose && c != a {
        if v[a].back.page != 0 && c == v[a].back { OffPrevious(v, h, w, g, st, loose, a); }
        else if v[a].link.page != 0 && c == v[a].link { OffNext(v, h, w, g, st, loose, a); }
        else { OffBlock(v, h, w, g, st, loose, a, c); }
      }
    }
    forall i: nat ensures HeadOk(w, g, loose + {a}, i) { OffHead(v, h, w, g, st, loose, a, i); }
  }

  // ---------------------------------------------------------------- putting a block on its list

  function PutOn(v: Space, h: seq<Addr>, a: Addr): Space
    requires a in v && 0 <= Class(v, a) < |h|
  {
    var n := h[Class(v, a)];
    var w := if n.page != 0 && n in v then Backed(v, n, a) else v;
    if a in w then w[a := w[a].(link := n, back := NIL)] else w
  }

  function HeadsOn(v: Space, h: seq<Addr>, a: Addr): seq<Addr>
    requires a in v && 0 <= Class(v, a) < |h|
  {
    h[Class(v, a) := a]
  }

  ghost predicate OnPre(v: Space, h: seq<Addr>, w: Space, g: seq<Addr>, st: map<Addr, nat>, now: nat, loose: set<Addr>, a: Addr) {
    && Tiled(v) && Listed(v, h, st, loose) && Free(v, a) && a in loose && a.page != 0 && 0 <= Class(v, a) < |h|
    && (forall b {:trigger b in st} :: b in st ==> st[b] < now)
    && var n := h[Class(v, a)];
    && (n.page != 0 ==> Free(v, n) && n != a && n !in loose)
    && w.Keys == v.Keys
    && (forall c {:trigger w[c]} {:trigger v[c]} :: c in v ==>
          && w[c].next == v[c].next && w[c].size == v[c].size
          && w[c].link == (if c == a then n else v[c].link)
          && w[c].back == (if c == a then NIL else if c == n && n.page != 0 then a else v[c].back))
    && g == h[Class(v, a) := a]
  }

  lemma OnBlock(v: Space, h: seq<Addr>, w: Space, g: seq<Addr>, st: map<Addr, nat>, now: nat, loose: set<Addr>, a: Addr, c: Addr)
    requires OnPre(v, h, w, g, st, now, loose, a) && Free(v, c) && c !in loose
    ensures ListOk(w, g, st[a := now], loose - {a}, c)
  {
    var n := h[Class(v, a)];
    assert ListOk(v, h, st, loose, c) && HeadOk(v, h, loose, Class(v, a));
    assert w[c].next == v[c].next && w[a].next == v[a].next;
    if v[c].link.page != 0 { assert ListOk(v, h, st, loose, v[c].link) && w[v[c].link].next == v[v[c].link].next; }
    if v[c].back.page != 0 { assert ListOk(v, h, st, loose, v[c].back) && w[v[c].back].next == v[v[c].back].next; }
  }

  lemma OnSelf(v: Space, h: seq<Addr>, w: Space, g: seq<Addr>, st: map<Addr, nat>, now: nat, loose: set<Addr>, a: Addr)
    requires OnPre(v, h, w, g, st, now, loose, a)
    ensures ListOk(w, g, st[a := now], loose - {a}, a)
  {
    var n := h[Class(v, a)];
    assert HeadOk(v, h, loose, Class(v, a)) && w[a].next == v[a].next;
    if n.page != 0 { assert ListOk(v, h, st, loose, n) && w[n].next == v[n].next; }
  }

  lemma OnHead(v: Space, h: seq<Addr>, w: Space, g: seq<Addr>, st: map<Addr, nat>, now: nat, loose: set<Addr>, a: Addr, i: nat)
    requires OnPre(v, h, w, g, st, now, loose, a)
    ensures HeadOk(w, g, loose - {a}, i)
  {
    assert HeadOk(v, h, loose, i) && HeadOk(v, h, loose, Class(v, a)) && w[a].next == v[a].next;
    if i < |g| && g[i].page != 0 { assert w[g[i]].next == v[g[i]].next; }
  }

  lemma Put(v: Space, h: seq<Addr>, st: map<Addr, nat>, now: nat, loose: set<Addr>, a: Addr)
    requires Tiled(v) && Listed(v, h, st, loose) && Free(v, a) && a in loose
    requires forall b {:trigger b in st} :: b in st ==> st[b] < now
    ensures 0 <= Class(v, a) < |h|
    ensures h[Class(v, a)].page != 0 ==> Free(v, h[Class(v, a)]) && h[Class(v, a)] != a
    ensures Listed(PutOn(v, h, a), HeadsOn(v, h, a), st[a := now], loose - {a}) && LinksOnly(v, PutOn(v, h, a))
  {
    ClassRange(v, a);
    assert HeadOk(v, h, loose, Class(v, a)) && BlockOk(v, a);
    var w, g := PutOn(v, h, a), HeadsOn(v, h, a);
    assert OnPre(v, h, w, g, st, now, loose, a);
    var st', rest := st[a := now], loose - {a};
    forall c: Addr ensures ListOk(w, g, st', rest, c) {
      if c == a { OnSelf(v, h, w, g, st, now, loose, a); }
      else if Free(v, c) && c !in loose { OnBlock(v, h, w, g, st, now, loose, a, c); }
    }
    forall i: nat ensures HeadOk(w, g, loose - {a}, i) { OnHead(v, h, w, g, st, now, loose, a, i); }
  }

  lemma LinksTiled(v: Space, w: Space)
    requires Tiled(v) && LinksOnly(v, w)
    ensures Tiled(w)
  {
    forall a | a in w ensures BlockOk(w, a) { assert BlockOk(v, a); }
    forall a, b ensures Before(w, a, b) { assert Before(v, a, b); }
  }

  lemma LinksParted(v: Space, w: Space, x: Addr, y: Addr)
    requires PartedBut(v, x, y) && LinksOnly(v, w)
    ensures PartedBut(w, x, y)
  {
    forall a: Addr ensures Parted(w, x, y, a) { assert Parted(v, x, y, a); }
  }

  // ---------------------------------------------------------------- changes to the tiling

  /** The blocks on the lists are the same, with the same contents. */
  ghost predicate SameListed(v: Space, w: Space, loose: set<Addr>, loose': set<Addr>) {
    && (forall c: Addr {:trigger Free(v, c)} :: Free(v, c) && c !in loose ==>
          c in w && w[c].next == v[c].next && w[c].size == 0 && w[c].link == v[c].link && w[c].back == v[c].back && c !in loose')
    && (forall c: Addr {:trigger Free(w, c)} :: Free(w, c) && c !in loose' ==> Free(v, c) && c !in loose)
  }

  lemma ListedStill(v: Space, w: Space, h: seq<Addr>, st: map<Addr, nat>, loose: set<Addr>, loose': set<Addr>)
    requires Listed(v, h, st, loose) && SameListed(v, w, loose, loose')
    ensures Listed(w, h, st, loose')
  {
    forall c: Addr ensures ListOk(w, h, st, loose', c) {
      assert ListOk(v, h, st, loose, c);
      if Free(w, c) && c !in loose' {
        assert Free(v, v[c].link) || !Free(v, v[c].link);
        assert Free(v, v[c].back) || !Free(v, v[c].back);
      }
    }
    forall i: nat ensures HeadOk(w, h, loose', i) {
      assert HeadOk(v, h, loose, i);
      if i < |h| { assert Free(v, h[i]) || !Free(v, h[i]); }
    }
  }

  /** The free block a swallows the free block b behind it. */
  function Merged(v: Space, a: Addr, b: Addr): Space
    requires a in v && b in v
  {
    (v - {b})[a := v[a].(next := v[b].next)]
  }

  /** Only one block ends where b begins. */
  lemma OnlyBefore(v: Space, a: Addr, c: Addr)
    requires Tiled(v) && a in v && c in v && After(v, a) == After(v, c) && v[a].next < PAGEUSED
    ensures a == c
  {
    assert Before(v, a, c) && Before(v, c, a) && BlockOk(v, a) && BlockOk(v, c);
  }

  lemma MergeTiled(v: Space, a: Addr, b: Addr)
    requires Tiled(v) && Free(v, a) && Free(v, b) && b == After(v, a)
    ensures Tiled(Merged(v, a, b))
  {
    var w := Merged(v, a, b);
    assert BlockOk(v, a) && BlockOk(v, b);
    forall c: Addr | c in w ensures BlockOk(w, c) {
      assert BlockOk(v, c);
      if After(v, c) == b { OnlyBefore(v, a, c); }
    }
    forall c: Addr, d: Addr ensures Before(w, c, d) { MergeBefore(v, a, b, c, d); }
  }

  lemma MergeBefore(v: Space, a: Addr, b: Addr, c: Addr, d: Addr)
    requires Tiled(v) && Free(v, a) && Free(v, b) && b == After(v, a)
    ensures Before(Merged(v, a, b), c, d)
  {
    assert BlockOk(v, a) && Before(v, c, d) && Before(v, a, d) && Before(v, b, d);
  }

  lemma MergeParted(v: Space, a: Addr, b: Addr, x: Addr, y: Addr)
    requires Tiled(v) && Free(v, a) && Free(v, b) && b == After(v, a) && PartedBut(v, x, y)
    requires x == a || x == b || y == a || y == b
    ensures x == a && y == b ==> PartedBut(Merged(v, a, b), a, a)
    ensures x == a && y == a ==> PartedBut(Merged(v, a, b), NIL, NIL)
  {
    var w := Merged(v, a, b);
    assert BlockOk(v, a) && BlockOk(v, b);
    forall c: Addr ensures x == a && y == b ==> Parted(w, a, a, c) {
      assert Parted(v, x, y, c);
    }
    forall c: Addr ensures x == a && y == a ==> Parted(w, NIL, NIL, c) {
      assert Parted(v, x, y, c) && Parted(v, x, y, b);
      if c in v && After(v, c) == b && c != a { OnlyBefore(v, a, c); }
    }
  }

  /** The block a in use becomes free. */
  function Released(v: Space, a: Addr): Space
    requires a in v
  {
    v[a := v[a].(size := 0, first := false, bytes := [])]
  }

  lemma ReleaseTiled(v: Space, a: Addr)
    requires Tiled(v) && a in v
    ensures Tiled(Released(v, a))
  {
    var w := Released(v, a);
    forall c: Addr | c in w ensures BlockOk(w, c) { assert BlockOk(v, c); }
    forall c: Addr, d: Addr ensures Before(w, c, d) { assert Before(v, c, d); }
  }

  /** Then it may have a free block p in front of it and one behind it. */
  lemma ReleaseParted(v: Space, a: Addr, p: Addr)
    requires Tiled(v) && PartedBut(v, NIL, NIL) && a in v && v[a].size > 0 && p in v
    requires if a.pos == 0 then p == a else After(v, p) == a
    ensures PartedBut(Released(v, a), p, a)
  {
    var w := Released(v, a);
    assert BlockOk(v, a);
    forall c: Addr ensures Parted(w, p, a, c) {
      assert Parted(v, NIL, NIL, c);
      if c in v { assert BlockOk(v, c); }
      if c in v && After(v, c) == a && a.pos != 0 { OnlyBefore(v, p, c); }
    }
  }

  /** The loose free block a is put to use. */
  function Claimed(v: Space, a: Addr, size: nat, first: bool): Space
    requires a in v && Capacity(v, a) >= 0
  {
    v[a := Block(v[a].next, size, NIL, NIL, first, seq(Capacity(v, a), i => 0))]
  }

  lemma ClaimOk(v: Space, h: seq<Addr>, st: map<Addr, nat>, loose: set<Addr>, a: Addr, size: nat, first: bool)
    requires Tiled(v) && Free(v, a) && a in loose && Listed(v, h, st, loose) && PartedBut(v, NIL, NIL)
    requires 0 < size <= Capacity(v, a)
    ensures var w := Claimed(v, a, size, first);
            Tiled(w) && PartedBut(w, NIL, NIL) && Listed(w, h, st, loose - {a})
  {
    var w := Claimed(v, a, size, first);
    forall c: Addr | c in w ensures BlockOk(w, c) { assert BlockOk(v, c); }
    forall c: Addr, d: Addr ensures Before(w, c, d) { assert Before(v, c, d); }
    forall c: Addr ensures Parted(w, NIL, NIL, c) { assert Parted(v, NIL, NIL, c); }
    ListedStill(v, w, h, st, loose, loose - {a});
  }

  ghost predicate NoBlocks(v: Space, p: nat) {
    forall c {:trigger c in v} :: c in v ==> c.page != p
  }

  function WithFresh(v: Space, p: nat): Space {
    v[Addr(p, 0) := Block(PAGEUSED, 0, NIL, NIL, false, [])]
  }

  /** A new page is one free block. */
  lemma FreshOk(v: Space, h: seq<Addr>, st: map<Addr, nat>, p: nat)
    requires Tiled(v) && Listed(v, h, st, {}) && PartedBut(v, NIL, NIL) && p > 0 && NoBlocks(v, p)
    ensures var w, a := WithFresh(v, p), Addr(p, 0);
            Tiled(w) && Listed(w, h, st, {a}) && PartedBut(w, NIL, NIL) && Capacity(w, a) == PAGEMAXSPARE
  {
    var w, a := WithFresh(v, p), Addr(p, 0);
    forall c: Addr | c in w ensures BlockOk(w, c) { assert c in v ==> BlockOk(v, c); }
    forall c: Addr, d: Addr ensures Before(w, c, d) { assert Before(v, c, d); }
    forall c: Addr ensures Parted(w, NIL, NIL, c) {
      assert Parted(v, NIL, NIL, c);
      if c in v { assert BlockOk(v, c); }
    }
    ListedStill(v, w, h, st, {}, {a});
  }

  /** The only block of a page goes with it. */
  lemma DropOk(v: Space, h: seq<Addr>, st: map<Addr, nat>, a: Addr)
    requires Tiled(v) && Listed(v, h, st, {a}) && PartedBut(v, NIL, NIL) && Free(v, a) && Capacity(v, a) == PAGEMAXSPARE
    ensures var w := v - {a};
            Tiled(w) && Listed(w, h, st, {}) && PartedBut(w, NIL, NIL) && NoBlocks(w, a.page)
  {
    var w := v - {a};
    ClassRange(v, a);
    forall c: Addr | c in v && c.page == a.page ensures c == a {
      assert BlockOk(v, c) && Before(v, a, c);
    }
    forall c: Addr | c in w ensures BlockOk(w, c) { assert BlockOk(v, c); }
    forall c: Addr, d: Addr ensures Before(w, c, d) { assert Before(v, c, d); }
    forall c: Addr ensures Parted(w, NIL, NIL, c) { assert Parted(v, NIL, NIL, c); }
    ListedStill(v, w, h, st, {a}, {});
  }

  // ---------------------------------------------------------------- splitting a block in use

  function RoundUp(n: nat): nat {
    (n + 15) / 16 * 16
  }

  /** The block a in use now ends at `at`; a free block takes the rest, and the free block b
      behind a, if any. */
  function Shortened(v: Space, a: Addr, at: nat): Space
    requires a in v && a.pos + HDR <= at && |v[a].bytes| >= at - a.pos - HDR
  {
    var b := After(v, a);
    var w := if Free(v, b) then v - {b} else v;
    w[Addr(a.page, at) := Block(if Free(v, b) then v[b].next else v[a].next, 0, NIL, NIL, false, [])]
     [a := v[a].(next := at, bytes := v[a].bytes[..at - a.pos - HDR])]
  }

  ghost predicate ShortenPre(v: Space, a: Addr, at: nat) {
    && Tiled(v) && a in v && v[a].size > 0 && at % 16 == 0
    && a.pos + HDR + v[a].size <= at && a.pos + FRAGHDR <= at && at + FRAGHDR <= v[a].next
  }

  /** What is cut off always has room for the header of a free block. */
  lemma RestFits(v: Space, a: Addr, size: nat)
    requires Tiled(v) && a in v && v[a].size == size > 0 && Capacity(v, a) >= PAGEMINSPARE + size + HDR
    ensures ShortenPre(v, a, RoundUp(a.pos + HDR + size))
    ensures v[a].next - RoundUp(a.pos + HDR + size) - HDR >= 5
  {
    assert BlockOk(v, a);
    if v[a].next < PAGEUSED { assert BlockOk(v, After(v, a)); }
  }

  lemma ShortenTiled(v: Space, a: Addr, at: nat)
    requires ShortenPre(v, a, at)
    ensures |v[a].bytes| >= at - a.pos - HDR && Tiled(Shortened(v, a, at)) && Addr(a.page, at) !in v
  {
    assert BlockOk(v, a);
    var b, n, w := After(v, a), Addr(a.page, at), Shortened(v, a, at);
    assert Before(v, a, n);
    if b in v { assert BlockOk(v, b); }
    forall c: Addr | c in w ensures BlockOk(w, c) {
      if c in v { assert BlockOk(v, c); }
      if c in v && After(v, c) == b && v[a].next < PAGEUSED { OnlyBefore(v, a, c); }
    }
    forall c: Addr, d: Addr ensures Before(w, c, d) {
      ShortenBefore(v, a, at, c, d);
    }
  }

  lemma ShortenBefore(v: Space, a: Addr, at: nat, c: Addr, d: Addr)
    requires ShortenPre(v, a, at) && |v[a].bytes| >= at - a.pos - HDR && Addr(a.page, at) !in v
    ensures Before(Shortened(v, a, at), c, d)
  {
    var b := After(v, a);
    assert Before(v, c, d) && Before(v, a, d) && Before(v, b, d) && Before(v, c, a) && Before(v, a, c);
    assert BlockOk(v, a);
  }

  lemma ShortenParted(v: Space, a: Addr, at: nat)
    requires ShortenPre(v, a, at) && PartedBut(v, NIL, NIL) && |v[a].bytes| >= at - a.pos - HDR
    ensures PartedBut(Shortened(v, a, at), NIL, NIL)
  {
    assert BlockOk(v, a);
    var b, n, w := After(v, a), Addr(a.page, at), Shortened(v, a, at);
    ShortenTiled(v, a, at);
    if b in v { assert BlockOk(v, b) && Parted(v, NIL, NIL, b); }
    forall c: Addr ensures Parted(w, NIL, NIL, c) {
      assert Parted(v, NIL, NIL, c);
      if c in v { assert BlockOk(v, c); }
    }
  }

  lemma ShortenListed(v: Space, h: seq<Addr>, st: map<Addr, nat>, loose: set<Addr>, a: Addr, at: nat)
    requires ShortenPre(v, a, at) && Listed(v, h, st, loose) && |v[a].bytes| >= at - a.pos - HDR
    requires loose == if Free(v, After(v, a)) then {After(v, a)} else {}
    ensures Listed(Shortened(v, a, at), h, st, {Addr(a.page, at)})
  {
    ShortenTiled(v, a, at);
    ListedStill(v, Shortened(v, a, at), h, st, loose, {Addr(a.page, at)});
  }
}

/** The allocator of cells of one size: chunks of 255 cells, each with a free list kept in the free
    cells themselves, and two lists of chunks searched by address. */
module FixAllocator {
  import opened Common

  const MAX_COUNT := 255
  const NO_CELL := 0xFF

  /** A chunk: where its cells are, its first free cell, and how many are free. */
  datatype Chunk = Chunk(buf: nat, header: nat, freeCount: nat)

  /** The first bytes of free cells, by address. */
  type Memory = map<nat, nat>

  /** The address of cell i: as many sizes behind the start of the chunk. */
  function Cell(es: nat, buf: nat, i: nat): nat
    decreases i
  {
    if i == 0 then buf else Cell(es, buf, i - 1) + es
  }

  function End(es: nat, c: Chunk): nat {
    c.buf + MAX_COUNT * es
  }

  predicate Inside(es: nat, c: Chunk, a: nat) {
    c.buf <= a < End(es, c)
  }

  // ---------------------------------------------------------------- cells

  lemma {:induction false} Steps(es: nat, buf: nat, i: nat, j: nat)
    requires es >= 1
    ensures i < j ==> Cell(es, buf, i) + es <= Cell(es, buf, j)
    decreases j
  {
    if i < j { Steps(es, buf, i, j - 1); }
  }

  lemma {:induction false} CellIs(es: nat, buf: nat, i: nat)
    ensures Cell(es, buf, i) == buf + i * es
    decreases i
  {
    if i > 0 {
      CellIs(es, buf, i - 1);
      assert (i - 1) * es == i * es - es;
    }
  }

  lemma CellIn(es: nat, buf: nat, i: nat)
    requires es >= 1 && i < MAX_COUNT
    ensures buf <= Cell(es, buf, i) < buf + MAX_COUNT * es
  {
    Steps(es, buf, i, MAX_COUNT);
    CellIs(es, buf, MAX_COUNT);
    CellIs(es, buf, i);
    assert i * es >= 0;
  }

  lemma CellOnce(es: nat, buf: nat, i: nat, j: nat)
    requires es >= 1
    ensures Cell(es, buf, i) == Cell(es, buf, j) ==> i == j
  {
    Steps(es, buf, i, j);
    Steps(es, buf, j, i);
  }

  /** The number of a cell can be told from its address. */
  lemma CellNumber(es: nat, buf: nat, i: nat, x: nat, q: nat)
    requires es >= 1 && buf + x == Cell(es, buf, i) && q == x / es
    ensures q == i
  {
    Division(x, es, q);
    CellIs(es, buf, q);
    Steps(es, buf, i, q);
    Steps(es, buf, q, i);
  }

  lemma Division(x: nat, es: nat, q: nat)
    requires es >= 1 && q == x / es
    ensures q * es <= x < q * es + es
  {
    assert x == es * (x / es) + x % es;
  }

  /** Cells of regions that do not overlap are different. */
  lemma CellsApart(es: nat, b: nat, i: nat, d: nat, j: nat)
    requires es >= 1 && i < MAX_COUNT && j < MAX_COUNT && Cell(es, b, i) == Cell(es, d, j)
    requires (b < d ==> b + MAX_COUNT * es < d) && (d < b ==> d + MAX_COUNT * es < b)
    ensures b == d && i == j
  {
    CellIn(es, b, i);
    CellIn(es, d, j);
    CellOnce(es, b, i, j);
  }

  // ---------------------------------------------------------------- one chunk

  /** The free cells of a chunk in the order of its list. */
  ghost predicate Chained(es: nat, mem: Memory, buf: nat, header: nat, l: seq<nat>)
    decreases |l|
  {
    if l == [] then header == NO_CELL
    else header == l[0] && l[0] < MAX_COUNT && Cell(es, buf, l[0]) in mem && Chained(es, mem, buf, mem[Cell(es, buf, l[0])], l[1..])
  }

  ghost predicate ChunkOk(es: nat, mem: Memory, c: Chunk, l: seq<nat>) {
    Chained(es, mem, c.buf, c.header, l) && Distinct(l) && |l| == c.freeCount && forall i {:trigger i in l} :: i in l ==> i < MAX_COUNT
  }

  /** Bytes elsewhere do not matter. */
  lemma {:induction false} ChainedElsewhere(es: nat, mem: Memory, mem': Memory, buf: nat, header: nat, l: seq<nat>)
    requires Chained(es, mem, buf, header, l)
    requires forall i {:trigger i in l} :: i in l ==> Cell(es, buf, i) in mem ==> Cell(es, buf, i) in mem' && mem'[Cell(es, buf, i)] == mem[Cell(es, buf, i)]
    ensures Chained(es, mem', buf, header, l)
    decreases |l|
  {
    if l != [] {
      assert l[0] in l;
      forall i | i in l[1..] ensures i in l { }
      ChainedElsewhere(es, mem, mem', buf, mem[Cell(es, buf, l[0])], l[1..]);
    }
  }

  /** The first free cell is taken. */
  lemma CellTaken(es: nat, mem: Memory, c: Chunk, l: seq<nat>, mem': Memory)
    requires es >= 1 && ChunkOk(es, mem, c, l) && c.freeCount > 0
    requires Cell(es, c.buf, l[0]) in mem && mem' == mem - {Cell(es, c.buf, l[0])}
    ensures ChunkOk(es, mem', Chunk(c.buf, mem[Cell(es, c.buf, l[0])], c.freeCount - 1), l[1..]) && l[0] !in l[1..]
  {
    var t := l[1..];
    forall i | i in t ensures Cell(es, c.buf, i) != Cell(es, c.buf, l[0]) && i in l {
      var k :| 0 <= k < |t| && t[k] == i;
      assert l[k + 1] == i;
      if Cell(es, c.buf, i) == Cell(es, c.buf, l[0]) { CellOnce(es, c.buf, i, l[0]); }
    }
    ChainedElsewhere(es, mem, mem', c.buf, mem[Cell(es, c.buf, l[0])], t);
    forall i, j | 0 <= i < j < |t| ensures t[i] != t[j] { assert l[i + 1] != l[j + 1]; }
  }

  /** A cell in use goes to the front of the list. */
  lemma CellFreed(es: nat, mem: Memory, c: Chunk, l: seq<nat>, i: nat, mem': Memory)
    requires es >= 1 && ChunkOk(es, mem, c, l) && i < MAX_COUNT && i !in l && mem' == mem[Cell(es, c.buf, i) := c.header]
    ensures ChunkOk(es, mem', Chunk(c.buf, i, c.freeCount + 1), [i] + l)
  {
    forall j | j in l ensures Cell(es, c.buf, j) != Cell(es, c.buf, i) {
      if Cell(es, c.buf, j) == Cell(es, c.buf, i) { CellOnce(es, c.buf, j, i); }
    }
    ChainedElsewhere(es, mem, mem', c.buf, c.header, l);
    assert ([i] + l)[1..] == l;
  }

  /** Cells that are all free number as many as there are. */
  lemma {:induction false} FreeAtMost(l: seq<nat>, n: nat)
    requires Distinct(l) && forall i {:trigger i in l} :: i in l ==> i < n
    ensures |l| <= n
    decreases n
  {
    var s := Elements(l);
    Bounded(s, n);
  }

  lemma {:induction false} Elements(l: seq<nat>) returns (s: set<nat>)
    requires Distinct(l)
    ensures |s| == |l| && forall i {:trigger i in s} {:trigger i in l} :: i in s <==> i in l
    decreases |l|
  {
    s := {};
    if l != [] {
      var front := l[..|l| - 1];
      var s' := Elements(front);
      assert l == front + [l[|l| - 1]];
      assert l[|l| - 1] !in front;
      s := s' + {l[|l| - 1]};
    }
  }

  lemma {:induction false} Bounded(s: set<nat>, n: nat)
    requires forall i {:trigger i in s} :: i in s ==> i < n
    ensures |s| <= n
    decreases n
  {
    if n == 0 { assert s == {}; } else { Bounded(s - {n - 1}, n - 1); }
  }

  // ---------------------------------------------------------------- lists of chunks

  /** The first n chunks stand in the order of their addresses. */
  ghost predicate Ordered(cs: seq<Chunk>, n: nat) {
    n <= |cs| && forall i, j :: 0 <= i < j < n ==> cs[i].buf < cs[j].buf
  }

  /** The place of the first of the first n chunks that ends at address a or behind. */
  method LowerBound(es: nat, cs: seq<Chunk>, n: nat, a: nat) returns (k: nat)
    requires n <= |cs| && Ordered(cs, n)
    ensures k <= n && (forall i :: 0 <= i < k ==> End(es, cs[i]) < a) && (forall i :: k <= i < n ==> a <= End(es, cs[i]))
  {
    var lo, hi := 0, n;
    while lo < hi
      invariant lo <= hi <= n && (forall i :: 0 <= i < lo ==> End(es, cs[i]) < a) && (forall i :: hi <= i < n ==> a <= End(es, cs[i]))
    {
      var mid := (lo + hi) / 2;
      if End(es, cs[mid]) < a { lo := mid + 1; } else { hi := mid; }
    }
    k := lo;
  }

  /** The place where a chunk at address b belongs. */
  method LowerBoundOf(cs: seq<Chunk>, n: nat, b: nat) returns (k: nat)
    requires n <= |cs| && Ordered(cs, n)
    ensures k <= n && (forall i :: 0 <= i < k ==> cs[i].buf < b) && (forall i :: k <= i < n ==> b <= cs[i].buf)
  {
    var lo, hi := 0, n;
    while lo < hi
      invariant lo <= hi <= n && (forall i :: 0 <= i < lo ==> cs[i].buf < b) && (forall i :: hi <= i < n ==> b <= cs[i].buf)
    {
      var mid := (lo + hi) / 2;
      if cs[mid].buf < b { lo := mid + 1; } else { hi := mid; }
    }
    k := lo;
  }

  // ---------------------------------------------------------------- all chunks

  /** The chunks by address, their lists of free cells, and the cells in use with the chunk and
      number of each. */
  datatype Cells = Cells(dir: map<nat, Chunk>, lists: map<nat, seq<nat>>, home: map<nat, (nat, nat)>)

  /** All is in order: regions do not overlap, and there is something between any two. */
  ghost predicate Pool(es: nat, mem: Memory, g: Cells) {
    es >= 1 && g.lists.Keys == g.dir.Keys && ChunksOk(es, mem, g.dir, g.lists) && Regions(es, g.dir) && Homes(es, g.lists, g.home)
  }

  ghost predicate ChunksOk(es: nat, mem: Memory, dir: map<nat, Chunk>, lists: map<nat, seq<nat>>)
    requires lists.Keys == dir.Keys
  {
    && (forall b {:trigger dir[b]} :: b in dir ==> dir[b].buf == b)
    && (forall b {:trigger ChunkAt(es, mem, dir, lists, b)} :: b in dir ==> ChunkAt(es, mem, dir, lists, b))
  }

  ghost predicate ChunkAt(es: nat, mem: Memory, dir: map<nat, Chunk>, lists: map<nat, seq<nat>>, b: nat)
    requires lists.Keys == dir.Keys
  {
    b in dir && ChunkOk(es, mem, dir[b], lists[b])
  }

  lemma OneChunk(es: nat, mem: Memory, dir: map<nat, Chunk>, lists: map<nat, seq<nat>>, b: nat)
    requires lists.Keys == dir.Keys && ChunksOk(es, mem, dir, lists) && b in dir
    ensures dir[b].buf == b && ChunkOk(es, mem, dir[b], lists[b])
  {
    var listed := ChunkAt(es, mem, dir, lists, b);
    assert listed;
  }

  ghost predicate Regions(es: nat, dir: map<nat, Chunk>) {
    forall b, d {:trigger Away(es, b, d)} :: b in dir && d in dir && b != d ==> Away(es, b, d)
  }

  ghost predicate Away(es: nat, b: nat, d: nat) {
    b + MAX_COUNT * es < d || d + MAX_COUNT * es < b
  }

  lemma TwoRegions(es: nat, dir: map<nat, Chunk>, b: nat, d: nat)
    requires Regions(es, dir) && b in dir && d in dir
    ensures (b < d ==> b + MAX_COUNT * es < d) && (d < b ==> d + MAX_COUNT * es < b)
  {
    var away := Away(es, b, d);
    assert b != d ==> away;
  }

  /** Exactly the cells on no free list are in use. */
  ghost predicate Homes(es: nat, lists: map<nat, seq<nat>>, home: map<nat, (nat, nat)>) {
    && (forall a {:trigger home[a]} :: a in home ==> home[a].0 in lists && home[a].1 < MAX_COUNT && home[a].1 !in lists[home[a].0] && a == Cell(es, home[a].0, home[a].1))
    && (forall b, i {:trigger Cell(es, b, i)} :: b in lists && 0 <= i < MAX_COUNT && i !in lists[b] ==> Cell(es, b, i) in home && home[Cell(es, b, i)] == (b, i))
  }

  /** An address is that of one cell at most. */
  lemma OneCell(es: nat, mem: Memory, g: Cells, b: nat, i: nat, d: nat, j: nat)
    requires Pool(es, mem, g) && b in g.dir && d in g.dir && i < MAX_COUNT && j < MAX_COUNT && Cell(es, b, i) == Cell(es, d, j)
    ensures b == d && i == j
  {
    TwoRegions(es, g.dir, b, d);
    CellsApart(es, b, i, d, j);
  }

  /** Changing the byte of one cell leaves the other chunks' lists alone. */
  lemma OtherChunk(es: nat, mem: Memory, g: Cells, b: nat, i: nat, mem': Memory, d: nat)
    requires Pool(es, mem, g) && b in g.dir && i < MAX_COUNT && d in g.dir && d != b
    requires forall a {:trigger a in mem'} {:trigger mem[a]} :: a in mem && a != Cell(es, b, i) ==> a in mem' && mem'[a] == mem[a]
    ensures ChunkOk(es, mem', g.dir[d], g.lists[d])
  {
    OneChunk(es, mem, g.dir, g.lists, d);
    forall j | j in g.lists[d] && Cell(es, d, j) in mem ensures Cell(es, d, j) in mem' && mem'[Cell(es, d, j)] == mem[Cell(es, d, j)] {
      if Cell(es, d, j) == Cell(es, b, i) { OneCell(es, mem, g, b, i, d, j); }
    }
    ChainedElsewhere(es, mem, mem', d, g.dir[d].header, g.lists[d]);
  }

  lemma TakeOk(es: nat, mem: Memory, g: Cells, b: nat, i: nat, r: nat, c': Chunk, mem': Memory)
    returns (g': Cells)
    requires Pool(es, mem, g) && b in g.dir && g.dir[b].freeCount > 0 && i == g.dir[b].header && r == Cell(es, b, i)
    requires r in mem ==> mem' == mem - {r} && c' == Chunk(b, mem[r], g.dir[b].freeCount - 1)
    ensures r in mem && i < MAX_COUNT && r !in g.home && g'.dir == g.dir[b := c'] && g'.home.Keys == g.home.Keys + {r}
    ensures Pool(es, mem', g')
  {
    var l := g.lists[b];
    OneChunk(es, mem, g.dir, g.lists, b);
    assert l[0] == i && l[0] in l;
    g' := Cells(g.dir[b := c'], g.lists[b := l[1..]], g.home[r := (b, i)]);
    CellTaken(es, mem, g.dir[b], l, mem');
    if r in g.home { OneCell(es, mem, g, b, i, g.home[r].0, g.home[r].1); }
    forall d {:trigger ChunkAt(es, mem', g'.dir, g'.lists, d)} | d in g'.dir ensures ChunkAt(es, mem', g'.dir, g'.lists, d) {
      if d != b { OtherChunk(es, mem, g, b, i, mem', d); }
    }
    assert l == [i] + l[1..];
    OneMoreHome(es, mem, g, g'.lists, g'.home, b, i, r);
  }

  /** Cell i of chunk b is in use from now on. */
  lemma OneMoreHome(es: nat, mem: Memory, g: Cells, lists': map<nat, seq<nat>>, home': map<nat, (nat, nat)>, b: nat, i: nat, r: nat)
    requires Pool(es, mem, g) && b in g.dir && i < MAX_COUNT && r == Cell(es, b, i) && r !in g.home && home' == g.home[r := (b, i)]
    requires lists'.Keys == g.lists.Keys && (forall d :: d in g.lists && d != b ==> lists'[d] == g.lists[d]) && forall x {:trigger x in lists'[b]} :: x in lists'[b] <==> x in g.lists[b] && x != i
    ensures Homes(es, lists', home')
  {
    forall d, j {:trigger Cell(es, d, j)} | d in lists' && 0 <= j < MAX_COUNT && j !in lists'[d] ensures Cell(es, d, j) in home' && home'[Cell(es, d, j)] == (d, j) {
      if Cell(es, d, j) == r { OneCell(es, mem, g, b, i, d, j); }
    }
  }

  lemma FreeOk(es: nat, mem: Memory, g: Cells, a: nat, c': Chunk, mem': Memory)
    returns (g': Cells)
    requires Pool(es, mem, g) && a in g.home
    requires var (b, i) := g.home[a]; b in g.dir && mem' == mem[a := g.dir[b].header] && c' == Chunk(b, i, g.dir[b].freeCount + 1)
    ensures g'.dir == g.dir[g.home[a].0 := c'] && g'.home == g.home - {a} && Pool(es, mem', g')
  {
    var (b, i) := g.home[a];
    var l := g.lists[b];
    OneChunk(es, mem, g.dir, g.lists, b);
    g' := Cells(g.dir[b := c'], g.lists[b := [i] + l], g.home - {a});
    CellFreed(es, mem, g.dir[b], l, i, mem');
    forall d {:trigger ChunkAt(es, mem', g'.dir, g'.lists, d)} | d in g'.dir ensures ChunkAt(es, mem', g'.dir, g'.lists, d) {
      if d != b { OtherChunk(es, mem, g, b, i, mem', d); }
    }
    forall x {:trigger g'.home[x]} | x in g'.home ensures g'.home[x].0 in g'.lists && g'.home[x].1 < MAX_COUNT && g'.home[x].1 !in g'.lists[g'.home[x].0] && x == Cell(es, g'.home[x].0, g'.home[x].1) {
      assert g'.home[x] == g.home[x];
    }
  }

  /** The cells from i on, in order. */
  function From(i: nat): (l: seq<nat>)
    requires i <= MAX_COUNT
    ensures |l| == MAX_COUNT - i && forall k {:trigger l[k]} :: 0 <= k < |l| ==> l[k] == i + k
    decreases MAX_COUNT - i
  {
    if i == MAX_COUNT then [] else [i] + From(i + 1)
  }

  lemma {:induction false} FreshChain(es: nat, mem: Memory, buf: nat, i: nat)
    requires i <= MAX_COUNT && forall j {:trigger Cell(es, buf, j)} :: i <= j < MAX_COUNT ==> Cell(es, buf, j) in mem && mem[Cell(es, buf, j)] == (j + 1) % 256
    ensures Chained(es, mem, buf, if i == MAX_COUNT then NO_CELL else i, From(i))
    decreases MAX_COUNT - i
  {
    if i < MAX_COUNT {
      FreshChain(es, mem, buf, i + 1);
      assert From(i)[1..] == From(i + 1);
      assert (i + 1) % 256 == if i + 1 == MAX_COUNT then NO_CELL else i + 1;
    }
  }

  /** The cells of a region as a new chunk sets them up. */
  ghost predicate SetUpTo(es: nat, mem: Memory, b: nat, n: nat) {
    forall i {:trigger Cell(es, b, i)} :: 0 <= i < n ==> Cell(es, b, i) in mem && mem[Cell(es, b, i)] == (i + 1) % 256
  }

  ghost predicate SetUp(es: nat, mem: Memory, b: nat) {
    SetUpTo(es, mem, b, MAX_COUNT)
  }

  lemma CellSetUp(es: nat, mem0: Memory, mem: Memory, b: nat, i: nat)
    requires es >= 1 && i < MAX_COUNT && SetUpTo(es, mem, b, i) && SameOutside(es, mem0, mem, b)
    ensures var mem' := mem[Cell(es, b, i) := (i + 1) % 256]; SetUpTo(es, mem', b, i + 1) && SameOutside(es, mem0, mem', b)
  {
    CellIn(es, b, i);
    var mem' := mem[Cell(es, b, i) := (i + 1) % 256];
    forall j {:trigger Cell(es, b, j)} | 0 <= j < i + 1 ensures Cell(es, b, j) in mem' && mem'[Cell(es, b, j)] == (j + 1) % 256 {
      CellOnce(es, b, i, j);
    }
  }

  ghost predicate SameOutside(es: nat, mem: Memory, mem': Memory, b: nat) {
    forall a {:trigger mem'[a]} {:trigger mem[a]} :: a in mem && !(b <= a < b + MAX_COUNT * es) ==> a in mem' && mem'[a] == mem[a]
  }

  /** A new chunk, all cells free, where malloc put it. */
  lemma NewOk(es: nat, mem: Memory, g: Cells, b: nat, mem': Memory)
    returns (g': Cells)
    requires Pool(es, mem, g) && Room(es, g.dir, b) && SetUp(es, mem', b) && SameOutside(es, mem, mem', b)
    ensures g'.dir == g.dir[b := Chunk(b, 0, MAX_COUNT)] && g'.home == g.home && Pool(es, mem', g')
  {
    var l := From(0);
    g' := Cells(g.dir[b := Chunk(b, 0, MAX_COUNT)], g.lists[b := l], g.home);
    FreshOk(es, mem', b, l);
    NewChunks(es, mem, g, b, mem', g'.dir, g'.lists, l);
    forall i | 0 <= i < MAX_COUNT ensures i in l { assert l[i] == i; }
    NewApart(es, g.dir, g'.dir, b);
    NewHomes(es, mem, g, g'.lists, b, l);
  }

  lemma NewChunks(es: nat, mem: Memory, g: Cells, b: nat, mem': Memory,
                  dir': map<nat, Chunk>, lists': map<nat, seq<nat>>, l: seq<nat>)
    requires Pool(es, mem, g) && Room(es, g.dir, b) && SameOutside(es, mem, mem', b)
    requires dir' == g.dir[b := Chunk(b, 0, MAX_COUNT)] && lists' == g.lists[b := l] && ChunkOk(es, mem', Chunk(b, 0, MAX_COUNT), l)
    ensures lists'.Keys == dir'.Keys && ChunksOk(es, mem', dir', lists')
  {
    forall d {:trigger ChunkAt(es, mem', dir', lists', d)} | d in dir' ensures ChunkAt(es, mem', dir', lists', d) {
      if d != b { NewElsewhere(es, mem, g, b, mem', d); }
    }
  }

  lemma FreshOk(es: nat, mem: Memory, b: nat, l: seq<nat>)
    requires SetUp(es, mem, b) && l == From(0)
    ensures ChunkOk(es, mem, Chunk(b, 0, MAX_COUNT), l)
  {
    FreshChain(es, mem, b, 0);
  }

  /** Nothing is where the new chunk is, or next to it. */
  ghost predicate Room(es: nat, dir: map<nat, Chunk>, b: nat) {
    forall d {:trigger d in dir} :: d in dir ==> d + MAX_COUNT * es < b || b + MAX_COUNT * es < d
  }

  lemma NewApart(es: nat, dir: map<nat, Chunk>, dir': map<nat, Chunk>, b: nat)
    requires Room(es, dir, b) && dir'.Keys == dir.Keys + {b}
    requires Regions(es, dir)
    ensures Regions(es, dir')
  {
    forall c, d {:trigger Away(es, c, d)} | c in dir' && d in dir' && c != d ensures Away(es, c, d) {
      if c != b && d != b { TwoRegions(es, dir, c, d); }
    }
  }

  lemma NewHomes(es: nat, mem: Memory, g: Cells, lists': map<nat, seq<nat>>, b: nat, l: seq<nat>)
    requires Pool(es, mem, g) && b !in g.dir && lists' == g.lists[b := l] && forall i :: 0 <= i < MAX_COUNT ==> i in l
    ensures Homes(es, lists', g.home)
  {
  }

  lemma NewElsewhere(es: nat, mem: Memory, g: Cells, b: nat, mem': Memory, d: nat)
    requires Pool(es, mem, g) && Room(es, g.dir, b) && d in g.dir && SameOutside(es, mem, mem', b)
    ensures ChunkOk(es, mem', g.dir[d], g.lists[d])
  {
    var l := g.lists[d];
    OneChunk(es, mem, g.dir, g.lists, d);
    forall j | j in l && Cell(es, d, j) in mem ensures Cell(es, d, j) in mem' && mem'[Cell(es, d, j)] == mem[Cell(es, d, j)] {
      CellIn(es, d, j);
    }
    ChainedElsewhere(es, mem, mem', d, g.dir[d].header, l);
  }

  /** A chunk whose cells are all free can go. */
  lemma GoneOk(es: nat, mem: Memory, g: Cells, b: nat)
    returns (g': Cells)
    requires Pool(es, mem, g) && b in g.dir && g.dir[b].freeCount == MAX_COUNT
    ensures g'.dir == g.dir - {b} && g'.home == g.home && Pool(es, mem, g')
  {
    g' := Cells(g.dir - {b}, g.lists - {b}, g.home);
    OneChunk(es, mem, g.dir, g.lists, b);
    forall d {:trigger ChunkAt(es, mem, g'.dir, g'.lists, d)} | d in g'.dir ensures ChunkAt(es, mem, g'.dir, g'.lists, d) { OneChunk(es, mem, g.dir, g.lists, d); }
    forall a {:trigger g.home[a]} | a in g.home ensures g.home[a].0 in g'.lists {
      AllFree(g.lists[b], g.home[a].1);
    }
  }

  /** 255 different cells are all cells. */
  lemma AllFree(l: seq<nat>, i: nat)
    requires Distinct(l) && |l| == MAX_COUNT && i < MAX_COUNT && forall j {:trigger j in l} :: j in l ==> j < MAX_COUNT
    ensures i in l
  {
    var s := Elements(l);
    if i !in l { Bounded(s + {i}, MAX_COUNT); }
  }

  // ---------------------------------------------------------------- the two lists

  ghost predicate Has(cs: seq<Chunk>, b: nat) {
    exists k :: 0 <= k < |cs| && cs[k].buf == b
  }

  ghost predicate Bufs(cs: seq<Chunk>) {
    forall i, j :: 0 <= i < j < |cs| ==> cs[i].buf != cs[j].buf
  }

  /** The list has exactly the chunks of the directory that have free cells, or those that have none. */
  ghost predicate Lists(cs: seq<Chunk>, dir: map<nat, Chunk>, some: bool) {
    && Bufs(cs)
    && (forall k {:trigger cs[k]} :: 0 <= k < |cs| ==> cs[k].buf in dir && dir[cs[k].buf] == cs[k] && (cs[k].freeCount > 0 <==> some))
    && (forall b {:trigger Has(cs, b)} :: b in dir && (dir[b].freeCount > 0 <==> some) ==> Has(cs, b))
  }

  function Sum(cs: seq<Chunk>): nat
    decreases |cs|
  {
    if cs == [] then 0 else Sum(cs[..|cs| - 1]) + cs[|cs| - 1].freeCount
  }

  lemma {:induction false} SumCat(a: seq<Chunk>, b: seq<Chunk>)
    ensures Sum(a + b) == Sum(a) + Sum(b)
    decreases |b|
  {
    if b == [] { assert a + b == a; }
    else {
      var n := |b| - 1;
      assert (a + b)[..|a + b| - 1] == a + b[..n];
      SumCat(a, b[..n]);
    }
  }

  lemma SumAt(cs: seq<Chunk>, k: nat)
    requires k < |cs|
    ensures Sum(cs) == Sum(cs[..k]) + cs[k].freeCount + Sum(cs[k + 1..])
    ensures forall c :: Sum(cs[k := c]) == Sum(cs) - cs[k].freeCount + c.freeCount
    ensures Sum(cs[..k] + cs[k + 1..]) == Sum(cs) - cs[k].freeCount
  {
    SumThree(cs[..k], cs[k], cs[k + 1..]);
    assert cs == cs[..k] + [cs[k]] + cs[k + 1..];
    SumCat(cs[..k], cs[k + 1..]);
    forall c ensures Sum(cs[k := c]) == Sum(cs) - cs[k].freeCount + c.freeCount {
      SumThree(cs[..k], c, cs[k + 1..]);
      assert cs[k := c] == cs[..k] + [c] + cs[k + 1..];
    }
  }

  lemma SumThree(a: seq<Chunk>, c: Chunk, b: seq<Chunk>)
    ensures Sum(a + [c] + b) == Sum(a) + c.freeCount + Sum(b)
  {
    SumCat(a + [c], b);
    SumCat(a, [c]);
    assert [c][..0] == [];
  }

  lemma {:induction false} SumBelow(cs: seq<Chunk>, es: nat, mem: Memory, g: Cells)
    requires Pool(es, mem, g) && forall k {:trigger cs[k]} :: 0 <= k < |cs| ==> cs[k].buf in g.dir && g.dir[cs[k].buf] == cs[k]
    ensures Sum(cs) <= MAX_COUNT * |cs|
    decreases |cs|
  {
    if cs != [] {
      var n := |cs| - 1;
      SumBelow(cs[..n], es, mem, g);
      OneChunk(es, mem, g.dir, g.lists, cs[n].buf);
      FreeAtMost(g.lists[cs[n].buf], MAX_COUNT);
    }
  }

  /** Two directories that differ at b at most. */
  ghost predicate SameBut(dir: map<nat, Chunk>, dir': map<nat, Chunk>, b: nat) {
    forall d {:trigger dir'[d]} {:trigger dir[d]} {:trigger d in dir} {:trigger d in dir'} :: d != b ==> (d in dir <==> d in dir') && (d in dir ==> dir'[d] == dir[d])
  }

  lemma HasAt(cs: seq<Chunk>, k: nat, b: nat)
    requires k < |cs| && cs[k].buf == b
    ensures Has(cs, b)
  {
  }

  lemma Replaced(cs: seq<Chunk>, dir: map<nat, Chunk>, k: nat, c: Chunk, some: bool)
    requires Lists(cs, dir, some) && k < |cs| && cs[k].buf == c.buf && (c.freeCount > 0 <==> some)
    ensures Lists(cs[k := c], dir[c.buf := c], some)
  {
    var cs', dir' := cs[k := c], dir[c.buf := c];
    forall b {:trigger dir'[b]} | b in dir' && (dir'[b].freeCount > 0 <==> some) ensures Has(cs', b) {
      if b == c.buf { HasAt(cs', k, b); }
      else {
        assert Has(cs, b);
        var j :| 0 <= j < |cs| && cs[j].buf == b;
        HasAt(cs', j, b);
      }
    }
  }

  lemma TakenOut(cs: seq<Chunk>, dir: map<nat, Chunk>, k: nat, dir': map<nat, Chunk>, some: bool, cs': seq<Chunk>)
    requires Lists(cs, dir, some) && k < |cs| && SameBut(dir, dir', cs[k].buf) && cs' == cs[..k] + cs[k + 1..]
    requires cs[k].buf in dir' ==> (dir'[cs[k].buf].freeCount > 0 <==> !some)
    ensures Lists(cs', dir', some)
  {
    forall j {:trigger cs'[j]} | 0 <= j < |cs'| ensures cs'[j] == (if j < k then cs[j] else cs[j + 1]) { }
    forall b {:trigger dir'[b]} | b in dir' && (dir'[b].freeCount > 0 <==> some) ensures Has(cs', b) {
      assert b != cs[k].buf && dir[b] == dir'[b] && Has(cs, b);
      var j :| 0 <= j < |cs| && cs[j].buf == b;
      HasAt(cs', if j < k then j else j - 1, b);
    }
  }

  lemma PutIn(cs: seq<Chunk>, dir: map<nat, Chunk>, k: nat, c: Chunk, dir': map<nat, Chunk>, some: bool, cs': seq<Chunk>)
    requires Lists(cs, dir, some) && k <= |cs| && SameBut(dir, dir', c.buf) && cs' == cs[..k] + [c] + cs[k..]
    requires c.buf in dir ==> (dir[c.buf].freeCount > 0 <==> !some)
    requires c.buf in dir' && dir'[c.buf] == c && (c.freeCount > 0 <==> some)
    ensures Lists(cs', dir', some)
  {
    forall j | 0 <= j < |cs| ensures cs[j].buf != c.buf { assert dir[cs[j].buf] == cs[j]; }
    Widened(cs, k, c, cs');
    forall j {:trigger cs'[j]} | 0 <= j < |cs'| ensures cs'[j].buf in dir' && dir'[cs'[j].buf] == cs'[j] && (cs'[j].freeCount > 0 <==> some) {
      var d := if j < k then cs[j] else if j == k then c else cs[j - 1];
      assert cs'[j] == d;
    }
    forall b {:trigger Has(cs', b)} | b in dir' && (dir'[b].freeCount > 0 <==> some) ensures Has(cs', b) {
      if b != c.buf { assert dir[b] == dir'[b] && Has(cs, b); }
    }
  }

  lemma Widened(cs: seq<Chunk>, k: nat, c: Chunk, cs': seq<Chunk>)
    requires Bufs(cs) && k <= |cs| && cs' == cs[..k] + [c] + cs[k..] && forall j :: 0 <= j < |cs| ==> cs[j].buf != c.buf
    ensures Bufs(cs') && Has(cs', c.buf) && forall b {:trigger Has(cs', b)} {:trigger Has(cs, b)} :: Has(cs, b) ==> Has(cs', b)
  {
    HasAt(cs', k, c.buf);
    forall b {:trigger Has(cs', b)} {:trigger Has(cs, b)} | Has(cs, b) ensures Has(cs', b) {
      var j :| 0 <= j < |cs| && cs[j].buf == b;
      HasAt(cs', if j < k then j else j + 1, b);
    }
    forall j, m | 0 <= j < m < |cs'| ensures cs'[j].buf != cs'[m].buf {
      assert cs'[j] == (if j < k then cs[j] else if j == k then c else cs[j - 1]);
      assert cs'[m] == (if m < k then cs[m] else if m == k then c else cs[m - 1]);
    }
  }

  lemma Untouched(cs: seq<Chunk>, dir: map<nat, Chunk>, b: nat, dir': map<nat, Chunk>, some: bool)
    requires Lists(cs, dir, some) && SameBut(dir, dir', b)
    requires b in dir ==> (dir[b].freeCount > 0 <==> !some)
    requires b in dir' ==> (dir'[b].freeCount > 0 <==> !some)
    ensures Lists(cs, dir', some)
  {
    forall k {:trigger cs[k]} | 0 <= k < |cs| ensures cs[k].buf != b { assert dir[cs[k].buf] == cs[k]; }
    forall d {:trigger dir'[d]} | d in dir' && (dir'[d].freeCount > 0 <==> some) ensures Has(cs, d) { assert dir[d] == dir'[d]; }
  }

  /** Of chunks in the order of their addresses, the only one that can hold a is the first to end
      there or behind. */
  lemma OnlyThere(es: nat, cs: seq<Chunk>, n: nat, dir: map<nat, Chunk>, some: bool, a: nat, k: nat, m: nat)
    requires es >= 1 && Ordered(cs, n) && Lists(cs, dir, some) && Regions(es, dir) && k <= n && m < n && Inside(es, cs[m], a)
    requires (forall i :: 0 <= i < k ==> End(es, cs[i]) < a) && (forall i :: k <= i < n ==> a <= End(es, cs[i]))
    ensures k == m
  {
    forall i | 0 <= i < m ensures End(es, cs[i]) < cs[m].buf { TwoRegions(es, dir, cs[i].buf, cs[m].buf); }
    if k < n { assert a <= End(es, cs[k]); }
  }

  /** Only one chunk can hold an address. */
  lemma OneInside(es: nat, dir: map<nat, Chunk>, c: Chunk, d: Chunk, a: nat)
    requires Regions(es, dir) && c.buf in dir && d.buf in dir && Inside(es, c, a) && Inside(es, d, a)
    ensures c.buf == d.buf
  {
    TwoRegions(es, dir, c.buf, d.buf);
  }

  /** The only chunk with free cells is new. */
  lemma OneBlock(dir0: map<nat, Chunk>, dir: map<nat, Chunk>, empty: seq<Chunk>, c: Chunk)
    requires Lists([], dir0, true) && Lists(empty, dir0, false) && c.buf !in dir0 && dir == dir0[c.buf := c] && c.freeCount > 0
    ensures Lists([c], dir, true) && Lists(empty, dir, false) && Ordered([c], 0) && Sum([c]) == c.freeCount
  {
    var none: seq<Chunk> := [];
    PutIn(none, dir0, 0, c, dir, true, [c]);
    Untouched(empty, dir0, c.buf, dir, false);
    assert [c][..0] == [];
  }

  /** Both lists are as they should be, and there is a chunk with free cells. */
  ghost predicate InOrder(blocks: seq<Chunk>, empty: seq<Chunk>, dir: map<nat, Chunk>) {
    && Lists(blocks, dir, true) && Lists(empty, dir, false)
    && blocks != [] && Ordered(blocks, |blocks| - 1) && Ordered(empty, |empty|)
  }

  /** Just when the last free cell was left there is one chunk more, at `region`. */
  ghost predicate Grown(was: int, dir: set<nat>, dir': set<nat>, now: int, region: nat) {
    if was == 1 then dir' == dir + {region} && now == was + MAX_COUNT else dir' == dir && now == was
  }

  /** A chunk becomes whole when its last cell in use is freed; it goes back to malloc then, if there
      are free cells enough without it. */
  ghost predicate Whole(dir: map<nat, Chunk>, b: nat, count: int) {
    b in dir && dir[b].freeCount + 1 == MAX_COUNT && count + 1 > 2 * MAX_COUNT
  }

  class FixAllocator {
    const es: nat
    var blocks: seq<Chunk>           // chunks with free cells, all but the last by address
    var empty: seq<Chunk>            // chunks without, by address
    var count: int                   // free cells in all
    var mem: Memory
    ghost var cells: Cells

    /** Everything is in order, and `count` says k more cells than are free. */
    ghost predicate Off(k: int)
      reads this
    {
      Pool(es, mem, cells) && InOrder(blocks, empty, cells.dir) && count == Sum(blocks) + k
    }

    ghost predicate Valid()
      reads this
    {
      Off(0)
    }

    /** `region` is what malloc answers. */
    constructor (elementSize: nat, region: nat)
      requires elementSize >= 1
      ensures Valid() && cells.home == map[] && es == elementSize
    {
      es, mem, count, blocks, empty := elementSize, map[], 0, [], [];
      cells := Cells(map[], map[], map[]);
      new;
      AllocNewChunk(region);
    }

    /** The first bytes of the cells of a new chunk number the cells behind them. */
    method Init(region: nat)
      requires es >= 1
      modifies this`mem
      ensures SetUp(es, mem, region) && SameOutside(es, old(mem), mem, region)
    {
      var i, offset := 0, 0;
      while i < MAX_COUNT
        invariant i <= MAX_COUNT && region + offset == Cell(es, region, i) && SameOutside(es, old(mem), mem, region)
        invariant SetUpTo(es, mem, region, i)
      {
        CellSetUp(es, old(mem), mem, region, i);
        mem := mem[region + offset := (i + 1) % 256];
        i, offset := i + 1, offset + es;
      }
    }

    method AllocNewChunk(region: nat)
      requires Pool(es, mem, cells) && Lists(blocks, cells.dir, true) && Lists(empty, cells.dir, false) && blocks == [] && Ordered(empty, |empty|)
      requires Room(es, cells.dir, region)
      modifies this
      ensures Off(old(count)) && cells.home == old(cells.home)
      ensures cells.dir.Keys == old(cells.dir).Keys + {region} && count == old(count) + MAX_COUNT
    {
      ghost var mem0, dir0 := mem, cells.dir;
      Init(region);
      var c := Chunk(region, 0, MAX_COUNT);
      blocks, count := [c], count + MAX_COUNT;
      ghost var g := NewOk(es, mem0, cells, region, mem);
      OneBlock(dir0, g.dir, empty, c);
      cells := g;
    }

    /** Takes the first free cell of the last chunk. */
    method TakeCell() returns (r: nat)
      requires Valid()
      modifies this`blocks, this`mem, this`cells
      ensures Pool(es, mem, cells) && r !in old(cells.home) && cells.home.Keys == old(cells.home).Keys + {r}
      ensures Took(old(blocks), blocks, old(cells.dir), cells.dir)
    {
      var n := |blocks| - 1;
      var c := blocks[n];
      ghost var b := c.buf;
      assert cells.dir[b] == c && cells.dir[b].freeCount > 0;
      r := Cell(es, c.buf, c.header);
      ghost var mem0 := mem;
      FirstFree(es, mem, cells, b, r);
      var c', mem' := Chunk(c.buf, mem[r], c.freeCount - 1), mem - {r};
      blocks, mem := blocks[n := c'], mem';
      cells := TakeOk(es, mem0, cells, b, c.header, r, c', mem');
    }

    /** Puts a chunk without free cells among the others. */
    method PushEmpty(c: Chunk, ghost dir0: map<nat, Chunk>)
      requires Lists(empty, dir0, false) && Ordered(empty, |empty|) && c.freeCount == 0 && cells.dir == dir0[c.buf := c]
      requires c.buf in dir0 && dir0[c.buf].freeCount > 0
      modifies this`empty
      ensures Lists(empty, cells.dir, false) && Ordered(empty, |empty|)
    {
      var k := LowerBoundOf(empty, |empty|, c.buf);
      PutIn(empty, dir0, k, c, cells.dir, false, empty[..k] + [c] + empty[k..]);
      Placed(empty, |empty|, k, c, dir0, false);
      empty := empty[..k] + [c] + empty[k..];
    }

    /** A cell that is not in use.  `region` is what malloc answers if it has to be asked: just when
        the last free cell is given away. */
    method Alloc(region: nat) returns (r: nat)
      requires Valid() && Room(es, cells.dir, region)
      modifies this
      ensures Valid() && r !in old(cells.home) && cells.home.Keys == old(cells.home).Keys + {r}
      ensures Grown(old(count), old(cells.dir).Keys, cells.dir.Keys, count + 1, region)
    {
      ghost var cs, dir0 := blocks, cells.dir;
      r := TakeCell();
      LastOk(cs, blocks, dir0, cells.dir, empty);
      if blocks[|blocks| - 1].freeCount == 0 {
        Exhausted(cs, dir0, region);
      }
      count := count - 1;
    }

    /** The last chunk has no free cell any more: it changes cells.lists, and if it was the only one
        there is a new one. */
    method Exhausted(ghost cs: seq<Chunk>, ghost dir0: map<nat, Chunk>, region: nat)
      requires Pool(es, mem, cells) && Took(cs, blocks, dir0, cells.dir) && blocks[|blocks| - 1].freeCount == 0 && Room(es, dir0, region)
      requires Lists(cs, dir0, true) && Ordered(cs, |cs| - 1) && Lists(empty, dir0, false) && Ordered(empty, |empty|) && count == Sum(cs)
      modifies this
      ensures Off(1) && cells.home == old(cells.home)
      ensures Grown(old(count), dir0.Keys, cells.dir.Keys, count, region)
    {
      ghost var b := cs[|cs| - 1].buf;
      var c := blocks[|blocks| - 1];
      assert dir0[b] == cs[|cs| - 1];
      PushEmpty(c, dir0);
      blocks := blocks[..|blocks| - 1];
      LastOut(cs, dir0, |cs| - 1, cells.dir, blocks);
      LastCount(cs, blocks, cells.dir);
      if blocks == [] {
        StillRoom(es, dir0, cells.dir, region, b);
        AllocNewChunk(region);
      }
    }

    /** The place of the chunk that holds address a among those with free cells, or their number. */
    method FindChunk(a: nat) returns (k: nat)
      requires Valid()
      ensures k <= |blocks| && (k < |blocks| ==> Inside(es, blocks[k], a))
      ensures k == |blocks| ==> forall m {:trigger blocks[m]} :: 0 <= m < |blocks| ==> !Inside(es, blocks[m], a)
    {
      var n := |blocks| - 1;
      if Inside(es, blocks[n], a) { return n; }
      k := LowerBound(es, blocks, n, a);
      forall m {:trigger blocks[m]} | 0 <= m < n && m != k ensures !Inside(es, blocks[m], a) {
        if Inside(es, blocks[m], a) { OnlyThere(es, blocks, n, cells.dir, true, a, k, m); }
      }
      if k == n || !Inside(es, blocks[k], a) { k := |blocks|; }
    }

    /** Cell a of chunk c goes to the front of the chunk's free list. */
    method FreeCell(c: Chunk, a: nat) returns (c': Chunk)
      requires Pool(es, mem, cells) && c.buf in cells.dir && cells.dir[c.buf] == c && Inside(es, c, a) && a in cells.home
      modifies this`mem, this`cells
      ensures Pool(es, mem, cells) && cells.home == old(cells.home) - {a} && old(cells.home)[a].0 == c.buf
      ensures c'.buf == c.buf && c'.freeCount == c.freeCount + 1 && cells.dir == old(cells.dir)[c.buf := c']
    {
      var offset := a - c.buf;
      HomeOf(es, mem, cells, a, c, offset, offset / es);
      c' := Chunk(c.buf, offset / es, c.freeCount + 1);
      ghost var mem0 := mem;
      mem := mem[a := c.header];
      cells := FreeOk(es, mem0, cells, a, c', mem);
    }

    /** Gives a cell in use back, and its chunk when that is whole and not needed. */
    method Free(a: nat)
      requires Valid() && a in cells.home
      modifies this
      ensures Valid() && cells.home == old(cells.home) - {a}
      ensures var b := old(cells.home)[a].0; var whole := Whole(old(cells.dir), b, old(count));
              && cells.dir.Keys == old(cells.dir).Keys - (if whole then {b} else {})
              && count == old(count) + 1 - if whole then MAX_COUNT else 0
    {
      var k := FindChunk(a);
      if k == |blocks| {
        FreeEmpty(a);
      } else {
        FreeListed(k, a);
        if blocks[k].freeCount == MAX_COUNT && count > 2 * MAX_COUNT { RemoveChunk(blocks[k], k); }
      }
    }

    method FreeListed(k: nat, a: nat)
      requires Valid() && a in cells.home && k < |blocks| && Inside(es, blocks[k], a)
      modifies this
      ensures Valid() && cells.home == old(cells.home) - {a} && |blocks| == |old(blocks)|
      ensures count == old(count) + 1 && cells.dir.Keys == old(cells.dir).Keys
      ensures var b := old(cells.home)[a].0; b in old(cells.dir) && blocks[k].buf == b && blocks[k].freeCount == old(cells.dir)[b].freeCount + 1
    {
      ghost var dir0, cs := cells.dir, blocks;
      assert cells.dir[blocks[k].buf] == blocks[k];
      var c := FreeCell(blocks[k], a);
      blocks := blocks[k := c];
      count := count + 1;
      SameList(cs, dir0, k, c, empty);
    }

    /** The chunk of cell a has no free cells: it has one now, and changes cells.lists. */
    method FreeEmpty(a: nat)
      requires Valid() && a in cells.home && forall m {:trigger blocks[m]} :: 0 <= m < |blocks| ==> !Inside(es, blocks[m], a)
      modifies this
      ensures Valid() && cells.home == old(cells.home) - {a}
      ensures count == old(count) + 1 && cells.dir.Keys == old(cells.dir).Keys
      ensures var b := old(cells.home)[a].0; b in old(cells.dir) && old(cells.dir)[b].freeCount == 0
    {
      ghost var dir0, cs := cells.dir, empty;
      var k := LowerBound(es, empty, |empty|, a);
      EmptyHolds(es, mem, cells, a, blocks, empty, k);
      assert cells.dir[empty[k].buf] == empty[k];
      var c := FreeCell(empty[k], a);
      empty := empty[..k] + empty[k + 1..];
      BackToBlocks(c, k, dir0, cs);
      count := count + 1;
    }

    /** Chunk c goes where it belongs by address, in front of the last one at most. */
    method BackToBlocks(c: Chunk, ghost k: nat, ghost dir0: map<nat, Chunk>, ghost cs: seq<Chunk>)
      requires Lists(blocks, dir0, true) && blocks != [] && Ordered(blocks, |blocks| - 1) && Lists(cs, dir0, false) && Ordered(cs, |cs|)
      requires k < |cs| && empty == cs[..k] + cs[k + 1..] && cs[k].buf == c.buf && cells.dir == dir0[c.buf := c] && c.freeCount == 1
      modifies this`blocks
      ensures InOrder(blocks, empty, cells.dir) && Sum(blocks) == Sum(old(blocks)) + 1
    {
      ghost var bs := blocks;
      var j := LowerBoundOf(blocks, |blocks| - 1, c.buf);
      blocks := blocks[..j] + [c] + blocks[j..];
      ListsChanged(bs, cs, dir0, cells.dir, c, k, j, blocks, empty);
    }

    /** A chunk with all cells free goes back to malloc; others stay. */
    method RemoveChunk(c: Chunk, ghost k: nat)
      requires Valid() && k < |blocks| && blocks[k] == c && c.freeCount == MAX_COUNT && count > 2 * MAX_COUNT
      modifies this
      ensures Valid() && cells.home == old(cells.home)
      ensures cells.dir.Keys == old(cells.dir).Keys - {c.buf} && count == old(count) - MAX_COUNT
    {
      ghost var dir0, cs := cells.dir, blocks;
      SumBelow(blocks, es, mem, cells);
      TakeOut(c, k);
      count := count - MAX_COUNT;
      assert cells.dir[c.buf] == c;
      ghost var g := GoneOk(es, mem, cells, c.buf);
      OneGone(cs, k, blocks, dir0, g.dir, empty);
      cells := g;
    }

    method TakeOut(c: Chunk, ghost k: nat)
      requires blocks != [] && Ordered(blocks, |blocks| - 1) && Bufs(blocks) && k < |blocks| && blocks[k] == c
      modifies this`blocks
      ensures blocks == old(blocks)[..k] + old(blocks)[k + 1..]
    {
      var n := |blocks| - 1;
      if c.buf == blocks[n].buf {
        assert k == n && blocks[..n] == blocks[..n] + blocks[n + 1..];
        blocks := blocks[..n];
      } else {
        var j := LowerBoundOf(blocks, n, c.buf);
        FirstIs(blocks, n, k, j, c.buf);
        blocks := blocks[..j] + blocks[j + 1..];
      }
    }
  }

  lemma FirstIs(cs: seq<Chunk>, n: nat, k: nat, j: nat, b: nat)
    requires Ordered(cs, n) && k < |cs| == n + 1 && cs[k].buf == b && cs[n].buf != b && j <= n
    requires (forall i :: 0 <= i < j ==> cs[i].buf < b) && (forall i :: j <= i < n ==> b <= cs[i].buf)
    ensures j == k
  {
    forall i | 0 <= i < k ensures cs[i].buf < cs[k].buf { }
    if j < n { assert b <= cs[j].buf; }
  }

  /** Chunk c, the k-th of those without free cells, has one now. */
  lemma ListsChanged(bs: seq<Chunk>, cs: seq<Chunk>, dir0: map<nat, Chunk>, dir: map<nat, Chunk>, c: Chunk, k: nat, j: nat, bs': seq<Chunk>, cs': seq<Chunk>)
    requires Lists(bs, dir0, true) && bs != [] && Ordered(bs, |bs| - 1) && Lists(cs, dir0, false) && Ordered(cs, |cs|)
    requires k < |cs| && cs' == cs[..k] + cs[k + 1..] && cs[k].buf == c.buf && dir == dir0[c.buf := c] && c.freeCount == 1
    requires j < |bs| && bs' == bs[..j] + [c] + bs[j..]
    requires (forall i :: 0 <= i < j ==> bs[i].buf < c.buf) && (forall i :: j <= i < |bs| - 1 ==> c.buf <= bs[i].buf)
    ensures InOrder(bs', cs', dir) && Sum(bs') == Sum(bs) + 1
  {
    ListsMoved(bs, cs, dir0, dir, c, k, j, bs', cs');
    StillOrdered(cs, |cs|, k, cs');
    Placed(bs, |bs| - 1, j, c, dir0, true);
    SumThree(bs[..j], c, bs[j..]);
    SumCat(bs[..j], bs[j..]);
    assert bs == bs[..j] + bs[j..];
  }

  lemma ListsMoved(bs: seq<Chunk>, cs: seq<Chunk>, dir0: map<nat, Chunk>, dir: map<nat, Chunk>, c: Chunk, k: nat, j: nat, bs': seq<Chunk>, cs': seq<Chunk>)
    requires Lists(bs, dir0, true) && Lists(cs, dir0, false) && k < |cs| && cs[k].buf == c.buf && dir == dir0[c.buf := c] && c.freeCount == 1
    requires cs' == cs[..k] + cs[k + 1..] && j <= |bs| && bs' == bs[..j] + [c] + bs[j..]
    ensures Lists(bs', dir, true) && Lists(cs', dir, false) && c.buf in dir0 && dir0[c.buf].freeCount == 0
  {
    assert dir0[c.buf] == cs[k];
    TakenOut(cs, dir0, k, dir, false, cs');
    PutIn(bs, dir0, j, c, dir, true, bs');
  }

  lemma OneGone(cs: seq<Chunk>, k: nat, cs': seq<Chunk>, dir0: map<nat, Chunk>, dir: map<nat, Chunk>, empty: seq<Chunk>)
    requires InOrder(cs, empty, dir0) && k < |cs| && |cs| > 1 && cs' == cs[..k] + cs[k + 1..] && dir == dir0 - {cs[k].buf}
    ensures InOrder(cs', empty, dir) && Sum(cs') == Sum(cs) - cs[k].freeCount
  {
    TakenOut(cs, dir0, k, dir, true, cs');
    assert dir0[cs[k].buf] == cs[k];
    Untouched(empty, dir0, cs[k].buf, dir, false);
    StillOrdered(cs, |cs| - 1, k, cs');
    SumAt(cs, k);
  }

  /** A chunk of the first n, or another, taken out. */
  lemma StillOrdered(cs: seq<Chunk>, n: nat, k: nat, cs': seq<Chunk>)
    requires Ordered(cs, n) && k < |cs| && n <= |cs| <= n + 1 && cs' == cs[..k] + cs[k + 1..]
    ensures if n == |cs| then Ordered(cs', |cs'|) else cs' == [] || Ordered(cs', |cs'| - 1)
  {
    forall j {:trigger cs'[j]} | 0 <= j < |cs'| ensures cs'[j] == (if j < k then cs[j] else cs[j + 1]) { }
  }

  /** A listed chunk has a free cell more. */
  lemma SameList(cs: seq<Chunk>, dir: map<nat, Chunk>, k: nat, c: Chunk, empty: seq<Chunk>)
    requires Lists(cs, dir, true) && Lists(empty, dir, false) && cs != [] && Ordered(cs, |cs| - 1) && k < |cs|
    requires c.buf == cs[k].buf && c.freeCount == cs[k].freeCount + 1
    ensures var cs', dir' := cs[k := c], dir[c.buf := c];
            Lists(cs', dir', true) && Lists(empty, dir', false) && Ordered(cs', |cs'| - 1) && Sum(cs') == Sum(cs) + 1
  {
    Replaced(cs, dir, k, c, true);
    assert dir[c.buf] == cs[k];
    Untouched(empty, dir, c.buf, dir[c.buf := c], false);
    SumAt(cs, k);
  }

  /** A cell in use is found under its chunk and number. */
  lemma HomeOf(es: nat, mem: Memory, g: Cells, a: nat, c: Chunk, offset: nat, i: nat)
    requires Pool(es, mem, g) && a in g.home && c.buf in g.dir && g.dir[c.buf] == c && Inside(es, c, a) && offset == a - c.buf && i == offset / es
    ensures g.home[a] == (c.buf, i)
  {
    var (b, j) := g.home[a];
    assert g.dir[b].buf == b;
    CellIn(es, b, j);
    OneInside(es, g.dir, c, g.dir[b], a);
    CellNumber(es, b, j, offset, i);
  }

  /** A cell in use of none of the chunks with free cells is in the one that the search finds
      among the others. */
  lemma EmptyHolds(es: nat, mem: Memory, g: Cells, a: nat, blocks: seq<Chunk>, empty: seq<Chunk>, k: nat)
    requires Pool(es, mem, g) && a in g.home && Lists(blocks, g.dir, true) && Lists(empty, g.dir, false) && Ordered(empty, |empty|)
    requires forall m {:trigger blocks[m]} :: 0 <= m < |blocks| ==> !Inside(es, blocks[m], a)
    requires k <= |empty| && (forall i :: 0 <= i < k ==> End(es, empty[i]) < a) && (forall i :: k <= i < |empty| ==> a <= End(es, empty[i]))
    ensures k < |empty| && Inside(es, empty[k], a)
  {
    var (b, j) := g.home[a];
    assert g.dir[b].buf == b;
    CellIn(es, b, j);
    forall m | 0 <= m < |blocks| ensures blocks[m].buf != b { assert g.dir[blocks[m].buf] == blocks[m]; }
    var listed := Has(blocks, b) || Has(empty, b);
    assert listed;
    var m :| 0 <= m < |empty| && empty[m].buf == b;
    assert g.dir[empty[m].buf] == empty[m];
    OnlyThere(es, empty, |empty|, g.dir, false, a, k, m);
  }

  /** The last chunk gave a cell away. */
  ghost predicate Took(cs: seq<Chunk>, cs': seq<Chunk>, dir: map<nat, Chunk>, dir': map<nat, Chunk>) {
    && |cs'| == |cs| > 0
    && var n := |cs| - 1;
    && cs' == cs[n := cs'[n]] && cs'[n].buf == cs[n].buf && cs'[n].freeCount == cs[n].freeCount - 1 && dir' == dir[cs[n].buf := cs'[n]]
  }

  lemma LastOk(cs: seq<Chunk>, cs': seq<Chunk>, dir: map<nat, Chunk>, dir': map<nat, Chunk>, empty: seq<Chunk>)
    requires Took(cs, cs', dir, dir') && Lists(cs, dir, true) && Lists(empty, dir, false) && Ordered(cs, |cs| - 1)
    ensures cs'[|cs'| - 1].freeCount > 0 ==> Lists(cs', dir', true) && Lists(empty, dir', false) && Ordered(cs', |cs'| - 1) && Sum(cs) == Sum(cs') + 1
  {
    var n := |cs| - 1;
    var c := cs'[n];
    if c.freeCount > 0 {
      SumAt(cs, n);
      Replaced(cs, dir, n, c, true);
      assert dir[c.buf] == cs[n];
      Untouched(empty, dir, c.buf, dir', false);
    }
  }

  lemma LastCount(cs: seq<Chunk>, cs': seq<Chunk>, dir: map<nat, Chunk>)
    requires cs != [] && cs[|cs| - 1].freeCount == 1 && cs' == cs[..|cs| - 1] && Lists(cs', dir, true)
    ensures Sum(cs) == Sum(cs') + 1 && (cs' == [] <==> Sum(cs') == 0)
  {
    if cs' != [] {
      SumAt(cs', 0);
      assert dir[cs'[0].buf] == cs'[0];
    }
  }

  lemma StillRoom(es: nat, dir0: map<nat, Chunk>, dir: map<nat, Chunk>, region: nat, b: nat)
    requires Room(es, dir0, region) && dir.Keys == dir0.Keys + {b} && b in dir0
    ensures Room(es, dir, region)
  {
    forall d {:trigger d in dir} | d in dir ensures d + MAX_COUNT * es < region || region + MAX_COUNT * es < d { assert d in dir0; }
  }

  lemma FirstFree(es: nat, mem: Memory, g: Cells, b: nat, r: nat)
    requires Pool(es, mem, g) && b in g.dir && g.dir[b].freeCount > 0 && r == Cell(es, b, g.dir[b].header)
    ensures r in mem
  {
    OneChunk(es, mem, g.dir, g.lists, b);
  }

  /** A chunk put where it belongs keeps the order. */
  lemma Placed(cs: seq<Chunk>, n: nat, k: nat, c: Chunk, dir: map<nat, Chunk>, some: bool)
    requires Lists(cs, dir, some) && Ordered(cs, n) && k <= n && (c.buf in dir ==> (dir[c.buf].freeCount > 0 <==> !some))
    requires (forall i :: 0 <= i < k ==> cs[i].buf < c.buf) && (forall i :: k <= i < n ==> c.buf <= cs[i].buf)
    ensures Ordered(cs[..k] + [c] + cs[k..], n + 1)
  {
    var cs' := cs[..k] + [c] + cs[k..];
    forall i | 0 <= i < n ensures cs[i].buf != c.buf { assert dir[cs[i].buf] == cs[i]; }
    forall j {:trigger cs'[j]} | 0 <= j < |cs'| ensures cs'[j] == (if j < k then cs[j] else if j == k then c else cs[j - 1]) { }
  }

  /** The last chunk has no free cell any more. */
  lemma LastOut(cs: seq<Chunk>, dir0: map<nat, Chunk>, n: nat, dir: map<nat, Chunk>, cs': seq<Chunk>)
    requires Lists(cs, dir0, true) && |cs| == n + 1 && Ordered(cs, n) && SameBut(dir0, dir, cs[n].buf) && cs' == cs[..n]
    requires cs[n].buf in dir && dir[cs[n].buf].freeCount == 0
    ensures Lists(cs', dir, true) && (cs' != [] ==> Ordered(cs', |cs'| - 1))
  {
    assert cs' == cs[..n] + cs[n + 1..];
    TakenOut(cs, dir0, n, dir, true, cs');
  }
}

/** The cached pages: a table of hash chains that grows, and the order in which pages were last
    used, kept in 32-bit stamps. */
module PageHash {
  import opened Common

  type Image = seq<int>

  /** A cached page: its contents, whether they were changed since the last snapshot, the contents
      at that snapshot, the next page of its chain (0 for none), and the stamp of its last use. */
  datatype Page = Page(image: Image, dirty: bool, snap: Image, next: nat, lru: nat)

  type Pages = map<nat, Page>

  const LRU_LIMIT: nat := 0x1_0000_0000

  // ---------------------------------------------------------------- chains

  /** The page at place k of chain c, of n chains, leads to the next one. */
  ghost predicate Place(ps: Pages, n: nat, c: nat, l: seq<nat>, k: nat) {
    n > 0 && k < |l| ==> l[k] in ps && l[k] != 0 && l[k] % n == c && ps[l[k]].next == if k + 1 < |l| then l[k + 1] else 0
  }

  ghost predicate ChainOk(ps: Pages, n: nat, c: nat, head: nat, l: seq<nat>) {
    && head == (if l == [] then 0 else l[0])
    && (forall k: nat {:trigger Place(ps, n, c, l, k)} :: Place(ps, n, c, l, k))
    && Distinct(l)
  }

  /** Page i is on the chain its index belongs to. */
  ghost predicate Hashed(ps: Pages, chains: seq<seq<nat>>, i: nat) {
    i in ps && |chains| > 0 ==> i != 0 && i in chains[i % |chains|]
  }

  ghost predicate TableOk(ps: Pages, bucket: seq<nat>, chains: seq<seq<nat>>) {
    && |bucket| == |chains| > 0
    && (forall c {:trigger chains[c]} :: 0 <= c < |chains| ==> ChainOk(ps, |chains|, c, bucket[c], chains[c]))
    && (forall i: nat {:trigger Hashed(ps, chains, i)} :: Hashed(ps, chains, i))
  }

  /** A chain is the same where its pages lead where they led. */
  lemma ChainStays(ps: Pages, ps': Pages, n: nat, c: nat, head: nat, l: seq<nat>)
    requires n > 0 && ChainOk(ps, n, c, head, l)
    requires forall i {:trigger ps'[i]} {:trigger i in ps} :: i in ps && i % n == c ==> i in ps' && ps'[i].next == ps[i].next
    ensures ChainOk(ps', n, c, head, l)
  {
    forall k: nat ensures Place(ps', n, c, l, k) { assert Place(ps, n, c, l, k); }
  }

  /** Changing anything but links leaves the table alone. */
  lemma TableStays(ps: Pages, ps': Pages, bucket: seq<nat>, chains: seq<seq<nat>>)
    requires TableOk(ps, bucket, chains) && ps'.Keys == ps.Keys
    requires forall i {:trigger ps'[i]} {:trigger ps[i]} :: i in ps ==> ps'[i].next == ps[i].next
    ensures TableOk(ps', bucket, chains)
  {
    forall c {:trigger chains[c]} | 0 <= c < |chains| ensures ChainOk(ps', |chains|, c, bucket[c], chains[c]) {
      ChainStays(ps, ps', |chains|, c, bucket[c], chains[c]);
    }
    forall i: nat ensures Hashed(ps', chains, i) { assert Hashed(ps, chains, i); }
  }

  /** A new page at the head of its chain. */
  lemma PushOk(ps: Pages, bucket: seq<nat>, chains: seq<seq<nat>>, i: nat, p: Page, c: nat, ps': Pages, bucket': seq<nat>, chains': seq<seq<nat>>)
    requires TableOk(ps, bucket, chains) && i !in ps && i != 0 && c == i % |chains| && p.next == bucket[c]
    requires ps' == ps[i := p] && bucket' == bucket[c := i] && chains' == chains[c := [i] + chains[c]]
    ensures TableOk(ps', bucket', chains')
  {
    var n := |chains|;
    forall d {:trigger chains'[d]} | 0 <= d < n ensures ChainOk(ps', n, d, bucket'[d], chains'[d]) {
      assert ChainOk(ps, n, d, bucket[d], chains[d]);
      if d == c { ChainPushed(ps, n, c, bucket[c], chains[c], i, ps', chains'[c]); } else { ChainStays(ps, ps', n, d, bucket[d], chains[d]); }
    }
    forall j: nat ensures Hashed(ps', chains', j) {
      assert Hashed(ps, chains, j);
      if j == i { assert chains'[c][0] == i; }
      else if j in ps && j % n == c { var k :| 0 <= k < |chains[c]| && chains[c][k] == j; assert chains'[c][k + 1] == j; }
    }
  }

  lemma ChainPushed(ps: Pages, n: nat, c: nat, head: nat, l: seq<nat>, i: nat, ps': Pages, l': seq<nat>)
    requires n > 0 && ChainOk(ps, n, c, head, l) && i !in ps && i != 0 && i % n == c && l' == [i] + l
    requires i in ps' && ps'[i].next == head && forall j {:trigger ps'[j]} {:trigger j in ps} :: j in ps ==> j in ps' && ps'[j].next == ps[j].next
    ensures ChainOk(ps', n, c, i, l')
  {
    forall k | 0 <= k < |l| ensures l[k] in ps { assert Place(ps, n, c, l, k); }
    forall k: nat ensures Place(ps', n, c, l', k) {
      if 0 < k < |l'| {
        var m: nat := k - 1;
        assert Place(ps, n, c, l, m) && l'[k] == l[m];
      }
    }
  }

  /** The page at place k of its chain leaves the table. */
  lemma EraseOk(ps: Pages, bucket: seq<nat>, chains: seq<seq<nat>>, i: nat, c: nat, k: nat, ps': Pages, bucket': seq<nat>, l': seq<nat>)
    requires TableOk(ps, bucket, chains) && i in ps && c == i % |chains| && k < |chains[c]| && chains[c][k] == i
    requires k > 0 ==> chains[c][k - 1] in ps && chains[c][k - 1] != i
    requires ps' == (if k > 0 then ps[chains[c][k - 1] := ps[chains[c][k - 1]].(next := ps[i].next)] else ps) - {i}
    requires bucket' == if k > 0 then bucket else bucket[c := ps[i].next]
    requires l' == chains[c][..k] + chains[c][k + 1..]
    ensures TableOk(ps', bucket', chains[c := l'])
  {
    var n, l, chains' := |chains|, chains[c], chains[c := l'];
    assert ChainOk(ps, n, c, bucket[c], l);
    assert k > 0 ==> Place(ps, n, c, l, k - 1);
    forall d {:trigger chains'[d]} | 0 <= d < n ensures ChainOk(ps', n, d, bucket'[d], chains'[d]) {
      assert ChainOk(ps, n, d, bucket[d], chains[d]);
      if d == c { ChainCut(ps, n, c, bucket[c], l, i, k, ps', bucket'[c], l'); } else { ChainStays(ps, ps', n, d, bucket[d], chains[d]); }
    }
    forall j: nat ensures Hashed(ps', chains', j) {
      assert Hashed(ps, chains, j);
      if j in ps' && j % n == c {
        var m :| 0 <= m < |l| && l[m] == j;
        if m < k { assert l'[m] == j; } else { assert l'[m - 1] == j; }
      }
    }
  }

  lemma ChainCut(ps: Pages, n: nat, c: nat, head: nat, l: seq<nat>, i: nat, k: nat, ps': Pages, head': nat, l': seq<nat>)
    requires n > 0 && ChainOk(ps, n, c, head, l) && k < |l| && l[k] == i && i in ps && l' == l[..k] + l[k + 1..]
    requires head' == if k > 0 then head else ps[i].next
    requires forall j {:trigger ps'[j]} {:trigger j in ps} :: j in ps && j != i ==> j in ps' && ps'[j].next == if k > 0 && j == l[k - 1] then ps[i].next else ps[j].next
    ensures ChainOk(ps', n, c, head', l')
  {
    assert Place(ps, n, c, l, k);
    forall m: nat ensures Place(ps', n, c, l', m) {
      if m < |l'| {
        var x := if m < k then m else m + 1;
        assert Place(ps, n, c, l, x) && l'[m] == l[x];
        assert m + 1 < |l'| ==> l'[m + 1] == if m + 1 < k then l[m + 1] else l[m + 2];
        assert x != k && l[x] != l[k];
      }
    }
  }

  /** Looking along the chain from place k on. */
  lemma OnChain(ps: Pages, bucket: seq<nat>, chains: seq<seq<nat>>, i: nat, c: nat)
    requires TableOk(ps, bucket, chains) && c == i % |chains|
    ensures i in ps <==> i in chains[c]
  {
    assert Hashed(ps, chains, i) && ChainOk(ps, |chains|, c, bucket[c], chains[c]);
    if i in chains[c] {
      var k :| 0 <= k < |chains[c]| && chains[c][k] == i;
      assert Place(ps, |chains|, c, chains[c], k);
    }
  }

  // ---------------------------------------------------------------- the order of use

  /** s without x. */
  function Minus(s: seq<nat>, x: nat): (r: seq<nat>)
    ensures forall y :: y in r <==> y in s && y != x
    decreases |s|
  {
    if s == [] then [] else if s[0] == x then Minus(s[1..], x) else [s[0]] + Minus(s[1..], x)
  }

  ghost predicate Rising(ps: Pages, s: seq<nat>) {
    && (forall j {:trigger s[j]} :: 0 <= j < |s| ==> s[j] in ps)
    && (forall j, k :: 0 <= j < k < |s| ==> ps[s[j]].lru < ps[s[k]].lru)
  }

  /** All pages from the least to the most recently used; their stamps say so. */
  ghost predicate InOrder(ps: Pages, order: seq<nat>) {
    Rising(ps, order) && forall i {:trigger i in ps} {:trigger i in order} :: i in ps <==> i in order
  }

  ghost predicate OrderOk(ps: Pages, order: seq<nat>, lru: nat) {
    && InOrder(ps, order) && lru < LRU_LIMIT
    && (forall j {:trigger order[j]} :: 0 <= j < |order| ==> ps[order[j]].lru < lru)
  }

  /** The first of a rising list is below the rest. */
  lemma TailRising(ps: Pages, s: seq<nat>, t: seq<nat>)
    requires Rising(ps, s) && s != [] && t == s[1..]
    ensures Rising(ps, t) && s[0] in ps && s[0] !in t && forall x {:trigger x in t} :: x in t ==> x in ps && ps[s[0]].lru < ps[x].lru
    ensures s == [s[0]] + t
  {
    assert s == [s[0]] + t;
    forall k | 0 <= k < |t| ensures t[k] in ps && ps[s[0]].lru < ps[t[k]].lru { assert s[k + 1] == t[k]; }
    forall j, k | 0 <= j < k < |t| ensures ps[t[j]].lru < ps[t[k]].lru { assert s[j + 1] == t[j] && s[k + 1] == t[k]; }
  }

  lemma {:induction false} MinusRising(ps: Pages, s: seq<nat>, x: nat)
    requires Rising(ps, s)
    ensures Rising(ps, Minus(s, x)) && |Minus(s, x)| == if x in s then |s| - 1 else |s|
    decreases |s|
  {
    if s != [] {
      var t := s[1..];
      TailRising(ps, s, t);
      MinusRising(ps, t, x);
      var m := Minus(t, x);
      forall j | 0 <= j < |m| ensures m[j] in ps && ps[s[0]].lru < ps[m[j]].lru { assert m[j] in m && m[j] in t; }
    }
  }

  /** There is one way to put pages into the order of their stamps. */
  lemma {:induction false} OneOrder(ps: Pages, s: seq<nat>, t: seq<nat>)
    requires Rising(ps, s) && Rising(ps, t) && forall x {:trigger x in s} {:trigger x in t} :: x in s <==> x in t
    requires |s| == |t|
    ensures s == t
    decreases |s|
  {
    if s != [] {
      var s', t' := s[1..], t[1..];
      TailRising(ps, s, s');
      TailRising(ps, t, t');
      assert s[0] in s && t[0] in t;
      assert s[0] == t[0];
      forall x ensures x in s' <==> x in t' { assert x in s <==> x in t; }
      OneOrder(ps, s', t');
    }
  }

  // ---------------------------------------------------------------- what is evicted

  /** What a cleanup leaves of the pages in s, of `size` in all: the first clean ones go until no
      more than `low` are left. */
  function Kept(s: seq<nat>, dirty: set<nat>, size: int, low: int): (r: seq<nat>)
    decreases |s|
  {
    if s == [] || size <= low then s
    else if s[0] in dirty then [s[0]] + Kept(s[1..], dirty, size, low)
    else Kept(s[1..], dirty, size - 1, low)
  }

  function CountIn(s: seq<nat>, dirty: set<nat>): (n: nat)
    ensures n <= |s|
    decreases |s|
  {
    if s == [] then 0 else (if s[0] in dirty then 1 else 0) + CountIn(s[1..], dirty)
  }

  /** Dirty pages stay, and of the clean ones the later; as many as there may be, or all dirty ones. */
  lemma {:induction false} KeptWhich(s: seq<nat>, dirty: set<nat>, size: int, low: nat)
    requires size >= |s| && Distinct(s)
    ensures var r := Kept(s, dirty, size, low);
            && (forall x {:trigger x in r} :: x in r ==> x in s)
            && (forall x {:trigger x in dirty} :: x in s && x in dirty ==> x in r)
            && (forall j, k :: 0 <= j < k < |s| && s[j] in r && s[j] !in dirty ==> s[k] in r)
    ensures |Kept(s, dirty, size, low)| == if size <= low then |s|
            else if size - |s| + CountIn(s, dirty) >= low then CountIn(s, dirty) else |s| - (size - low)
    decreases |s|
  {
    if s != [] && size > low {
      var t := s[1..];
      forall j, k | 0 <= j < k < |t| ensures t[j] != t[k] { assert s[j + 1] != s[k + 1]; }
      forall k | 0 <= k < |t| ensures t[k] != s[0] { assert s[0] != s[k + 1]; }
      var n := if s[0] in dirty then size else size - 1;
      KeptWhich(t, dirty, n, low);
      var r, r' := Kept(s, dirty, size, low), Kept(t, dirty, n, low);
      assert s == [s[0]] + t;
      forall x {:trigger x in dirty} | x in s && x in dirty ensures x in r { assert x == s[0] || x in t; }
      forall j, k | 0 <= j < k < |s| && s[j] in r && s[j] !in dirty ensures s[k] in r {
        if j > 0 { assert t[j - 1] == s[j] && t[k - 1] == s[k]; }
      }
    }
  }

  /** The last page of s goes exactly when it is clean and dirty ones are enough without it. */
  lemma {:induction false} LastGoes(s: seq<nat>, dirty: set<nat>, size: int, low: nat)
    requires s != [] && Distinct(s) && size >= |s|
    ensures var n := |s| - 1;
            s[n] !in Kept(s, dirty, size, low) <==> s[n] !in dirty && size > low && size - |s| + CountIn(s[..n], dirty) >= low
    decreases |s|
  {
    if |s| > 1 && size > low {
      var t, n, front := s[1..], |s| - 1, s[..|s| - 1];
      forall j, k | 0 <= j < k < |t| ensures t[j] != t[k] { assert s[j + 1] != s[k + 1]; }
      LastGoes(t, dirty, if s[0] in dirty then size else size - 1, low);
      assert t[n - 1] == s[n] && s[n] != s[0];
      assert t[..n - 1] == front[1..];
      assert CountIn(front, dirty) == (if s[0] in dirty then 1 else 0) + CountIn(t[..n - 1], dirty);
    }
  }

  /** The page used last goes in a cleanup exactly when it is clean and `low` or more of the others
      are dirty: keeping one page at least is no protection for it. */
  lemma MostRecentGoes(s: seq<nat>, dirty: set<nat>, low: nat)
    requires s != [] && Distinct(s) && |s| > low
    ensures s[|s| - 1] !in Kept(s, dirty, |s|, low) <==> s[|s| - 1] !in dirty && CountIn(s[..|s| - 1], dirty) >= low
  {
    LastGoes(s, dirty, |s|, low);
  }

  /** With room for one page and one dirty page, the page used last goes. */
  lemma MostRecentMayGo()
    ensures 8 !in Kept([7, 8], {7}, 2, 1)
  {
  }

  // ---------------------------------------------------------------- sorting by stamp

  /** The pages of s in the order of their stamps. */
  method SortLru(ps: Pages, s: seq<nat>) returns (r: seq<nat>)
    requires forall j {:trigger s[j]} :: 0 <= j < |s| ==> s[j] in ps
    requires forall j, k :: 0 <= j < k < |s| ==> ps[s[j]].lru != ps[s[k]].lru
    ensures Rising(ps, r) && forall x {:trigger x in r} {:trigger x in s} :: x in r <==> x in s
  {
    r := [];
    var i := 0;
    while i < |s|
      invariant i <= |s| && Rising(ps, r) && forall x {:trigger x in r} :: x in r <==> x in s[..i]
    {
      forall j {:trigger r[j]} | 0 <= j < |r| ensures ps[r[j]].lru != ps[s[i]].lru {
        assert r[j] in r;
        var k :| 0 <= k < i && s[..i][k] == r[j];
        assert s[k] == r[j];
      }
      r := InsertLru(ps, r, s[i]);
      assert s[..i + 1] == s[..i] + [s[i]];
      i := i + 1;
    }
    assert s[..i] == s;
  }

  method InsertLru(ps: Pages, s: seq<nat>, x: nat) returns (r: seq<nat>)
    requires Rising(ps, s) && x in ps && forall j {:trigger s[j]} :: 0 <= j < |s| ==> ps[s[j]].lru != ps[x].lru
    ensures Rising(ps, r) && forall y {:trigger y in r} :: y in r <==> y in s || y == x
  {
    var j := 0;
    while j < |s| && ps[s[j]].lru < ps[x].lru
      invariant j <= |s| && forall k :: 0 <= k < j ==> ps[s[k]].lru < ps[x].lru
    {
      j := j + 1;
    }
    r := s[..j] + [x] + s[j..];
    InsertedAt(ps, s, x, j, r);
  }

  lemma InsertedAt(ps: Pages, s: seq<nat>, x: nat, j: nat, r: seq<nat>)
    requires Rising(ps, s) && x in ps && j <= |s| && r == s[..j] + [x] + s[j..]
    requires (forall k :: 0 <= k < j ==> ps[s[k]].lru < ps[x].lru) && (j < |s| ==> ps[s[j]].lru > ps[x].lru)
    ensures Rising(ps, r) && forall y {:trigger y in r} :: y in r <==> y in s || y == x
  {
    assert s == s[..j] + s[j..];
    forall k {:trigger r[k]} | 0 <= k < |r| ensures r[k] in ps && r[k] == (if k < j then s[k] else if k == j then x else s[k - 1]) { }
    forall k, m | 0 <= k < m < |r| ensures ps[r[k]].lru < ps[r[m]].lru {
      assert r[k] == (if k < j then s[k] else if k == j then x else s[k - 1]);
      assert r[m] == (if m < j then s[m] else if m == j then x else s[m - 1]);
    }
  }

  /** All pages, sorted: that is the order they were used in. */
  method InLruOrder(ps: Pages, all: seq<nat>, ghost order: seq<nat>) returns (s: seq<nat>)
    requires InOrder(ps, order) && Distinct(all) && forall x {:trigger x in all} {:trigger x in ps} :: x in all <==> x in ps
    ensures s == order && |order| == |ps| && Distinct(order)
  {
    DistinctStamps(ps, order, all);
    s := SortLru(ps, all);
    SortedOnce(ps, s, order);
  }

  lemma SortedOnce(ps: Pages, s: seq<nat>, order: seq<nat>)
    requires InOrder(ps, s) && InOrder(ps, order)
    ensures s == order && |order| == |ps| && Distinct(order)
  {
    RisingSize(ps, s);
    RisingSize(ps, order);
    OneOrder(ps, s, order);
  }

  class PageHash {
    var pages: Pages                 // the page objects, by index
    var bucket: seq<nat>             // the first page of each chain
    var size: nat
    var lru: nat                     // the next stamp, a 32-bit number
    var high: nat
    var low: nat
    ghost var chains: seq<seq<nat>>
    ghost var order: seq<nat>

    ghost predicate Chained()
      reads this
    {
      TableOk(pages, bucket, chains) && size == |pages| < LRU_LIMIT
    }

    /** There are more chains than pages. */
    ghost predicate TableValid()
      reads this
    {
      Chained() && size < |bucket|
    }

    ghost predicate Valid()
      reads this
    {
      var hashed, ordered := TableValid(), OrderOk(pages, order, lru);
      hashed && ordered
    }

    constructor (high: nat, low: nat)
      ensures Valid() && pages == map[] && order == [] && this.high == high && this.low == low
    {
      this.high, this.low := high, low;
      pages, size, lru := map[], 0, 0;
      var n := 16;
      while n < high
        invariant n >= 16
      {
        n := n * 2;
      }
      bucket := seq(n, _ => 0);
      chains, order := seq(n, _ => []), [];
    }

    /** Whether page i is cached; if so, it is the one used last now. */
    method Find(i: nat) returns (found: bool)
      requires Valid()
      modifies this`pages, this`lru, this`order
      ensures Valid() && found == (i in old(pages)) && SameContents(old(pages), pages)
      ensures order == if found then Minus(old(order), i) + [i] else old(order)
    {
      var c := i % |bucket|;
      var p := bucket[c];
      ghost var l, k := chains[c], 0;
      OnChain(pages, bucket, chains, i, c);
      assert ChainOk(pages, |chains|, c, bucket[c], l);
      while p != 0
        invariant k <= |l| && p == (if k < |l| then l[k] else 0)
        invariant forall m :: 0 <= m < k ==> l[m] != i
        invariant pages == old(pages) && lru == old(lru) && order == old(order)
        decreases |l| - k
      {
        assert Place(pages, |chains|, c, l, k);
        if p == i {
          OrderLess(pages, order, lru, i);
          Touch(i);
          return true;
        }
        p := pages[p].next;
        k := k + 1;
      }
      assert Place(pages, |chains|, c, l, k);
      assert k == |l| && i !in l;
      found := false;
    }

    /** Page i is used: it gets the next stamp, and when the stamps run out all are given anew. */
    method Touch(i: nat)
      requires TableValid() && i in pages && lru < LRU_LIMIT && OrderOk(pages - {i}, Minus(order, i), lru)
      modifies this`pages, this`lru, this`order
      ensures Valid() && SameContents(old(pages), pages) && order == Minus(old(order), i) + [i]
    {
      Stamp(i);
      if lru == LRU_LIMIT { Renumber(); }
    }

    method Stamp(i: nat)
      requires TableValid() && i in pages && lru < LRU_LIMIT && OrderOk(pages - {i}, Minus(order, i), lru)
      modifies this`pages, this`lru, this`order
      ensures TableValid() && SameContents(old(pages), pages) && order == Minus(old(order), i) + [i]
      ensures InOrder(pages, order) && lru == old(lru) + 1 && forall j {:trigger order[j]} :: 0 <= j < |order| ==> pages[order[j]].lru < lru
    {
      ghost var was, rest := pages, Minus(order, i);
      pages := pages[i := pages[i].(lru := lru)];
      Latest(was, pages, rest, i, lru);
      TableStays(was, pages, bucket, chains);
      order := rest + [i];
      lru := lru + 1;
    }

    /** All pages, chain by chain. */
    method Collect() returns (all: seq<nat>)
      requires TableOk(pages, bucket, chains)
      ensures Distinct(all) && forall x {:trigger x in all} {:trigger x in pages} :: x in all <==> x in pages
    {
      all := [];
      var n, c := |bucket|, 0;
      while c < n
        invariant c <= n && Distinct(all) && forall x: nat {:trigger x in all} {:trigger x in pages} :: x in all <==> x in pages && x % n < c
      {
        ghost var l, k := chains[c], 0;
        assert ChainOk(pages, n, c, bucket[c], l);
        var p := bucket[c];
        ghost var before := all;
        while p != 0
          invariant k <= |l| && p == (if k < |l| then l[k] else 0) && Distinct(all)
          invariant forall x: nat {:trigger x in all} :: x in all <==> x in before || x in l[..k]
          decreases |l| - k
        {
          assert Place(pages, n, c, l, k);
          OneListed(l, k, all, before, c, n);
          all := all + [p];
          p := pages[p].next;
          k := k + 1;
        }
        assert Place(pages, n, c, l, k);
        assert l[..k] == l;
        WholeChain(pages, bucket, chains, n, c, before, all);
        c := c + 1;
      }
    }

    /** Gives the pages new stamps from 0 on, in the old order. */
    method Renumber()
      requires TableValid() && InOrder(pages, order)
      modifies this`pages, this`lru
      ensures Valid() && SameContents(old(pages), pages) && lru == size
    {
      var all := Collect();
      var s := InLruOrder(pages, all, order);
      StampFrom(s, 0);
    }

    /** Gives the pages of s from place `from` on the next stamps. */
    method StampFrom(s: seq<nat>, from: nat)
      requires TableValid() && from <= |s| <= size && Distinct(s) && StampedTo(pages, s, from)
      modifies this`pages, this`lru
      ensures TableValid() && SameContents(old(pages), pages) && lru == |s| && StampedTo(pages, s, |s|)
    {
      lru := from;
      while lru < |s|
        invariant from <= lru <= |s| && TableValid() && SameContents(old(pages), pages) && StampedTo(pages, s, lru)
      {
        ghost var was := pages;
        pages := pages[s[lru] := pages[s[lru]].(lru := lru)];
        Stamped(was, pages, s, lru);
        TableStays(was, pages, bucket, chains);
        lru := lru + 1;
      }
    }

    /** Takes page i out of its chain and out of memory. */
    method Erase(i: nat)
      requires TableValid() && i in pages
      modifies this`pages, this`bucket, this`size, this`chains
      ensures TableValid() && pages.Keys == old(pages).Keys - {i} && SameBut(old(pages), pages)
    {
      var c := i % |bucket|;
      ghost var was, bs, l := pages, bucket, chains[c];
      OnChain(pages, bucket, chains, i, c);
      ghost var k: nat :| k < |l| && l[k] == i;
      assert ChainOk(pages, |chains|, c, bucket[c], l) && Place(pages, |chains|, c, l, k);
      if bucket[c] == i {
        assert k == 0;
        bucket := bucket[c := pages[i].next];
      } else {
        var p := BeforeOnChain(i, c, l, k);
        pages := pages[p := pages[p].(next := pages[i].next)];
      }
      pages := pages - {i};
      size := size - 1;
      EraseOk(was, bs, chains, i, c, k, pages, bucket, l[..k] + l[k + 1..]);
      chains := chains[c := l[..k] + l[k + 1..]];
      assert pages.Keys == was.Keys - {i};
    }

    /** The page in front of page i, which is not the first of its chain. */
    method BeforeOnChain(i: nat, c: nat, ghost l: seq<nat>, ghost k: nat) returns (p: nat)
      requires c < |bucket| && |bucket| == |chains| && ChainOk(pages, |bucket|, c, bucket[c], l) && 0 <= k < |l| && l[k] == i && bucket[c] != i
      ensures k > 0 && p == l[k - 1] && p in pages && p != i
    {
      assert k > 0;
      p := bucket[c];
      ghost var m := 0;
      assert Place(pages, |bucket|, c, l, 0);
      while pages[p].next != i
        invariant m < k && p == l[m] && p in pages
        decreases k - m
      {
        assert Place(pages, |bucket|, c, l, m) && Place(pages, |bucket|, c, l, m + 1);
        p := pages[p].next;
        m := m + 1;
      }
      assert Place(pages, |bucket|, c, l, m);
    }

    /** A page enters the table, read from the file or new. */
    method Insert(i: nat, image: Image)
      requires Valid() && i !in pages && i != 0 && size + 1 < LRU_LIMIT
      modifies this`pages, this`bucket, this`size, this`lru, this`chains, this`order
      ensures Valid() && Gained(old(pages), pages, i) && pages[i].image == image && !pages[i].dirty
      ensures order == old(order) + [i]
    {
      ghost var was, before := pages, order;
      Enter(i, image);
      MinusSame(before, i);
      OrderSame(was, pages - {i}, order, lru);
      ghost var entered := pages;
      Touch(i);
      assert forall j {:trigger was[j]} :: j in was ==> (entered - {i})[j] == entered[j];
    }

    /** Page i on its chain, in a table with a chain for every page. */
    method Enter(i: nat, image: Image)
      requires TableValid() && i !in pages && i != 0 && size + 1 < LRU_LIMIT
      modifies this`pages, this`bucket, this`size, this`chains
      ensures TableValid() && pages.Keys == old(pages).Keys + {i} && pages[i].image == image && !pages[i].dirty
      ensures SameBut(old(pages), pages - {i})
    {
      Push(i, image);
      if size == |bucket| { Rehash(); }
    }

    method Push(i: nat, image: Image)
      requires TableValid() && i !in pages && i != 0 && size + 1 < LRU_LIMIT
      modifies this`pages, this`bucket, this`size, this`chains
      ensures Chained() && i in pages && pages[i].image == image && !pages[i].dirty
      ensures pages - {i} == old(pages) && size == old(size) + 1 && |bucket| == |old(bucket)|
    {
      var c := i % |bucket|;
      ghost var was, bs := pages, bucket;
      pages := pages[i := Page(image, false, [], bucket[c], 0)];
      bucket := bucket[c := i];
      PushOk(was, bs, chains, i, pages[i], c, pages, bucket, chains[c := [i] + chains[c]]);
      chains := chains[c := [i] + chains[c]];
      size := size + 1;
      assert pages.Keys == was.Keys + {i} && pages - {i} == was;
    }

    /** Twice as many chains; every page moves to the chain it belongs to now. */
    method Rehash()
      requires Chained()
      modifies this`pages, this`bucket, this`chains
      ensures Chained() && |bucket| == 2 * |old(bucket)| && pages.Keys == old(pages).Keys && SameBut(old(pages), pages)
    {
      ghost var was, n := pages, |bucket|;
      var tmp, c := seq(2 * |bucket|, _ => 0), 0;
      ghost var done: Pages, lists := map[], seq(2 * n, _ => []);
      while c < |bucket|
        invariant c <= n == |bucket| && bucket == old(bucket) && chains == old(chains) && |tmp| == 2 * n
        invariant TableOk(done, tmp, lists) && Moving(was, pages, done)
        invariant forall x: nat {:trigger x in done} :: x in done <==> x in was && x % n < c
      {
        ghost var l := chains[c];
        tmp, done, lists := RehashChain(c, was, done, tmp, lists);
        c := c + 1;
      }
      assert done.Keys == was.Keys;
      assert pages == done;
      bucket, chains := tmp, lists;
    }

    /** Moves the pages of chain c. */
    method RehashChain(c: nat, ghost was: Pages, ghost done0: Pages, tmp0: seq<nat>, ghost lists0: seq<seq<nat>>)
      returns (tmp: seq<nat>, ghost done: Pages, ghost lists: seq<seq<nat>>)
      requires TableOk(was, bucket, chains) && c < |bucket| && |tmp0| == 2 * |bucket|
      requires TableOk(done0, tmp0, lists0) && Moving(was, pages, done0)
      requires forall x: nat {:trigger x in done0} :: x in done0 <==> x in was && x % |bucket| < c
      modifies this`pages
      ensures |tmp| == 2 * |bucket| && TableOk(done, tmp, lists) && Moving(was, pages, done)
      ensures forall x: nat {:trigger x in done} :: x in done <==> x in was && x % |bucket| < c + 1
    {
      ghost var n, l, k := |bucket|, chains[c], 0;
      tmp, done, lists := tmp0, done0, lists0;
      assert ChainOk(was, n, c, bucket[c], l);
      var p := bucket[c];
      while p != 0
        invariant k <= |l| && p == (if k < |l| then l[k] else 0) && |tmp| == 2 * n && bucket == old(bucket) && chains == old(chains)
        invariant TableOk(done, tmp, lists) && Moving(was, pages, done)
        invariant forall x: nat {:trigger x in done} :: x in done <==> x in done0 || x in l[..k]
        decreases |l| - k
      {
        assert Place(was, n, c, l, k);
        NotMoved(l, k, done0, done, c, n);
        var next := pages[p].next;
        var d := p % |tmp|;
        ghost var t0 := tmp;
        pages := pages[p := pages[p].(next := tmp[d])];
        tmp := tmp[d := p];
        ghost var done1, lists1 := done[p := pages[p]], lists[d := [p] + lists[d]];
        PushOk(done, t0, lists, p, pages[p], d, done1, tmp, lists1);
        done, lists := done1, lists1;
        p := next;
        k := k + 1;
      }
      assert Place(was, n, c, l, k);
      assert l[..k] == l;
      ChainMoved(was, bucket, chains, n, c, done0, done);
    }

    /** Evicts clean pages, in the order they were last used, until `low` are left. */
    method Cleanup()
      requires Valid()
      modifies this`pages, this`bucket, this`size, this`lru, this`chains, this`order
      ensures Valid()
      ensures order == if old(size) <= high then old(order) else Kept(old(order), DirtyOf(old(pages)), old(size), low)
      ensures Leaves(old(pages), pages)
    {
      if size <= high { return; }
      ghost var was := pages;
      var all := Collect();
      var s := InLruOrder(pages, all, order);
      EvictFrom(s);
    }

    /** The pages are those of s; some of them go, and the others get new stamps. */
    method EvictFrom(s: seq<nat>)
      requires TableValid() && Listing(pages, pages, s) && |s| == size
      modifies this`pages, this`lru, this`bucket, this`size, this`chains, this`order
      ensures Valid() && order == Kept(s, DirtyOf(old(pages)), |s|, low) && Leaves(old(pages), pages)
    {
      ghost var was, dirty := pages, DirtyOf(pages);
      var kept, k := EvictSome(s);
      Cleaned(was, pages, s, dirty, low, kept, k, size, lru);
      StampRest(kept + s[k..], was);
    }

    /** The loop over s until few enough pages are left: `kept` are those seen that stay. */
    method EvictSome(s: seq<nat>) returns (kept: seq<nat>, k: nat)
      requires TableValid() && Listing(pages, pages, s) && |s| == size
      modifies this`pages, this`lru, this`bucket, this`size, this`chains
      ensures TableValid() && (size <= low || k == |s|) && Round(old(pages), pages, s, low, kept, k, lru, size)
    {
      ghost var was := pages;
      kept, k := [], 0;
      lru := 0;
      CleaningStarts(was, s, DirtyOf(was), low);
      while size > low && k < |s|
        invariant TableValid() && Round(was, pages, s, low, kept, k, lru, size)
        decreases |s| - k
      {
        kept, k := EvictNext(s, kept, k, was);
      }
    }

    method EvictNext(s: seq<nat>, kept: seq<nat>, k: nat, ghost was: Pages) returns (kept': seq<nat>, k': nat)
      requires TableValid() && k < |s| && size > low && Round(was, pages, s, low, kept, k, lru, size)
      modifies this`pages, this`lru, this`bucket, this`size, this`chains
      ensures TableValid() && Round(was, pages, s, low, kept', k', lru, size) && k' == k + 1
    {
      ghost var size0 := size;
      kept' := EvictOne(s, kept, k, was);
      k' := k + 1;
      KeptStep(s, k, kept, kept', DirtyOf(was), size0, size, low);
    }

    method StampRest(s: seq<nat>, ghost was: Pages)
      requires TableValid() && Listing(was, pages, s) && lru <= |s| && StampedTo(pages, s, lru)
      modifies this`pages, this`lru, this`order
      ensures Valid() && order == s && Leaves(was, pages)
    {
      SizeOf(s, pages.Keys);
      StampFrom(s, lru);
      AllStamped(pages, s, lru);
      order := s;
    }

    /** Page s[k] goes if it is clean, or gets the next stamp. */
    method EvictOne(s: seq<nat>, kept: seq<nat>, k: nat, ghost was: Pages) returns (kept': seq<nat>)
      requires TableValid() && k < |s| && Cleaning(was, pages, s, kept, k, lru)
      modifies this`pages, this`lru, this`bucket, this`size, this`chains
      ensures TableValid() && Cleaning(was, pages, s, kept', k + 1, lru)
      ensures if s[k] in DirtyOf(was) then kept' == kept + [s[k]] && size == old(size) else kept' == kept && size == old(size) - 1
    {
      ghost var l := kept + s[k..];
      AtFront(s, kept, k, l);
      if !pages[s[k]].dirty {
        EvictClean(s[k], was, l, kept + s[k + 1..]);
        kept' := kept;
      } else {
        KeepOne(s[k], was, l);
        kept' := kept + [s[k]];
      }
    }

    method EvictClean(i: nat, ghost was: Pages, ghost l: seq<nat>, ghost l': seq<nat>)
      requires TableValid() && Listing(was, pages, l) && lru < |l| && l[lru] == i && i in pages && StampedTo(pages, l, lru)
      requires l' == l[..lru] + l[lru + 1..]
      modifies this`pages, this`bucket, this`size, this`chains
      ensures TableValid() && size == old(size) - 1 && Listing(was, pages, l') && StampedTo(pages, l', lru)
    {
      ghost var ps := pages;
      Erase(i);
      OneEvicted(was, ps, pages, l, lru, l');
    }

    method KeepOne(i: nat, ghost was: Pages, ghost l: seq<nat>)
      requires TableValid() && Listing(was, pages, l) && lru < |l| && l[lru] == i && i in pages && StampedTo(pages, l, lru)
      modifies this`pages, this`lru
      ensures TableValid() && lru == old(lru) + 1 && Listing(was, pages, l) && StampedTo(pages, l, lru)
    {
      ghost var ps := pages;
      pages := pages[i := pages[i].(lru := lru)];
      Stamped(ps, pages, l, lru);
      TableStays(ps, pages, bucket, chains);
      lru := lru + 1;
    }

    /** Page i is written to. */
    method Write(i: nat, image: Image)
      requires Valid() && i in pages
      modifies this`pages
      ensures Valid() && pages == old(pages)[i := old(pages)[i].(image := image, dirty := true)]
    {
      Put(i, pages[i].(image := image, dirty := true));
    }

    /** A changed page is copied and counts as clean from now on. */
    method SetSnapshot(i: nat) returns (some: bool)
      requires Valid() && i in pages
      modifies this`pages
      ensures Valid() && some == old(pages)[i].dirty
      ensures pages == if some then old(pages)[i := Snapped(old(pages)[i])] else old(pages)
    {
      some := pages[i].dirty;
      if some { Put(i, Snapped(pages[i])); }
    }

    method Put(i: nat, p: Page)
      requires Valid() && i in pages && p.next == pages[i].next && p.lru == pages[i].lru
      modifies this`pages
      ensures Valid() && pages == old(pages)[i := p]
    {
      ghost var ps := pages;
      pages := pages[i := p];
      TableStays(ps, pages, bucket, chains);
      StampsSame(ps, pages, order, lru);
      assert pages.Keys == ps.Keys;
    }
  }

  function Snapped(p: Page): Page {
    p.(dirty := false, snap := p.image)
  }

  lemma StampsSame(ps: Pages, ps': Pages, order: seq<nat>, lru: nat)
    requires OrderOk(ps, order, lru) && ps'.Keys == ps.Keys && forall i {:trigger ps'[i]} {:trigger ps[i]} :: i in ps ==> ps'[i].lru == ps[i].lru
    ensures OrderOk(ps', order, lru)
  {
    forall j {:trigger order[j]} | 0 <= j < |order| ensures order[j] in ps' && ps'[order[j]].lru == ps[order[j]].lru { }
  }

  /** The same pages, with the same contents and marks. */
  ghost predicate SameContents(ps: Pages, ps': Pages) {
    && ps'.Keys == ps.Keys
    && forall i {:trigger ps'[i]} {:trigger ps[i]} :: i in ps ==> ps'[i].image == ps[i].image && ps'[i].dirty == ps[i].dirty && ps'[i].snap == ps[i].snap
  }

  /** With the highest stamp page i is the last in the order. */
  lemma Latest(ps: Pages, ps': Pages, rest: seq<nat>, i: nat, lru: nat)
    requires i in ps && ps' == ps[i := ps[i].(lru := lru)] && OrderOk(ps - {i}, rest, lru)
    ensures InOrder(ps', rest + [i])
    ensures forall j {:trigger (rest + [i])[j]} :: 0 <= j < |rest + [i]| ==> ps'[(rest + [i])[j]].lru < lru + 1
  {
    var all := rest + [i];
    forall j | 0 <= j < |rest| ensures rest[j] in ps && rest[j] != i && ps'[rest[j]] == ps[rest[j]] { assert rest[j] in ps - {i}; }
    forall x ensures x in ps' <==> x in all { assert x in ps - {i} <==> x in rest; }
  }

  /** The first n of the pages in s have the stamps from 0 on. */
  ghost predicate StampedTo(ps: Pages, s: seq<nat>, n: nat) {
    forall j {:trigger s[j]} :: 0 <= j < |s| ==> s[j] in ps && (j < n ==> ps[s[j]].lru == j)
  }

  lemma Stamped(ps: Pages, ps': Pages, s: seq<nat>, n: nat)
    requires n < |s| && Distinct(s) && StampedTo(ps, s, n) && s[n] in ps && ps' == ps[s[n] := ps[s[n]].(lru := n)]
    ensures StampedTo(ps', s, n + 1)
  {
    forall j {:trigger s[j]} | 0 <= j < |s| ensures s[j] in ps' && (j < n + 1 ==> ps'[s[j]].lru == j) {
      if j < n { assert s[j] != s[n]; }
    }
  }

  /** Without page i. */
  lemma OrderLess(ps: Pages, order: seq<nat>, lru: nat, i: nat)
    requires OrderOk(ps, order, lru)
    ensures OrderOk(ps - {i}, Minus(order, i), lru)
  {
    var rest, ps' := Minus(order, i), ps - {i};
    MinusRising(ps, order, i);
    forall j {:trigger rest[j]} | 0 <= j < |rest| ensures rest[j] in ps' && ps'[rest[j]].lru < lru {
      assert rest[j] in rest;
      var k :| 0 <= k < |order| && order[k] == rest[j];
    }
  }

  lemma OneListed(l: seq<nat>, k: nat, all: seq<nat>, before: seq<nat>, c: nat, n: nat)
    requires n > 0 && k < |l| && Distinct(l) && Distinct(all) && l[k] % n == c
    requires (forall x: nat {:trigger x in all} :: x in all <==> x in before || x in l[..k]) && forall x {:trigger x in before} :: x in before ==> x % n < c
    ensures Distinct(all + [l[k]]) && forall x: nat {:trigger x in all + [l[k]]} :: x in all + [l[k]] <==> x in before || x in l[..k + 1]
  {
    assert l[..k + 1] == l[..k] + [l[k]];
    forall m | 0 <= m < k ensures l[..k][m] != l[k] { assert l[m] != l[k]; }
    assert l[k] !in all;
  }

  lemma WholeChain(ps: Pages, bucket: seq<nat>, chains: seq<seq<nat>>, n: nat, c: nat, before: seq<nat>, all: seq<nat>)
    requires TableOk(ps, bucket, chains) && n == |chains| && c < n
    requires forall x: nat {:trigger x in before} :: x in before <==> x in ps && x % n < c
    requires forall x: nat {:trigger x in all} :: x in all <==> x in before || x in chains[c]
    ensures forall x: nat {:trigger x in all} {:trigger x in ps} :: x in all <==> x in ps && x % n < c + 1
  {
    forall x: nat ensures x in all <==> x in ps && x % n < c + 1 {
      var d := x % n;
      if d == c { OnChain(ps, bucket, chains, x, c); }
      if x in chains[c] {
        var k :| 0 <= k < |chains[c]| && chains[c][k] == x;
        assert ChainOk(ps, n, c, bucket[c], chains[c]) && Place(ps, n, c, chains[c], k);
      }
    }
  }

  lemma DistinctStamps(ps: Pages, order: seq<nat>, all: seq<nat>)
    requires Rising(ps, order) && Distinct(all) && forall x {:trigger x in all} :: x in all ==> x in order
    ensures forall j {:trigger all[j]} :: 0 <= j < |all| ==> all[j] in ps
    ensures forall j, k :: 0 <= j < k < |all| ==> ps[all[j]].lru != ps[all[k]].lru
  {
    forall j {:trigger all[j]} | 0 <= j < |all| ensures all[j] in ps { assert all[j] in all; }
    forall j, k | 0 <= j < k < |all| ensures ps[all[j]].lru != ps[all[k]].lru {
      assert all[j] in all && all[k] in all;
      var x :| 0 <= x < |order| && order[x] == all[j];
      var y :| 0 <= y < |order| && order[y] == all[k];
    }
  }

  lemma RisingSize(ps: Pages, s: seq<nat>)
    requires InOrder(ps, s)
    ensures |s| == |ps| && Distinct(s)
  {
    forall j, k | 0 <= j < k < |s| ensures s[j] != s[k] { assert ps[s[j]].lru < ps[s[k]].lru; }
    SizeOf(s, ps.Keys);
  }

  lemma {:induction false} SizeOf(s: seq<nat>, t: set<nat>)
    requires Distinct(s) && forall i {:trigger i in s} {:trigger i in t} :: i in s <==> i in t
    ensures |s| == |t|
    decreases |s|
  {
    if s == [] {
      assert forall i :: i !in t;
    } else {
      var n := |s| - 1;
      var front := s[..n];
      assert s[n] in t && s == front + [s[n]];
      forall i ensures i in front <==> i in t - {s[n]} {
        if i in front { var m :| 0 <= m < n && front[m] == i; assert s[m] != s[n]; }
      }
      SizeOf(front, t - {s[n]});
    }
  }

  /** What is left is as it was, but for links. */
  ghost predicate SameBut(ps: Pages, ps': Pages) {
    forall i {:trigger ps'[i]} :: i in ps' ==> i in ps && ps'[i] == ps[i].(next := ps'[i].next)
  }

  /** Page i is new, the others have the same contents and marks. */
  ghost predicate Gained(ps: Pages, ps': Pages, i: nat) {
    && i !in ps && ps'.Keys == ps.Keys + {i}
    && forall j {:trigger ps'[j]} {:trigger ps[j]} :: j in ps ==> ps'[j].image == ps[j].image && ps'[j].dirty == ps[j].dirty && ps'[j].snap == ps[j].snap
  }

  lemma {:induction false} MinusSame(s: seq<nat>, x: nat)
    requires x !in s
    ensures Minus(s, x) == s
    decreases |s|
  {
    if s != [] {
      assert s[0] in s;
      forall y | y in s[1..] ensures y in s { }
      MinusSame(s[1..], x);
    }
  }

  lemma OrderSame(ps: Pages, ps': Pages, order: seq<nat>, lru: nat)
    requires OrderOk(ps, order, lru) && ps'.Keys == ps.Keys && SameBut(ps, ps')
    ensures OrderOk(ps', order, lru)
  {
    forall j {:trigger order[j]} | 0 <= j < |order| ensures order[j] in ps' && ps'[order[j]].lru == ps[order[j]].lru { }
  }

  // ---------------------------------------------------------------- moving to the larger table

  /** The pages moved are as in done, the others as they were. */
  ghost predicate Moving(was: Pages, ps: Pages, done: Pages) {
    && ps.Keys == was.Keys && done.Keys <= was.Keys
    && (forall i {:trigger ps[i]} :: i in was ==> ps[i] == if i in done then done[i] else was[i])
    && (forall i {:trigger done[i]} :: i in done ==> done[i] == was[i].(next := done[i].next))
  }

  lemma NotMoved(l: seq<nat>, k: nat, done0: Pages, done: Pages, c: nat, n: nat)
    requires n > 0 && k < |l| && Distinct(l) && l[k] % n == c
    requires (forall x: nat {:trigger x in done0} :: x in done0 ==> x % n < c) && forall x: nat {:trigger x in done} :: x in done <==> x in done0 || x in l[..k]
    ensures l[k] !in done && l[..k + 1] == l[..k] + [l[k]]
  {
    forall m | 0 <= m < k ensures l[..k][m] != l[k] { assert l[m] != l[k]; }
  }

  lemma ChainMoved(ps: Pages, bucket: seq<nat>, chains: seq<seq<nat>>, n: nat, c: nat, done0: Pages, done: Pages)
    requires TableOk(ps, bucket, chains) && n == |chains| && c < n
    requires forall x: nat {:trigger x in done0} :: x in done0 <==> x in ps && x % n < c
    requires forall x: nat {:trigger x in done} :: x in done <==> x in done0 || x in chains[c]
    ensures forall x: nat {:trigger x in done} {:trigger x in ps} :: x in done <==> x in ps && x % n < c + 1
  {
    forall x: nat ensures x in done <==> x in ps && x % n < c + 1 {
      if x % n == c { OnChain(ps, bucket, chains, x, c); }
      if x in chains[c] {
        var k :| 0 <= k < |chains[c]| && chains[c][k] == x;
        assert ChainOk(ps, n, c, bucket[c], chains[c]) && Place(ps, n, c, chains[c], k);
      }
    }
  }

  // ---------------------------------------------------------------- evicting

  function DirtyOf(ps: Pages): set<nat> {
    set i | i in ps && ps[i].dirty
  }

  ghost predicate SamePage(p: Page, q: Page) {
    q.image == p.image && q.dirty == p.dirty && q.snap == p.snap
  }

  /** The pages left are those of l, as they were but for their stamps. */
  ghost predicate Listing(was: Pages, ps: Pages, l: seq<nat>) {
    && Distinct(l) && (forall i {:trigger i in ps} {:trigger i in l} :: i in ps <==> i in l)
    && (forall i {:trigger ps[i]} :: i in ps ==> i in was && SamePage(was[i], ps[i]))
  }

  ghost predicate Leaves(was: Pages, ps: Pages) {
    ps.Keys <= was.Keys && forall i {:trigger ps[i]} :: i in ps ==> SamePage(was[i], ps[i])
  }

  /** The pages kept so far have their stamps; those of s from k on are still to be looked at. */
  ghost predicate Cleaning(was: Pages, ps: Pages, s: seq<nat>, kept: seq<nat>, k: nat, lru: nat) {
    k <= |s| && |kept| == lru && Listing(was, ps, kept + s[k..]) && StampedTo(ps, kept + s[k..], lru)
  }

  lemma AtFront(s: seq<nat>, kept: seq<nat>, k: nat, l: seq<nat>)
    requires k < |s| && l == kept + s[k..]
    ensures |kept| < |l| && l[|kept|] == s[k] && s[k] in l
    ensures kept + s[k + 1..] == l[..|kept|] + l[|kept| + 1..] && (kept + [s[k]]) + s[k + 1..] == l
  {
    assert s[k..] == [s[k]] + s[k + 1..];
  }

  lemma OneOut(l: seq<nat>, n: nat, l': seq<nat>)
    requires Distinct(l) && n < |l| && l' == l[..n] + l[n + 1..]
    ensures Distinct(l') && forall i {:trigger i in l'} {:trigger i in l} :: i in l' <==> i in l && i != l[n]
  {
    forall j {:trigger l'[j]} | 0 <= j < |l'| ensures l'[j] == (if j < n then l[j] else l[j + 1]) { }
    forall i | i in l && i != l[n] ensures i in l' {
      var j :| 0 <= j < |l| && l[j] == i;
      assert i == if j < n then l'[j] else l'[j - 1];
    }
  }

  lemma OneEvicted(was: Pages, ps: Pages, ps': Pages, l: seq<nat>, n: nat, l': seq<nat>)
    requires Listing(was, ps, l) && n < |l| && StampedTo(ps, l, n) && ps'.Keys == ps.Keys - {l[n]} && SameBut(ps, ps') && l' == l[..n] + l[n + 1..]
    ensures Listing(was, ps', l') && StampedTo(ps', l', n)
  {
    OneOut(l, n, l');
    forall i ensures i in ps' <==> i in l' { assert i in ps <==> i in l; }
    forall j {:trigger l'[j]} | 0 <= j < |l'| ensures l'[j] in ps' && (j < n ==> ps'[l'[j]].lru == j) {
      assert l'[j] in l';
      if j < n { assert l'[j] == l[j]; }
    }
  }

  /** What is kept in all are those kept so far and what is kept of the rest. */
  ghost predicate ToKeep(s: seq<nat>, dirty: set<nat>, low: int, kept: seq<nat>, k: nat, size: int) {
    k <= |s| && Kept(s, dirty, |s|, low) == kept + Kept(s[k..], dirty, size, low)
  }

  ghost predicate Round(was: Pages, ps: Pages, s: seq<nat>, low: int, kept: seq<nat>, k: nat, lru: nat, size: int) {
    Cleaning(was, ps, s, kept, k, lru) && ToKeep(s, DirtyOf(was), low, kept, k, size)
  }

  lemma CleaningStarts(ps: Pages, s: seq<nat>, dirty: set<nat>, low: int)
    requires Listing(ps, ps, s)
    ensures Cleaning(ps, ps, s, [], 0, 0) && ToKeep(s, dirty, low, [], 0, |s|)
  {
    assert [] + s[0..] == s && s[0..] == s;
    forall j {:trigger s[j]} | 0 <= j < |s| ensures s[j] in ps { assert s[j] in s; }
  }

  lemma KeptStep(s: seq<nat>, k: nat, kept: seq<nat>, kept': seq<nat>, dirty: set<nat>, size: int, size': int, low: int)
    requires k < |s| && size > low && ToKeep(s, dirty, low, kept, k, size)
    requires if s[k] in dirty then kept' == kept + [s[k]] && size' == size else kept' == kept && size' == size - 1
    ensures ToKeep(s, dirty, low, kept', k + 1, size')
  {
    assert s[k..][0] == s[k] && s[k..][1..] == s[k + 1..];
  }

  lemma Cleaned(was: Pages, ps: Pages, s: seq<nat>, dirty: set<nat>, low: int, kept: seq<nat>, k: nat, size: int, lru: nat)
    requires Cleaning(was, ps, s, kept, k, lru) && ToKeep(s, dirty, low, kept, k, size) && (size <= low || k == |s|)
    ensures Kept(s, dirty, |s|, low) == kept + s[k..] && lru <= |kept + s[k..]|
  {
    assert Kept(s[k..], dirty, size, low) == s[k..];
  }

  lemma AllStamped(ps: Pages, l: seq<nat>, lru: nat)
    requires StampedTo(ps, l, |l|) && lru == |l| < LRU_LIMIT && forall i {:trigger i in ps} {:trigger i in l} :: i in ps <==> i in l
    ensures OrderOk(ps, l, lru)
  {
  }
}

/** A page takes over its right neighbour, and the parent closes the gap. */
module Merging {
  import opened TreeShape
  import opened IndexPages
  import opened Windows
  import opened Coupling
  import opened Lending

  // ---------------------------------------------------------------- taking over

  /** Page p has the parent's key and the entries of s; s is still there. */
  ghost predicate Pooled(v: Pages, w: Pages, p: nat, s: nat, q: nat, pos: nat, r: nat, r1: nat, n: nat) {
    && p in v && s in v && q in v && p != s && p != q && s != q && w.Keys == v.Keys
    && Sizes(v[p]) && Sizes(v[s]) && Sizes(v[q]) && Sizes(w[p])
    && r == v[p].rPos && r1 == r + 1 && r1 + n <= INDEXCOUNT && v[s].lPos + n == v[s].rPos <= INDEXCOUNT && pos < INDEXCOUNT
    && w[p].lPos == v[p].lPos && w[p].rPos == r1 + n
    && w[p].parentIndex == v[p].parentIndex && w[p].parentPos == v[p].parentPos
    && (forall i :: 0 <= i < r ==> w[p].slot[i] == v[p].slot[i])
    && w[p].slot[r] == v[q].slot[pos]
    && (forall i :: r1 <= i < r1 + n ==> w[p].slot[i] == v[s].slot[v[s].lPos + i - r1])
    && (forall i :: 0 <= i <= INDEXCOUNT && !(r1 <= i <= r1 + n) ==> w[p].child[i] == v[p].child[i])
    && (forall i :: r1 <= i <= r1 + n ==> w[p].child[i] == v[s].child[v[s].lPos + i - r1])
    && (forall c {:trigger w[c]} :: c in v && c != p ==> w[c] == v[c])
  }

  lemma PoolView(v: Pages, p: nat, s: nat, q: nat, pos: nat, r: nat, r1: nat, l: nat, ls: nat, n: nat, r2: nat)
    requires p in v && s in v && q in v && p != s && p != q && s != q
    requires Sizes(v[p]) && Sizes(v[s]) && Sizes(v[q])
    requires r == v[p].rPos && r1 == r + 1 && r1 + n == r2 <= INDEXCOUNT && l == v[p].lPos
    requires ls == v[s].lPos && ls + n == v[s].rPos <= INDEXCOUNT && pos < INDEXCOUNT
    ensures var v1 := WithSlot(v, p, r, v[q].slot[pos]);
            Pooled(v, WithWindow(v1[p := Pasted(v1[s], ls, v1[p], r1, n)], p, l, r2), p, s, q, pos, r, r1, n)
  {
  }

  /** Now s is gone and its children name p. */
  ghost predicate Absorbed(v: Pages, w: Pages, u: Pages, p: nat, s: nat, q: nat, pos: nat, r: nat, r1: nat, n: nat, b: nat) {
    && Pooled(v, w, p, s, q, pos, r, r1, n) && b == r1 + n + 1
    && (if w[p].child[r1] == 0 then u == w - {s} else Adopted(w - {s}, u, p, r1, b))
  }

  /** The children of a and b are different pages, none of them p, s or q. */
  ghost predicate Families(a: Node, b: Node, p: nat, s: nat, q: nat) {
    && (a.kids == [] <==> b.kids == [])
    && Strangers(a, p, s, q, 0) && Strangers(b, p, s, q, 0)
    && (forall i, k :: 0 <= i < k < |b.kids| ==> b.kids[i] != b.kids[k])
    && (forall i, k :: 0 <= i < |a.kids| && 0 <= k < |b.kids| ==> a.kids[i] != b.kids[k])
  }

  lemma PooledKids(v: Pages, w: Pages, p: nat, s: nat, q: nat, pos: nat, r: nat, r1: nat, n: nat, b: nat, x: Node, y: Node)
    requires Pooled(v, w, p, s, q, pos, r, r1, n) && b == r1 + n + 1
    requires Holds(v, s, y) && Families(x, y, p, s, q)
    ensures w[p].child[r1] == 0 <==> y.kids == []
    ensures y.kids != [] ==> KidsIn(w - {s}, p, r1, b)
    ensures forall i {:trigger w[p].child[i]} :: r1 <= i < b && y.kids != [] ==> w[p].child[i] == y.kids[i - r1]
  {
    if y.kids != [] {
      forall i | r1 <= i < b ensures w[p].child[i] == y.kids[i - r1] && y.kids[i - r1] in v {
        assert HoldsKid(v, s, v[s].lPos + (i - r1), y.kids[i - r1]);
      }
    }
  }

  lemma AbsorbedKeys(v: Pages, w: Pages, p: nat, s: nat, q: nat, pos: nat, r: nat, r1: nat, n: nat, x: Node, y: Node)
    requires Pooled(v, w, p, s, q, pos, r, r1, n) && Holds(v, p, x) && Holds(v, s, y)
    ensures var keys := x.keys + [v[q].slot[pos]] + y.keys;
            && w[p].rPos == w[p].lPos + |keys|
            && forall i :: 0 <= i < |keys| ==> w[p].slot[w[p].lPos + i] == keys[i]
  {
    var keys := x.keys + [v[q].slot[pos]] + y.keys;
    forall i | 0 <= i < |keys| ensures w[p].slot[w[p].lPos + i] == keys[i] {
      var a := |x.keys|;
      if i < a { assert v[p].slot[v[p].lPos + i] == x.keys[i]; }
      if i > a { assert v[s].slot[v[s].lPos + (i - a - 1)] == y.keys[i - a - 1]; }
    }
  }

  lemma AbsorbedKid(v: Pages, w: Pages, u: Pages, p: nat, s: nat, q: nat, pos: nat, r: nat, r1: nat, n: nat, b: nat, x: Node, y: Node, i: nat)
    requires Absorbed(v, w, u, p, s, q, pos, r, r1, n, b)
    requires Holds(v, p, x) && Holds(v, s, y) && Families(x, y, p, s, q) && i < |x.kids| + |y.kids|
    ensures HoldsKid(u, p, u[p].lPos + i, (x.kids + y.kids)[i]) && u[p] == w[p]
  {
    PooledKids(v, w, p, s, q, pos, r, r1, n, b, x, y);
    NotAdopted(v, w, u, p, s, q, pos, r, r1, n, b, x, y, p);
    var a := |x.kids|;
    if i < a {
      assert HoldsKid(v, p, v[p].lPos + i, x.kids[i]);
      NotAdopted(v, w, u, p, s, q, pos, r, r1, n, b, x, y, x.kids[i]);
    } else {
      assert w[p].child[r1 + (i - a)] == y.kids[i - a];
    }
  }

  lemma AbsorbedHolds(v: Pages, w: Pages, u: Pages, p: nat, s: nat, q: nat, pos: nat, r: nat, r1: nat, n: nat, b: nat, x: Node, y: Node, up: nat)
    requires Absorbed(v, w, u, p, s, q, pos, r, r1, n, b)
    requires Holds(v, p, x) && Holds(v, s, y) && Families(x, y, p, s, q)
    ensures Holds(u, p, Node(x.keys + [v[q].slot[pos]] + y.keys, x.kids + y.kids, up))
  {
    AbsorbedKeys(v, w, p, s, q, pos, r, r1, n, x, y);
    PooledKids(v, w, p, s, q, pos, r, r1, n, b, x, y);
    NotAdopted(v, w, u, p, s, q, pos, r, r1, n, b, x, y, p);
    var kids := x.kids + y.kids;
    forall i | 0 <= i < |kids| ensures HoldsKid(u, p, u[p].lPos + i, kids[i]) {
      AbsorbedKid(v, w, u, p, s, q, pos, r, r1, n, b, x, y, i);
    }
  }

  lemma NotAdopted(v: Pages, w: Pages, u: Pages, p: nat, s: nat, q: nat, pos: nat, r: nat, r1: nat, n: nat, b: nat, x: Node, y: Node, c: nat)
    requires Absorbed(v, w, u, p, s, q, pos, r, r1, n, b) && Holds(v, s, y) && Families(x, y, p, s, q)
    requires c in v && c != s && forall i :: 0 <= i < |y.kids| ==> y.kids[i] != c
    ensures c in u && u[c] == w[c]
  {
    PooledKids(v, w, p, s, q, pos, r, r1, n, b, x, y);
    assert w[p].child[r1] != 0 ==> !Held(w[p].child, r1, b, c);
  }

  /** A page the merge does not name holds what it held. */
  lemma AbsorbedRest(v: Pages, w: Pages, u: Pages, p: nat, s: nat, q: nat, pos: nat, r: nat, r1: nat, n: nat, b: nat, x: Node, y: Node, c: nat, z: Node, up: nat)
    requires Absorbed(v, w, u, p, s, q, pos, r, r1, n, b) && Holds(v, s, y) && Families(x, y, p, s, q)
    requires Holds(v, c, z) && c != p && c != s && Strangers(z, p, s, 0, 0)
    requires forall i, k :: 0 <= i < |z.kids| && 0 <= k < |y.kids| ==> z.kids[i] != y.kids[k]
    ensures Holds(u, c, z.(up := up))
  {
    assert SameBody(u[c], w[c]);
    forall i | 0 <= i < |z.kids| ensures HoldsKid(u, c, u[c].lPos + i, z.kids[i]) {
      assert HoldsKid(v, c, v[c].lPos + i, z.kids[i]);
      NotAdopted(v, w, u, p, s, q, pos, r, r1, n, b, x, y, z.kids[i]);
    }
  }

  // ---------------------------------------------------------------- closing the gap

  /** Page q of v holds n, but its e-th child is gone. */
  ghost predicate HoldsBut(v: Pages, q: nat, n: Node, e: nat) {
    && q in v && var pg := v[q];
    && Sizes(pg) && pg.rPos == pg.lPos + |n.keys| <= INDEXCOUNT
    && |n.kids| == |n.keys| + 1 && 0 < e < |n.kids|
    && (forall i :: 0 <= i < |n.keys| ==> pg.slot[pg.lPos + i] == n.keys[i])
    && (forall i :: 0 <= i < |n.kids| && i != e ==> HoldsKid(v, q, pg.lPos + i, n.kids[i]) && n.kids[i] != q)
    && (forall i, k :: 0 <= i < k < |n.kids| ==> n.kids[i] != n.kids[k])
  }

  lemma AbsorbedParent(v: Pages, w: Pages, u: Pages, p: nat, s: nat, q: nat, pos: nat, r: nat, r1: nat, n: nat, b: nat, x: Node, y: Node, z: Node, e: nat)
    requires Absorbed(v, w, u, p, s, q, pos, r, r1, n, b) && Holds(v, s, y) && Families(x, y, p, s, q)
    requires Holds(v, q, z) && 0 < e < |z.kids| && z.kids[e] == s
    requires forall i :: 0 <= i < |z.kids| ==> z.kids[i] != q
    requires forall i, k :: 0 <= i < k < |z.kids| ==> z.kids[i] != z.kids[k]
    requires forall i, k :: 0 <= i < |z.kids| && 0 <= k < |y.kids| ==> z.kids[i] != y.kids[k]
    ensures HoldsBut(u, q, z, e) && u[q] == v[q]
  {
    NotAdopted(v, w, u, p, s, q, pos, r, r1, n, b, x, y, q);
    forall i | 0 <= i < |z.kids| && i != e ensures HoldsKid(u, q, u[q].lPos + i, z.kids[i]) {
      assert HoldsKid(v, q, v[q].lPos + i, z.kids[i]);
      NotAdopted(v, w, u, p, s, q, pos, r, r1, n, b, x, y, z.kids[i]);
    }
  }

  /** The children at positions [a, c) of node n are the links [x, y) of page q. */
  lemma ButKids(v: Pages, q: nat, n: Node, e: nat, a: nat, c: nat, x: nat, y: nat)
    requires HoldsBut(v, q, n, e) && a <= c <= |n.kids| && !(a <= e < c)
    requires x == v[q].lPos + a && y == v[q].lPos + c
    ensures KidsIn(v, q, x, y)
    ensures forall i {:trigger n.kids[i]} :: 0 <= i < |n.kids| && i != e ==> (a <= i < c <==> Held(v[q].child, x, y, n.kids[i]))
    ensures forall k {:trigger Held(v[q].child, x, y, k)} :: Held(v[q].child, x, y, k) ==> exists i :: 0 <= i < |n.kids| && i != e && n.kids[i] == k
  {
    var l := v[q].lPos;
    forall z | x <= z < y ensures v[q].child[z] == n.kids[z - l] && n.kids[z - l] in v && n.kids[z - l] != q {
      assert HoldsKid(v, q, l + (z - l), n.kids[z - l]);
    }
    forall i | a <= i < c ensures Held(v[q].child, x, y, n.kids[i]) {
      assert HoldsKid(v, q, l + i, n.kids[i]);
      assert v[q].child[l + i] == n.kids[i];
    }
  }

  /** Node n without its j-th key and the child behind it. */
  function Closed(n: Node, j: nat): Node
    requires j < |n.keys| && j + 1 < |n.kids|
  {
    Node(n.keys[..j] + n.keys[j+1..], n.kids[..j+1] + n.kids[j+2..], n.up)
  }

  lemma CloseLeftKid(v: Pages, w: Pages, q: nat, n: Node, j: nat, l: nat, r: nat, pos1: nat, pos2: nat, r1: nat, r0: nat, i: nat)
    requires HoldsBut(v, q, n, j + 1) && l == v[q].lPos && r == v[q].rPos && r > 0 && r0 == r - 1
    requires pos1 == l + j + 1 && pos2 == pos1 + 1 && r1 == r + 1
    requires w == WithWindow(MoveView(v, q, pos1, r, pos2, r1, -1), q, l, r0)
    requires i < |n.kids| - 1
    ensures HoldsKid(w, q, l + i, Closed(n, j).kids[i])
  {
    var x := if i <= j then i else i + 1;
    ButKids(v, q, n, j + 1, j + 2, |n.kids|, pos2, r1);
    assert HoldsKid(v, q, l + x, n.kids[x]);
  }

  lemma CloseLeftKeys(v: Pages, w: Pages, q: nat, n: Node, j: nat, l: nat, r: nat, pos1: nat, pos2: nat, r1: nat, r0: nat)
    requires HoldsBut(v, q, n, j + 1) && l == v[q].lPos && r == v[q].rPos && r > 0 && r0 == r - 1
    requires pos1 == l + j + 1 && pos2 == pos1 + 1 && r1 == r + 1
    requires w == WithWindow(MoveView(v, q, pos1, r, pos2, r1, -1), q, l, r0)
    ensures Sizes(w[q]) && w[q].lPos == l && w[q].rPos == l + |Closed(n, j).keys| <= INDEXCOUNT
    ensures forall i :: 0 <= i < |Closed(n, j).keys| ==> w[q].slot[l + i] == Closed(n, j).keys[i]
  {
    var m := Closed(n, j);
    forall i | 0 <= i < |m.keys| ensures w[q].slot[l + i] == m.keys[i] {
      var x := if i < j then i else i + 1;
      assert v[q].slot[l + x] == n.keys[x];
    }
  }

  lemma CloseLeftHolds(v: Pages, w: Pages, q: nat, n: Node, j: nat, l: nat, r: nat, pos1: nat, pos2: nat, r1: nat, r0: nat)
    requires HoldsBut(v, q, n, j + 1) && l == v[q].lPos && r == v[q].rPos && r > 0 && r0 == r - 1
    requires pos1 == l + j + 1 && pos2 == pos1 + 1 && r1 == r + 1
    requires w == WithWindow(MoveView(v, q, pos1, r, pos2, r1, -1), q, l, r0)
    ensures Holds(w, q, Closed(n, j))
  {
    CloseLeftKeys(v, w, q, n, j, l, r, pos1, pos2, r1, r0);
    var m := Closed(n, j);
    forall i | 0 <= i < |m.kids| ensures HoldsKid(w, q, l + i, m.kids[i]) {
      CloseLeftKid(v, w, q, n, j, l, r, pos1, pos2, r1, r0, i);
    }
  }

  lemma CloseLeft(v: Pages, w: Pages, q: nat, n: Node, j: nat, l: nat, r: nat, pos1: nat, pos2: nat, r1: nat, r0: nat)
    requires HoldsBut(v, q, n, j + 1) && l == v[q].lPos && r == v[q].rPos && r > 0 && r0 == r - 1
    requires pos1 == l + j + 1 && pos2 == pos1 + 1 && r1 == r + 1
    requires w == WithWindow(MoveView(v, q, pos1, r, pos2, r1, -1), q, l, r0)
    ensures Holds(w, q, Closed(n, j)) && GapRest(v, w, q, n, j + 1)
  {
    CloseLeftHolds(v, w, q, n, j, l, r, pos1, pos2, r1, r0);
    ButKids(v, q, n, j + 1, j + 2, |n.kids|, pos2, r1);
    MovedRest(v, q, n, j + 1, pos1, r, pos2, r1, -1, l, r0);
  }

  lemma CloseRightKid(v: Pages, w: Pages, q: nat, n: Node, j: nat, l: nat, r: nat, pos: nat, pos1: nat, l1: nat, i: nat)
    requires HoldsBut(v, q, n, j + 1) && l == v[q].lPos && r == v[q].rPos && pos == l + j && pos1 == pos + 1 && l1 == l + 1
    requires w == WithWindow(MoveView(v, q, l, pos, l, pos1, 1), q, l1, r)
    requires i < |n.kids| - 1
    ensures HoldsKid(w, q, l1 + i, Closed(n, j).kids[i])
  {
    var x := if i <= j then i else i + 1;
    ButKids(v, q, n, j + 1, 0, j + 1, l, pos1);
    assert HoldsKid(v, q, l + x, n.kids[x]);
  }

  lemma CloseRightKeys(v: Pages, w: Pages, q: nat, n: Node, j: nat, l: nat, r: nat, pos: nat, pos1: nat, l1: nat)
    requires HoldsBut(v, q, n, j + 1) && l == v[q].lPos && r == v[q].rPos && pos == l + j && pos1 == pos + 1 && l1 == l + 1
    requires w == WithWindow(MoveView(v, q, l, pos, l, pos1, 1), q, l1, r)
    ensures Sizes(w[q]) && w[q].lPos == l1 && w[q].rPos == l1 + |Closed(n, j).keys| <= INDEXCOUNT
    ensures forall i :: 0 <= i < |Closed(n, j).keys| ==> w[q].slot[l1 + i] == Closed(n, j).keys[i]
  {
    var m := Closed(n, j);
    forall i | 0 <= i < |m.keys| ensures w[q].slot[l1 + i] == m.keys[i] {
      var x := if i < j then i else i + 1;
      assert v[q].slot[l + x] == n.keys[x];
    }
  }

  lemma CloseRight(v: Pages, w: Pages, q: nat, n: Node, j: nat, l: nat, r: nat, pos: nat, pos1: nat, l1: nat)
    requires HoldsBut(v, q, n, j + 1) && l == v[q].lPos && r == v[q].rPos && pos == l + j && pos1 == pos + 1 && l1 == l + 1
    requires w == WithWindow(MoveView(v, q, l, pos, l, pos1, 1), q, l1, r)
    ensures Holds(w, q, Closed(n, j)) && GapRest(v, w, q, n, j + 1)
  {
    ButKids(v, q, n, j + 1, 0, j + 1, l, pos1);
    MovedRest(v, q, n, j + 1, l, pos, l, pos1, 1, l1, r);
    CloseRightKeys(v, w, q, n, j, l, r, pos, pos1, l1);
    var m := Closed(n, j);
    forall i | 0 <= i < |m.kids| ensures HoldsKid(w, q, l1 + i, m.kids[i]) {
      CloseRightKid(v, w, q, n, j, l, r, pos, pos1, l1, i);
    }
  }

  // ---------------------------------------------------------------- the merge as a whole

  lemma FamiliesOf(t: Tree, p: nat, s: nat, q: nat, j: nat)
    requires MergePre(t, p, s, q, j)
    ensures Families(t.nodes[p], t.nodes[s], p, s, q)
  {
    MergeApart(t, p, s, q, j);
    Siblings(t, p, s, q, j);
    UpIsOther(t, q);
    StrangersOf(t, p, p, s, q, 0);
    StrangersOf(t, s, p, s, q, 0);
    KidsApart(t, p);
    KidsApart(t, s);
  }

  lemma OthersKids(t: Tree, c: nat, s: nat)
    requires Order(t) && c in t.nodes && s in t.nodes && c != s
    ensures forall i, k :: 0 <= i < |t.nodes[c].kids| && 0 <= k < |t.nodes[s].kids| ==> t.nodes[c].kids[i] != t.nodes[s].kids[k]
  {
    assert NodeOk(t, c) && NodeOk(t, s);
    KidsApart(t, c);
    KidsApart(t, s);
  }

  ghost predicate MergedPre(v: Pages, w: Pages, u: Pages, t: Tree, p: nat, s: nat, q: nat, j: nat, pos: nat, r: nat, r1: nat, n: nat, b: nat) {
    LendPre(v, t, p, s, q, j, pos) && Absorbed(v, w, u, p, s, q, pos, r, r1, n, b)
  }

  lemma MergedLeft(v: Pages, w: Pages, u: Pages, t: Tree, p: nat, s: nat, q: nat, j: nat, pos: nat, r: nat, r1: nat, n: nat, b: nat)
    requires MergedPre(v, w, u, t, p, s, q, j, pos, r, r1, n, b)
    ensures PageHeld(u, MergeTree(t, p, s, q, j), p)
  {
    MergeApart(t, p, s, q, j);
    FamiliesOf(t, p, s, q, j);
    HoldsHeld(v, t, p);
    HoldsHeld(v, t, s);
    assert v[q].slot[v[q].lPos + j] == t.nodes[q].keys[j];
    AbsorbedHolds(v, w, u, p, s, q, pos, r, r1, n, b, t.nodes[p], t.nodes[s], q);
    HoldsHeld(u, MergeTree(t, p, s, q, j), p);
  }

  lemma MergedRest(v: Pages, w: Pages, u: Pages, t: Tree, p: nat, s: nat, q: nat, j: nat, pos: nat, r: nat, r1: nat, n: nat, b: nat, c: nat)
    requires MergedPre(v, w, u, t, p, s, q, j, pos, r, r1, n, b)
    requires c in t.nodes && c != p && c != s && c != q && PageHeld(v, t, c)
    ensures PageHeld(u, MergeTree(t, p, s, q, j), c)
  {
    MergeApart(t, p, s, q, j);
    FamiliesOf(t, p, s, q, j);
    HoldsHeld(v, t, c);
    HoldsHeld(v, t, s);
    StrangersOf(t, c, p, s, 0, 0);
    OthersKids(t, c, s);
    var t' := MergeTree(t, p, s, q, j);
    AbsorbedRest(v, w, u, p, s, q, pos, r, r1, n, b, t.nodes[p], t.nodes[s], c, t.nodes[c], t'.nodes[c].up);
    HoldsHeld(u, t', c);
  }

  lemma MergedParent(v: Pages, w: Pages, u: Pages, t: Tree, p: nat, s: nat, q: nat, j: nat, pos: nat, r: nat, r1: nat, n: nat, b: nat)
    requires MergedPre(v, w, u, t, p, s, q, j, pos, r, r1, n, b)
    ensures HoldsBut(u, q, t.nodes[q], j + 1) && u[q] == v[q]
  {
    MergeApart(t, p, s, q, j);
    FamiliesOf(t, p, s, q, j);
    HoldsHeld(v, t, q);
    HoldsHeld(v, t, s);
    UpIsOther(t, q);
    StrangersOf(t, q, q, 0, 0, 0);
    OthersKids(t, q, s);
    AbsorbedParent(v, w, u, p, s, q, pos, r, r1, n, b, t.nodes[p], t.nodes[s], t.nodes[q], j + 1);
  }

  lemma MergedOthers(v: Pages, w: Pages, u: Pages, t: Tree, p: nat, s: nat, q: nat, j: nat, pos: nat, r: nat, r1: nat, n: nat, b: nat)
    requires Coupled(v, t) && MergedPre(v, w, u, t, p, s, q, j, pos, r, r1, n, b)
    ensures Others(u, MergeTree(t, p, s, q, j), q)
  {
    var t' := MergeTree(t, p, s, q, j);
    MergeApart(t, p, s, q, j);
    forall c {:trigger PageHeld(u, t', c)} | c in t'.nodes && c != q ensures PageHeld(u, t', c) {
      assert PageHeld(v, t, c);
      if c == p { MergedLeft(v, w, u, t, p, s, q, j, pos, r, r1, n, b); }
      else { MergedRest(v, w, u, t, p, s, q, j, pos, r, r1, n, b, c); }
    }
    FamiliesOf(t, p, s, q, j);
    HoldsHeld(v, t, s);
    KidsApart(t, s);
    NotAdopted(v, w, u, p, s, q, pos, r, r1, n, b, t.nodes[p], t.nodes[s], t.root);
  }

  /** The parent has closed the gap: the pages hold the merged tree. */
  lemma MergeCoupled(u: Pages, w: Pages, t: Tree, p: nat, s: nat, q: nat, j: nat)
    requires MergePre(t, p, s, q, j) && Others(u, MergeTree(t, p, s, q, j), q)
    requires GapRest(u, w, q, t.nodes[q], j + 1) && Holds(w, q, Closed(t.nodes[q], j))
    ensures Coupled(w, MergeTree(t, p, s, q, j))
  {
    var t' := MergeTree(t, p, s, q, j);
    MergeApart(t, p, s, q, j);
    MergeOrder(t, p, s, q, j);
    KidsApart(t, q);
    KidsApart(t, s);
    forall c {:trigger w[c]} | c in u && c != q
      ensures SameBody(w[c], u[c]) && (t'.nodes[c].up != q ==> w[c] == u[c])
    {
      if w[c] != u[c] {
        var i :| 0 <= i < |t.nodes[q].kids| && i != j + 1 && t.nodes[q].kids[i] == c;
      }
    }
    RestUntouched(u, w, t', q);
    HoldsHeld(w, t', q);
    forall c {:trigger PageHeld(w, t', c)} | c in t'.nodes ensures PageHeld(w, t', c) { assert c != q ==> PageHeld(w, t', c); }
    RootLink(t', w, u, q);
  }

  lemma RootLink(t: Tree, w: Pages, u: Pages, q: nat)
    requires Order(t) && OnlyAt(u, w, t, q) && q != 0 && u[t.root].parentIndex == 0 && u[t.root].parentPos == 0
    ensures w[t.root].parentIndex == 0 && w[t.root].parentPos == 0
  {
  }
}

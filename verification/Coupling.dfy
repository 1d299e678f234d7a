/** When the pages of the cache hold a tree.

    A page holds a node when its window shows the node's keys and children; it is linked when
    each of its children names it and the very slot that points to the child. */
module Coupling {
  import opened TreeShape
  import opened IndexPages
  import opened Windows

  type Pages = map<nat, IndexPage>

  ghost predicate Content(v: Pages, t: Tree, c: nat) {
    && c in v && c in t.nodes
    && var pg, n := v[c], t.nodes[c];
    && Sizes(pg)
    && pg.rPos == pg.lPos + |n.keys| <= INDEXCOUNT
    && (forall i :: 0 <= i < |n.keys| ==> pg.slot[pg.lPos + i] == n.keys[i])
    && (n.kids == [] ==> forall i :: 0 <= i <= INDEXCOUNT ==> pg.child[i] == 0)
    && (n.kids != [] ==> |n.kids| == |n.keys| + 1)
    && (forall i :: 0 <= i < |n.kids| ==> i <= |n.keys| && pg.child[pg.lPos + i] == n.kids[i])
  }

  ghost predicate Link(v: Pages, t: Tree, c: nat) {
    && c in v && c in t.nodes
    && forall i :: 0 <= i < |t.nodes[c].kids| ==>
         var k := t.nodes[c].kids[i];
         k in v && v[k].parentIndex == c && v[k].parentPos == v[c].lPos + i
  }

  ghost predicate PageHeld(v: Pages, t: Tree, c: nat) {
    Content(v, t, c) && Link(v, t, c)
  }

  /** The pages hold the tree: every back-link names exactly the slot that points to its page. */
  ghost predicate Coupled(v: Pages, t: Tree) {
    && v.Keys == t.nodes.Keys
    && (forall c {:trigger PageHeld(v, t, c)} :: c in t.nodes ==> PageHeld(v, t, c))
    && t.root in v && v[t.root].parentIndex == 0 && v[t.root].parentPos == 0
  }

  /** Coupled but for what page q holds. */
  ghost predicate Others(v: Pages, t: Tree, q: nat) {
    && v.Keys == t.nodes.Keys
    && (forall c {:trigger PageHeld(v, t, c)} :: c in t.nodes && c != q ==> PageHeld(v, t, c))
    && t.root in v && v[t.root].parentIndex == 0 && v[t.root].parentPos == 0
  }

  ghost predicate SameBody(a: IndexPage, b: IndexPage) {
    a.slot == b.slot && a.child == b.child && a.lPos == b.lPos && a.rPos == b.rPos
  }

  /** From v to w only page q changed, and the back-links of its children. */
  ghost predicate OnlyAt(v: Pages, w: Pages, t: Tree, q: nat) {
    && v.Keys == w.Keys == t.nodes.Keys && q in v
    && w[q].parentIndex == v[q].parentIndex && w[q].parentPos == v[q].parentPos
    && (forall c {:trigger w[c]} :: c in v && c != q ==>
          SameBody(w[c], v[c]) && (t.nodes[c].up != q ==> w[c] == v[c]))
  }

  /** A page keeps its node when neither its body nor its children's back-links change. */
  lemma StillHeld(v: Pages, w: Pages, t: Tree, t': Tree, c: nat)
    requires PageHeld(v, t, c) && c in w && c in t'.nodes && SameBody(w[c], v[c])
    requires t'.nodes[c].keys == t.nodes[c].keys && t'.nodes[c].kids == t.nodes[c].kids
    requires forall i {:trigger t.nodes[c].kids[i]} :: 0 <= i < |t.nodes[c].kids| ==>
               var k := t.nodes[c].kids[i]; k in w && w[k].parentIndex == v[k].parentIndex && w[k].parentPos == v[k].parentPos
    ensures PageHeld(w, t', c)
  {
  }

  lemma Untouched(v: Pages, w: Pages, t: Tree, q: nat, c: nat)
    requires Order(t) && OnlyAt(v, w, t, q) && c != q && c in t.nodes
    requires PageHeld(v, t, c)
    ensures PageHeld(w, t, c)
  {
    assert NodeOk(t, c);
    KidsApart(t, c);
    assert SameBody(w[c], v[c]);
  }

  lemma RestUntouched(v: Pages, w: Pages, t: Tree, q: nat)
    requires Order(t) && OnlyAt(v, w, t, q) && q != 0 && Others(v, t, q)
    ensures Others(w, t, q)
  {
    forall c {:trigger PageHeld(w, t, c)} | c in t.nodes && c != q ensures PageHeld(w, t, c) { Untouched(v, w, t, q, c); }
  }

  // ---------------------------------------------------------------- making room for a key

  /** Page q of v shows node n, but the child at position j may be anything. */
  ghost predicate Shows(v: Pages, q: nat, n: Node, j: nat) {
    && q in v && var pg := v[q];
    && Sizes(pg) && j <= |n.keys| && pg.rPos == pg.lPos + |n.keys| <= INDEXCOUNT
    && (forall i :: 0 <= i < |n.keys| ==> pg.slot[pg.lPos + i] == n.keys[i])
    && (n.kids != [] ==> |n.kids| == |n.keys| + 1)
    && (forall i :: 0 <= i < |n.kids| && i != j ==>
          && i <= |n.keys| && pg.child[pg.lPos + i] == n.kids[i]
          && n.kids[i] in v && n.kids[i] != q
          && v[n.kids[i]].parentIndex == q && v[n.kids[i]].parentPos == pg.lPos + i)
    && (forall i, k :: 0 <= i < k < |n.kids| && i != j && k != j ==> n.kids[i] != n.kids[k])
  }

  /** Page pg shows the keys of n with a gap at j. */
  ghost predicate GapKeys(pg: IndexPage, n: Node, j: nat) {
    && Sizes(pg) && j <= |n.keys| && pg.rPos == pg.lPos + |n.keys| + 1 <= INDEXCOUNT
    && (forall i :: 0 <= i < |n.keys| ==> pg.slot[pg.lPos + if i < j then i else i + 1] == n.keys[i])
  }

  /** Page q of w shows the i-th child of n, one place on if it is behind the gap. */
  ghost predicate GapKid(w: Pages, q: nat, n: Node, j: nat, i: nat)
    requires q in w && i < |n.kids|
  {
    var at := w[q].lPos + if i < j then i else i + 1;
    && at < |w[q].child| && w[q].child[at] == n.kids[i]
    && n.kids[i] in w && n.kids[i] != q
    && w[n.kids[i]].parentIndex == q && w[n.kids[i]].parentPos == at
  }

  /** Only q changed, and where its children but the j-th say they are. */
  ghost predicate GapRest(v: Pages, w: Pages, q: nat, n: Node, j: nat) {
    && q in v && w.Keys == v.Keys
    && w[q].parentIndex == v[q].parentIndex && w[q].parentPos == v[q].parentPos
    && (forall c {:trigger w[c]} :: c in v && c != q ==>
          SameBody(w[c], v[c]) && w[c].parentIndex == v[c].parentIndex
          && (w[c] != v[c] ==> exists i :: 0 <= i < |n.kids| && i != j && n.kids[i] == c))
  }

  /** Page q of w shows node n with a gap for a key at j and for a child at j + 1. */
  ghost predicate Gap(v: Pages, w: Pages, q: nat, n: Node, j: nat) {
    && GapRest(v, w, q, n, j) && GapKeys(w[q], n, j)
    && (forall i :: 0 <= i < |n.kids| && i != j ==> GapKid(w, q, n, j, i))
  }

  /** The children at positions [a, b) of node n are the links [x, y) of page q. */
  lemma ShownKids(v: Pages, q: nat, n: Node, j: nat, a: nat, b: nat, x: nat, y: nat)
    requires Shows(v, q, n, j) && n.kids != [] && a <= b <= |n.kids| && !(a <= j < b)
    requires x == v[q].lPos + a && y == v[q].lPos + b
    ensures KidsIn(v, q, x, y)
    ensures forall i {:trigger n.kids[i]} :: 0 <= i < |n.kids| && i != j ==> (a <= i < b <==> Held(v[q].child, x, y, n.kids[i]))
    ensures forall c {:trigger Held(v[q].child, x, y, c)} :: Held(v[q].child, x, y, c) ==> exists i :: a <= i < b && n.kids[i] == c
  {
    var pg, l := v[q], v[q].lPos;
    forall z | x <= z < y ensures pg.child[z] == n.kids[z - l] && pg.child[z] in v && pg.child[z] != q {
      assert pg.child[l + (z - l)] == n.kids[z - l];
    }
    forall i | a <= i < b ensures Held(pg.child, x, y, n.kids[i]) {
      assert pg.child[l + i] == n.kids[i];
    }
  }

  lemma MovedRest(v: Pages, q: nat, n: Node, j: nat, ka: nat, kb: nat, x: nat, y: nat, d: int, l: nat, r: nat)
    requires q in v
    requires forall c {:trigger Held(v[q].child, x, y, c)} ::
               Held(v[q].child, x, y, c) ==> exists i :: 0 <= i < |n.kids| && i != j && n.kids[i] == c
    ensures GapRest(v, WithWindow(MoveView(v, q, ka, kb, x, y, d), q, l, r), q, n, j)
  {
  }

  lemma GapRightKid(v: Pages, q: nat, n: Node, j: nat, l: nat, r: nat, pos: nat, pos1: nat, r1: nat, i: nat)
    requires Shows(v, q, n, j) && n.kids != [] && v[q].rPos < INDEXCOUNT && i < |n.kids| && i != j
    requires l == v[q].lPos && r == v[q].rPos && pos == l + j && pos1 == pos + 1 && r1 == r + 1
    requires j < i <==> Held(v[q].child, pos1, r1, n.kids[i])
    ensures GapKid(WithWindow(MoveView(v, q, pos, r, pos1, r1, 1), q, l, r1), q, n, j, i)
  {
    assert v[q].child[l + i] == n.kids[i];
  }

  lemma GapRight(v: Pages, q: nat, n: Node, j: nat, l: nat, r: nat, pos: nat, pos1: nat, r1: nat)
    requires Shows(v, q, n, j) && n.kids != [] && v[q].rPos < INDEXCOUNT
    requires l == v[q].lPos && r == v[q].rPos && pos == l + j && pos1 == pos + 1 && r1 == r + 1
    ensures KidsIn(v, q, pos1, r1)
    ensures Gap(v, WithWindow(MoveView(v, q, pos, r, pos1, r1, 1), q, l, r1), q, n, j)
  {
    var w := WithWindow(MoveView(v, q, pos, r, pos1, r1, 1), q, l, r1);
    ShownKids(v, q, n, j, j + 1, |n.kids|, pos1, r1);
    MovedRest(v, q, n, j, pos, r, pos1, r1, 1, l, r1);
    forall i | 0 <= i < |n.kids| && i != j ensures GapKid(w, q, n, j, i) {
      var c := n.kids[i];
      GapRightKid(v, q, n, j, l, r, pos, pos1, r1, i);
    }
  }

  lemma GapLeftKid(v: Pages, q: nat, n: Node, j: nat, l: nat, r: nat, pos: nat, l1: nat, i: nat)
    requires Shows(v, q, n, j) && n.kids != [] && v[q].lPos > 0 && i < |n.kids| && i != j
    requires l == v[q].lPos && r == v[q].rPos && pos == l + j && l1 == l - 1
    requires i < j <==> Held(v[q].child, l, pos, n.kids[i])
    ensures GapKid(WithWindow(MoveView(v, q, l, pos, l, pos, -1), q, l1, r), q, n, j, i)
  {
    assert v[q].child[l + i] == n.kids[i];
  }

  lemma GapLeft(v: Pages, q: nat, n: Node, j: nat, l: nat, r: nat, pos: nat, l1: nat)
    requires Shows(v, q, n, j) && n.kids != [] && v[q].lPos > 0
    requires l == v[q].lPos && r == v[q].rPos && pos == l + j && l1 == l - 1
    ensures KidsIn(v, q, l, pos)
    ensures Gap(v, WithWindow(MoveView(v, q, l, pos, l, pos, -1), q, l1, r), q, n, j)
  {
    var w := WithWindow(MoveView(v, q, l, pos, l, pos, -1), q, l1, r);
    ShownKids(v, q, n, j, 0, j, l, pos);
    MovedRest(v, q, n, j, l, pos, l, pos, -1, l1, r);
    forall i | 0 <= i < |n.kids| && i != j ensures GapKid(w, q, n, j, i) {
      var c := n.kids[i];
      GapLeftKid(v, q, n, j, l, r, pos, l1, i);
    }
  }

  ghost function Filled(w: Pages, q: nat, pos: nat, pos1: nat, mid: Slot, lc: nat, rc: nat): Pages
    requires q in w && Sizes(w[q]) && pos < INDEXCOUNT && pos1 == pos + 1 && lc in w && rc in w
  {
    WithParent(WithParent(WithChild(WithChild(WithSlot(w, q, pos, mid), q, pos, lc), q, pos1, rc), lc, q, pos), rc, q, pos1)
  }

  /** Node n with key mid at j and the children lc, rc around it. */
  function Spliced(n: Node, j: nat, mid: Slot, lc: nat, rc: nat): Node
    requires j <= |n.keys| && j < |n.kids|
  {
    Node(n.keys[..j] + [mid] + n.keys[j..], n.kids[..j] + [lc, rc] + n.kids[j+1..], n.up)
  }

  ghost predicate FillPre(v: Pages, w: Pages, t: Tree, q: nat, n: Node, j: nat, pos: nat, pos1: nat, mid: Slot, lc: nat, rc: nat) {
    && Gap(v, w, q, n, j) && j <= |n.keys| && |n.kids| == |n.keys| + 1
    && pos == w[q].lPos + j && pos1 == pos + 1
    && lc in w && rc in w && lc != q && rc != q && lc != rc
    && q in t.nodes && NodeOk(t, q) && t.nodes[q] == Spliced(n, j, mid, lc, rc)
    && t.nodes.Keys == v.Keys
  }

  lemma SplicedAt(n: Node, j: nat, mid: Slot, lc: nat, rc: nat)
    requires j <= |n.keys| && |n.kids| == |n.keys| + 1
    ensures var m := Spliced(n, j, mid, lc, rc);
            && |m.keys| == |n.keys| + 1 && |m.kids| == |n.kids| + 1
            && m.kids[j] == lc && m.kids[j+1] == rc && m.keys[j] == mid
            && (forall i {:trigger m.keys[i]} :: 0 <= i < |m.keys| && i != j ==> m.keys[i] == n.keys[if i < j then i else i - 1])
            && (forall i {:trigger m.kids[i]} :: 0 <= i < |m.kids| && i != j && i != j + 1 ==> m.kids[i] == n.kids[if i < j then i else i - 1])
            && (forall i {:trigger n.kids[i]} :: 0 <= i < |n.kids| && i != j ==> n.kids[i] == m.kids[if i < j then i else i + 1])
  {
  }

  lemma FillKeys(w: Pages, q: nat, n: Node, j: nat, pos: nat, pos1: nat, mid: Slot, lc: nat, rc: nat)
    requires q in w && GapKeys(w[q], n, j) && j <= |n.keys| && |n.kids| == |n.keys| + 1
    requires pos == w[q].lPos + j && pos1 == pos + 1 && lc in w && rc in w && lc != q && rc != q
    ensures var u, m := Filled(w, q, pos, pos1, mid, lc, rc), Spliced(n, j, mid, lc, rc);
            && Sizes(u[q]) && u[q].lPos == w[q].lPos && u[q].rPos == u[q].lPos + |m.keys| <= INDEXCOUNT
            && (forall i :: 0 <= i < |m.keys| ==> u[q].slot[u[q].lPos + i] == m.keys[i])
  {
    SplicedAt(n, j, mid, lc, rc);
  }

  lemma FillKid(v: Pages, w: Pages, t: Tree, q: nat, n: Node, j: nat, pos: nat, pos1: nat, mid: Slot, lc: nat, rc: nat, i: nat, at: nat)
    requires FillPre(v, w, t, q, n, j, pos, pos1, mid, lc, rc) && i < |t.nodes[q].kids| && at == w[q].lPos + i
    ensures at < INDEXCOUNT + 1
    ensures FilledKid(Filled(w, q, pos, pos1, mid, lc, rc), q, at, t.nodes[q].kids[i])
  {
    SplicedAt(n, j, mid, lc, rc);
    if i == j || i == j + 1 {
      FillNewKids(w, q, pos, pos1, mid, lc, rc);
    } else {
      var y := if i < j then i else i - 1;
      OtherKids(t, q, i, j, j + 1);
      FillOldKid(w, q, n, j, pos, pos1, mid, lc, rc, y, at);
    }
  }

  lemma OtherKids(t: Tree, q: nat, i: nat, j: nat, j1: nat)
    requires q in t.nodes && NodeOk(t, q) && i < |t.nodes[q].kids| && j < |t.nodes[q].kids| && j1 < |t.nodes[q].kids| && i != j && i != j1
    ensures t.nodes[q].kids[i] != t.nodes[q].kids[j] && t.nodes[q].kids[i] != t.nodes[q].kids[j1]
  {
    KidsApart(t, q);
  }

  ghost predicate FilledKid(u: Pages, q: nat, at: nat, k: nat) {
    && q in u && at < |u[q].child| && u[q].child[at] == k
    && k in u && u[k].parentIndex == q && u[k].parentPos == at
  }

  lemma FillNewKids(w: Pages, q: nat, pos: nat, pos1: nat, mid: Slot, lc: nat, rc: nat)
    requires q in w && Sizes(w[q]) && pos < INDEXCOUNT && pos1 == pos + 1 && lc in w && rc in w && lc != q && rc != q && lc != rc
    ensures var u := Filled(w, q, pos, pos1, mid, lc, rc);
            FilledKid(u, q, pos, lc) && FilledKid(u, q, pos1, rc)
  {
  }

  /** A child that was there before stays where the gap left it. */
  lemma FillOldKid(w: Pages, q: nat, n: Node, j: nat, pos: nat, pos1: nat, mid: Slot, lc: nat, rc: nat, y: nat, at: nat)
    requires q in w && lc in w && rc in w && lc != q && rc != q && y < |n.kids| && y != j && n.kids[y] != lc && n.kids[y] != rc
    requires GapKeys(w[q], n, j) && GapKid(w, q, n, j, y) && pos == w[q].lPos + j && pos1 == pos + 1
    requires at == w[q].lPos + if y < j then y else y + 1
    ensures FilledKid(Filled(w, q, pos, pos1, mid, lc, rc), q, at, n.kids[y])
  {
  }

  lemma FillHeld(v: Pages, w: Pages, t: Tree, q: nat, n: Node, j: nat, pos: nat, pos1: nat, mid: Slot, lc: nat, rc: nat)
    requires FillPre(v, w, t, q, n, j, pos, pos1, mid, lc, rc)
    ensures PageHeld(Filled(w, q, pos, pos1, mid, lc, rc), t, q)
  {
    var u := Filled(w, q, pos, pos1, mid, lc, rc);
    var m := t.nodes[q];
    FillKeys(w, q, n, j, pos, pos1, mid, lc, rc);
    forall i | 0 <= i < |m.kids|
      ensures u[q].child[u[q].lPos + i] == m.kids[i] && m.kids[i] in u
      ensures u[m.kids[i]].parentIndex == q && u[m.kids[i]].parentPos == u[q].lPos + i
    {
      var at := w[q].lPos + i;
      FillKid(v, w, t, q, n, j, pos, pos1, mid, lc, rc, i, at);
    }
  }

  lemma FilledElsewhere(w: Pages, q: nat, pos: nat, pos1: nat, mid: Slot, lc: nat, rc: nat)
    requires q in w && Sizes(w[q]) && pos < INDEXCOUNT && pos1 == pos + 1 && lc in w && rc in w && lc != q && rc != q
    ensures var u := Filled(w, q, pos, pos1, mid, lc, rc);
            && u.Keys == w.Keys && u[q].parentIndex == w[q].parentIndex && u[q].parentPos == w[q].parentPos
            && forall c {:trigger u[c]} {:trigger w[c]} :: c in w && c != q ==> SameBody(u[c], w[c]) && (c != lc && c != rc ==> u[c] == w[c])
  {
  }

  lemma FillOnly(v: Pages, w: Pages, t: Tree, q: nat, n: Node, j: nat, pos: nat, pos1: nat, mid: Slot, lc: nat, rc: nat)
    requires FillPre(v, w, t, q, n, j, pos, pos1, mid, lc, rc)
    ensures OnlyAt(v, Filled(w, q, pos, pos1, mid, lc, rc), t, q)
  {
    SplicedAt(n, j, mid, lc, rc);
    KidsApart(t, q);
    forall c | c in v && c != q && w[c] != v[c] ensures t.nodes[c].up == q {
      var i :| 0 <= i < |n.kids| && i != j && n.kids[i] == c;
    }
    FilledElsewhere(w, q, pos, pos1, mid, lc, rc);
  }

  /** Filling the gap gives page q its new node and leaves every other page as it was. */
  lemma FillGap(v: Pages, w: Pages, t: Tree, q: nat, n: Node, j: nat, pos: nat, pos1: nat, mid: Slot, lc: nat, rc: nat)
    requires FillPre(v, w, t, q, n, j, pos, pos1, mid, lc, rc)
    requires Order(t) && Others(v, t, q)
    ensures Coupled(Filled(w, q, pos, pos1, mid, lc, rc), t)
  {
    var u := Filled(w, q, pos, pos1, mid, lc, rc);
    FillHeld(v, w, t, q, n, j, pos, pos1, mid, lc, rc);
    FillOnly(v, w, t, q, n, j, pos, pos1, mid, lc, rc);
    RestUntouched(v, u, t, q);
    forall c {:trigger PageHeld(u, t, c)} | c in t.nodes ensures PageHeld(u, t, c) {
      assert c != q ==> PageHeld(u, t, c);
    }
  }

  // ---------------------------------------------------------------- splitting a page

  /** From v to w the full page p handed everything behind key m to the empty page s. */
  ghost predicate Cut(v: Pages, w: Pages, p: nat, s: nat, m: nat, n: nat) {
    && p in v && s in v && p != s && w.Keys == v.Keys && Sizes(v[p]) && m + 1 + n == INDEXCOUNT
    && w[p] == v[p].(lPos := 0, rPos := m)
    && Sizes(w[s]) && w[s].lPos == 0 && w[s].rPos == n
    && (forall i :: 0 <= i < n ==> w[s].slot[i] == v[p].slot[m + 1 + i])
    && (forall i :: 0 <= i <= n ==> w[s].child[i] == v[p].child[m + 1 + i])
    && (forall i :: n < i <= INDEXCOUNT ==> w[s].child[i] == 0)
    && (forall c {:trigger w[c]} :: c in v && c != p && c != s ==>
          SameBody(w[c], v[c]) && ((c == 0 || !Held(v[p].child, m + 1, INDEXCOUNT + 1, c)) ==> w[c] == v[c]))
    && (forall i :: m < i <= INDEXCOUNT && v[p].child[i] != 0 && v[p].child[i] in v ==>
          w[v[p].child[i]].parentIndex == s && w[v[p].child[i]].parentPos == i - m - 1)
  }

  /** The keys and child links are handed over, the children not yet told. */
  ghost predicate Handed(v: Pages, w: Pages, p: nat, s: nat, m: nat, n: nat) {
    && p in v && s in v && p != s && w.Keys == v.Keys && Sizes(v[p]) && m + 1 + n == INDEXCOUNT
    && w[p] == v[p].(lPos := 0, rPos := m)
    && Sizes(w[s]) && w[s].lPos == 0 && w[s].rPos == n
    && (forall i :: 0 <= i < n ==> w[s].slot[i] == v[p].slot[m + 1 + i])
    && (forall i :: 0 <= i <= n ==> w[s].child[i] == v[p].child[m + 1 + i])
    && (forall i :: n < i <= INDEXCOUNT ==> w[s].child[i] == 0)
    && (forall c {:trigger w[c]} :: c in v && c != p && c != s ==> w[c] == v[c])
  }

  lemma HandOver(v: Pages, p: nat, s: nat, m: nat, n: nat, m1: nat)
    requires p in v && s in v && p != s && Sizes(v[p]) && m1 == m + 1 && m1 + n == INDEXCOUNT && v[s] == EmptyPage()
    ensures var v1 := WithWindow(WithWindow(v, s, 0, n), p, 0, m);
            Handed(v, v1[s := Pasted(v1[p], m1, v1[s], 0, n)], p, s, m, n)
  {
  }

  /** The children behind key m are pages of their own. */
  ghost predicate Tail(v: Pages, p: nat, s: nat, m: nat) {
    && p in v && Sizes(v[p]) && m < INDEXCOUNT
    && if v[p].child[m + 1] == 0 then forall i :: m < i <= INDEXCOUNT ==> v[p].child[i] == 0
       else KidsIn(v, p, m + 1, INDEXCOUNT + 1) && forall i :: m < i <= INDEXCOUNT ==> v[p].child[i] != s && v[p].child[i] != 0
  }

  lemma TailKids(v: Pages, w: Pages, p: nat, s: nat, m: nat, n: nat, n1: nat)
    requires Handed(v, w, p, s, m, n) && Tail(v, p, s, m) && v[p].child[m + 1] != 0 && n1 == n + 1
    ensures KidsIn(w, s, 0, n1)
  {
    forall i | 0 <= i < n1 ensures w[s].child[i] == v[p].child[m + 1 + i] && w[s].child[i] in w && w[s].child[i] != s { }
  }

  lemma TailKept(v: Pages, w: Pages, u: Pages, p: nat, s: nat, m: nat, n: nat, n1: nat, c: nat)
    requires Handed(v, w, p, s, m, n) && Tail(v, p, s, m) && v[p].child[m + 1] != 0 && n1 == n + 1
    requires Adopted(w, u, s, 0, n1) && c in v
    ensures c == p || c == s || c == 0 || !Held(v[p].child, m + 1, INDEXCOUNT + 1, c) ==> u[c] == w[c]
    ensures SameBody(u[c], w[c])
  {
    if Held(w[s].child, 0, n1, c) {
      var i :| 0 <= i < n1 && w[s].child[i] == c;
      assert v[p].child[m + 1 + i] == c;
    }
  }

  lemma TailTold(v: Pages, w: Pages, u: Pages, p: nat, s: nat, m: nat, n: nat, n1: nat)
    requires Handed(v, w, p, s, m, n) && Tail(v, p, s, m) && n1 == n + 1
    requires if v[p].child[m + 1] == 0 then u == w else Adopted(w, u, s, 0, n1)
    ensures Cut(v, u, p, s, m, n)
  {
    if v[p].child[m + 1] != 0 {
      forall c {:trigger u[c]} | c in v
        ensures c == p || c == s || c == 0 || !Held(v[p].child, m + 1, INDEXCOUNT + 1, c) ==> u[c] == w[c]
        ensures SameBody(u[c], w[c])
      {
        TailKept(v, w, u, p, s, m, n, n1, c);
      }
      forall i | m < i <= INDEXCOUNT
        ensures u[v[p].child[i]].parentIndex == s && u[v[p].child[i]].parentPos == i - m - 1
      {
        assert w[s].child[i - m - 1] == v[p].child[m + 1 + (i - m - 1)];
      }
    }
  }

  ghost predicate CutPre(v: Pages, w: Pages, t: Tree, p: nat, s: nat, q: nat, j: nat, m: nat, n: nat) {
    && SplitPre(t, p, s, q, j, m) && Order(SplitTree(t, p, s, q, j, m))
    && v.Keys == t.nodes.Keys + {s} && PageHeld(v, t, p) && p != q
    && |t.nodes[p].keys| == INDEXCOUNT && Cut(v, w, p, s, m, n)
  }

  lemma HeldIsKid(v: Pages, t: Tree, p: nat, a: nat, b: nat, c: nat) returns (i: nat)
    requires Content(v, t, p) && Held(v[p].child, a, b, c) && c != 0
    requires v[p].lPos <= a && b <= v[p].rPos + 1
    ensures i < |t.nodes[p].kids| && t.nodes[p].kids[i] == c && a <= v[p].lPos + i < b
  {
    var x :| a <= x < b && x < |v[p].child| && v[p].child[x] == c;
    i := x - v[p].lPos;
    assert t.nodes[p].kids != [] ==> v[p].child[v[p].lPos + i] == t.nodes[p].kids[i];
  }

  lemma CutLeftKid(v: Pages, w: Pages, t: Tree, p: nat, s: nat, q: nat, j: nat, m: nat, n: nat, i: nat)
    requires CutPre(v, w, t, p, s, q, j, m, n) && i <= m && i < |t.nodes[p].kids|
    ensures var k := t.nodes[p].kids[i];
            w[p].child[i] == k && k in w && w[k].parentIndex == p && w[k].parentPos == i
  {
    KidsApart(t, p);
    var k := t.nodes[p].kids[i];
    assert v[p].child[v[p].lPos + i] == k;
    if Held(v[p].child, m + 1, INDEXCOUNT + 1, k) {
      var x := HeldIsKid(v, t, p, m + 1, INDEXCOUNT + 1, k);
    }
  }

  lemma CutLeftContent(v: Pages, w: Pages, t: Tree, t': Tree, p: nat, s: nat, q: nat, j: nat, m: nat, n: nat)
    requires CutPre(v, w, t, p, s, q, j, m, n)
    requires p in t'.nodes && t'.nodes[p] == Node(t.nodes[p].keys[..m], KidsBefore(t.nodes[p].kids, m), q)
    ensures Content(w, t', p) && w[p].lPos == 0
  {
    var a, b := t.nodes[p], t'.nodes[p];
    assert v[p].lPos == 0;
    forall i | 0 <= i < |a.kids| ensures v[p].child[i] == a.kids[i] { assert v[p].child[v[p].lPos + i] == a.kids[i]; }
    forall i | 0 <= i < |a.keys| ensures v[p].slot[i] == a.keys[i] { assert v[p].slot[v[p].lPos + i] == a.keys[i]; }
  }

  lemma CutLeft(v: Pages, w: Pages, t: Tree, p: nat, s: nat, q: nat, j: nat, m: nat, n: nat)
    requires CutPre(v, w, t, p, s, q, j, m, n)
    ensures PageHeld(w, SplitTree(t, p, s, q, j, m), p)
  {
    var t' := SplitTree(t, p, s, q, j, m);
    var a := t.nodes[p];
    assert t'.nodes[p] == Node(a.keys[..m], KidsBefore(a.kids, m), q);
    CutLeftContent(v, w, t, t', p, s, q, j, m, n);
    forall i | 0 <= i < |t'.nodes[p].kids|
      ensures w[p].child[i] == a.kids[i] && a.kids[i] in w && w[a.kids[i]].parentIndex == p && w[a.kids[i]].parentPos == i
    {
      CutLeftKid(v, w, t, p, s, q, j, m, n, i);
    }
  }

  lemma CutRightKid(v: Pages, w: Pages, t: Tree, p: nat, s: nat, q: nat, j: nat, m: nat, n: nat, i: nat)
    requires CutPre(v, w, t, p, s, q, j, m, n) && m + 1 + i < |t.nodes[p].kids|
    ensures var k := t.nodes[p].kids[m + 1 + i];
            w[s].child[i] == k && k in w && w[k].parentIndex == s && w[k].parentPos == i
  {
    KidsApart(t, p);
    assert v[p].child[v[p].lPos + (m + 1 + i)] == t.nodes[p].kids[m + 1 + i];
  }

  lemma CutRight(v: Pages, w: Pages, t: Tree, p: nat, s: nat, q: nat, j: nat, m: nat, n: nat)
    requires CutPre(v, w, t, p, s, q, j, m, n)
    ensures PageHeld(w, SplitTree(t, p, s, q, j, m), s)
  {
    var t' := SplitTree(t, p, s, q, j, m);
    var a, b := t.nodes[p], t'.nodes[s];
    forall i | 0 <= i < |b.keys| ensures w[s].slot[i] == b.keys[i] {
      assert v[p].slot[v[p].lPos + (m + 1 + i)] == a.keys[m + 1 + i];
    }
    forall i | 0 <= i < |b.kids|
      ensures w[s].child[i] == b.kids[i] && b.kids[i] in w && w[b.kids[i]].parentIndex == s && w[b.kids[i]].parentPos == i
    {
      CutRightKid(v, w, t, p, s, q, j, m, n, i);
    }
  }

  lemma CutOther(v: Pages, w: Pages, t: Tree, p: nat, s: nat, q: nat, j: nat, m: nat, n: nat, c: nat)
    requires CutPre(v, w, t, p, s, q, j, m, n)
    requires c in t.nodes && c != p && c != q && PageHeld(v, t, c)
    ensures PageHeld(w, SplitTree(t, p, s, q, j, m), c)
  {
    var t' := SplitTree(t, p, s, q, j, m);
    assert NodeOk(t, c);
    KidsApart(t, c);
    forall i | 0 <= i < |t.nodes[c].kids| ensures w[t.nodes[c].kids[i]] == v[t.nodes[c].kids[i]] {
      CutKeeps(v, w, t, p, s, q, j, m, n, t.nodes[c].kids[i]);
    }
    CutNode(t, p, s, q, j, m, c);
    StillHeld(v, w, t, t', c);
  }

  lemma CutNode(t: Tree, p: nat, s: nat, q: nat, j: nat, m: nat, c: nat)
    requires SplitPre(t, p, s, q, j, m) && c in t.nodes && c != p && c != q
    ensures var t' := SplitTree(t, p, s, q, j, m);
            c in t'.nodes && t'.nodes[c].keys == t.nodes[c].keys && t'.nodes[c].kids == t.nodes[c].kids
  {
  }

  /** A page that is no child of p keeps its back-link. */
  lemma CutKeeps(v: Pages, w: Pages, t: Tree, p: nat, s: nat, q: nat, j: nat, m: nat, n: nat, c: nat)
    requires CutPre(v, w, t, p, s, q, j, m, n)
    requires c in t.nodes && c != p && t.nodes[c].up != p
    ensures w[c] == v[c]
  {
    KidsApart(t, p);
    assert v[p].lPos == 0;
    if c != 0 && Held(v[p].child, m + 1, INDEXCOUNT + 1, c) {
      var x := HeldIsKid(v, t, p, m + 1, INDEXCOUNT + 1, c);
    }
  }

  lemma CutShows(v: Pages, w: Pages, t: Tree, p: nat, s: nat, q: nat, j: nat, m: nat, n: nat)
    requires CutPre(v, w, t, p, s, q, j, m, n)
    requires Shows(v, q, t.nodes[q], j)
    ensures Shows(w, q, t.nodes[q], j) && w[q].lPos == v[q].lPos
  {
    KidsApart(t, q);
    assert NodeOk(t, q);
    forall i | 0 <= i < |t.nodes[q].kids| && i != j ensures w[t.nodes[q].kids[i]] == v[t.nodes[q].kids[i]] {
      CutKeeps(v, w, t, p, s, q, j, m, n, t.nodes[q].kids[i]);
    }
  }

  lemma CutOthers(v: Pages, w: Pages, t: Tree, p: nat, s: nat, q: nat, j: nat, m: nat, n: nat)
    requires CutPre(v, w, t, p, s, q, j, m, n)
    requires forall c {:trigger PageHeld(v, t, c)} :: c in t.nodes && c != q ==> PageHeld(v, t, c)
    requires v[t.root].parentIndex == 0 && v[t.root].parentPos == 0
    ensures Others(w, SplitTree(t, p, s, q, j, m), q)
  {
    var t' := SplitTree(t, p, s, q, j, m);
    forall c {:trigger PageHeld(w, t', c)} | c in t'.nodes && c != q ensures PageHeld(w, t', c) {
      if c == p { CutLeft(v, w, t, p, s, q, j, m, n); }
      else if c == s { CutRight(v, w, t, p, s, q, j, m, n); }
      else { assert PageHeld(v, t, c); CutOther(v, w, t, p, s, q, j, m, n, c); }
    }
    CutKeeps(v, w, t, p, s, q, j, m, n, t.root);
  }

  // ---------------------------------------------------------------- finding the parent

  lemma ShowsNode(v: Pages, t: Tree, q: nat, j: nat)
    requires Order(t) && q in t.nodes && PageHeld(v, t, q) && j <= |t.nodes[q].keys|
    ensures Shows(v, q, t.nodes[q], j)
  {
    assert NodeOk(t, q);
    KidsApart(t, q);
    forall i | 0 <= i < |t.nodes[q].kids| ensures t.nodes[q].kids[i] != q { assert KidOk(t, q, i); }
  }

  /** The back-link of p leads to its parent and the slot p sits in. */
  lemma ParentFound(v: Pages, t: Tree, p: nat) returns (q: nat, j: nat)
    requires Order(t) && Coupled(v, t) && p in t.nodes && p != t.root
    ensures q in t.nodes && q != 0 && q != p && v[p].parentIndex == q && NodeOk(t, q) && t.nodes[p].up == q
    ensures j < |t.nodes[q].kids| == |t.nodes[q].keys| + 1 && t.nodes[q].kids[j] == p
    ensures t.info[q].level == t.info[p].level + 1 <= t.info[t.root].level
    ensures v[p].parentPos == v[q].lPos + j
    ensures PageHeld(v, t, q)
  {
    q, j := Climb(t, p);
    assert PageHeld(v, t, q) && KidOk(t, q, j);
  }

  lemma FreshRoot(v: Pages, t: Tree, q: nat)
    requires Order(t) && Coupled(v, t) && q !in t.nodes && q != 0
    ensures var v1, t1 := v[q := EmptyPage()], GrowTree(t, q);
            && Shows(v1, q, t1.nodes[q], 0) && v1[q].lPos == 0
            && (forall c {:trigger PageHeld(v1, t1, c)} :: c in t1.nodes && c != q ==> PageHeld(v1, t1, c))
  {
    var v1, t1 := v[q := EmptyPage()], GrowTree(t, q);
    forall c {:trigger PageHeld(v1, t1, c)} | c in t1.nodes && c != q ensures PageHeld(v1, t1, c) {
      assert PageHeld(v, t, c) && NodeOk(t, c);
      KidsApart(t, c);
    }
  }

  /** p sits in slot pos of page q, at place j among the children; q itself may not point to it yet. */
  ghost predicate Parented(v: Pages, t: Tree, p: nat, q: nat, j: nat, pos: nat) {
    && v.Keys == t.nodes.Keys
    && (forall c {:trigger PageHeld(v, t, c)} :: c in t.nodes && c != q ==> PageHeld(v, t, c))
    && t.root in v && v[t.root].parentIndex == 0 && v[t.root].parentPos == 0
    && p in t.nodes && q in t.nodes && q in t.info && q != p && p != t.root && t.nodes[p].up == q && t.info[q].level > 0
    && Shows(v, q, t.nodes[q], j) && pos == v[q].lPos + j
    && j < |t.nodes[q].kids| && t.nodes[q].kids[j] == p
  }

  lemma RootParented(v: Pages, t: Tree, q: nat)
    requires Order(t) && Coupled(v, t) && q !in t.nodes && q != 0
    ensures Parented(v[q := EmptyPage()], GrowTree(t, q), t.root, q, 0, 0)
    ensures Order(GrowTree(t, q))
    ensures v[t.root].parentPos == 0
  {
    FreshRoot(v, t, q);
    GrowOrder(t, q);
  }

  lemma KidParented(v: Pages, t: Tree, p: nat) returns (j: nat)
    requires Order(t) && Coupled(v, t) && p in t.nodes && p != t.root
    ensures v[p].parentIndex == t.nodes[p].up != 0 && v[p].parentPos >= 0
    ensures Parented(v, t, p, t.nodes[p].up, j, v[p].parentPos)
    ensures t.info[t.nodes[p].up].level == t.info[p].level + 1 <= t.info[t.root].level
  {
    var q, i := ParentFound(v, t, p);
    j := i;
    ShowsNode(v, t, q, j);
  }

  // ---------------------------------------------------------------- leaves

  /** Page p of v is the leaf n. */
  ghost predicate LeafShows(v: Pages, p: nat, n: Node) {
    && p in v && Sizes(v[p]) && v[p].rPos == v[p].lPos + |n.keys| <= INDEXCOUNT
    && (forall i :: 0 <= i < |n.keys| ==> v[p].slot[v[p].lPos + i] == n.keys[i])
    && (forall i :: 0 <= i <= INDEXCOUNT ==> v[p].child[i] == 0)
  }

  /** From v to w only the keys and the window of leaf p changed. */
  ghost predicate OnlyLeaf(v: Pages, w: Pages, p: nat) {
    && p in v && w.Keys == v.Keys
    && w[p].parentIndex == v[p].parentIndex && w[p].parentPos == v[p].parentPos
    && (forall c {:trigger w[c]} :: c in v && c != p ==> w[c] == v[c])
  }

  lemma LeafGapRight(v: Pages, p: nat, n: Node, j: nat, l: nat, r: nat, pos: nat, r1: nat)
    requires LeafShows(v, p, n) && j <= |n.keys| && r < INDEXCOUNT
    requires l == v[p].lPos && r == v[p].rPos && pos == l + j && r1 == r + 1
    ensures var w := WithWindow(MoveView(v, p, pos, r, 0, 0, 1), p, l, r1);
            OnlyLeaf(v, w, p) && GapKeys(w[p], n, j) && w[p].lPos == l && w[p].child == v[p].child
  {
    assert MovePage(v[p], pos, r, 0, 0, 1).child == v[p].child;
  }

  lemma LeafGapLeft(v: Pages, p: nat, n: Node, j: nat, l: nat, r: nat, pos: nat, l1: nat)
    requires LeafShows(v, p, n) && j <= |n.keys| && l > 0
    requires l == v[p].lPos && r == v[p].rPos && pos == l + j && l1 == l - 1
    ensures var w := WithWindow(MoveView(v, p, l, pos, 0, 0, -1), p, l1, r);
            OnlyLeaf(v, w, p) && GapKeys(w[p], n, j) && w[p].lPos == l1 && w[p].child == v[p].child
  {
    assert MovePage(v[p], l, pos, 0, 0, -1).child == v[p].child;
  }

  /** A leaf whose page alone changed, and now shows its new node. */
  lemma LeafCoupled(v: Pages, w: Pages, t: Tree, t': Tree, p: nat)
    requires Order(t) && Coupled(v, t) && p in t.nodes && t.nodes[p].kids == []
    requires t'.root == t.root && t'.nodes.Keys == t.nodes.Keys
    requires forall c {:trigger t'.nodes[c]} :: c in t.nodes && c != p ==> t'.nodes[c] == t.nodes[c]
    requires t'.nodes[p].kids == [] && OnlyLeaf(v, w, p) && LeafShows(w, p, t'.nodes[p])
    ensures Coupled(w, t')
  {
    forall c {:trigger PageHeld(w, t', c)} | c in t'.nodes ensures PageHeld(w, t', c) {
      assert PageHeld(v, t, c) && NodeOk(t, c);
      KidsApart(t, c);
    }
  }

  lemma LeafFilled(v: Pages, w: Pages, u: Pages, p: nat, n: Node, j: nat, at: nat, s: Slot)
    requires LeafShows(v, p, n) && OnlyLeaf(v, w, p) && GapKeys(w[p], n, j) && w[p].child == v[p].child
    requires at == w[p].lPos + j && at < INDEXCOUNT
    requires u == WithChild(WithChild(WithSlot(w, p, at, s), p, at, 0), p, at + 1, 0)
    ensures OnlyLeaf(v, u, p) && LeafShows(u, p, n.(keys := n.keys[..j] + [s] + n.keys[j..]))
  {
    var k := n.keys[..j] + [s] + n.keys[j..];
    forall i | 0 <= i < |k| ensures u[p].slot[u[p].lPos + i] == k[i] {
      assert i != j ==> k[i] == n.keys[if i < j then i else i - 1];
    }
  }

  // ---------------------------------------------------------------- sliding a window

  lemma SlidKids(v: Pages, t: Tree, p: nat, l: nat, r: nat, r1: nat)
    requires Order(t) && PageHeld(v, t, p) && t.nodes[p].kids != []
    requires l == v[p].lPos && r == v[p].rPos && r1 == r + 1
    requires v.Keys == t.nodes.Keys
    ensures KidsIn(v, p, l, r1)
    ensures forall i {:trigger v[p].child[i]} :: l <= i <= r ==> v[p].child[i] == t.nodes[p].kids[i - l] && v[v[p].child[i]].parentPos == i
    ensures forall c {:trigger Held(v[p].child, l, r1, c)} :: c in t.nodes && Held(v[p].child, l, r1, c) ==> t.nodes[c].up == p
    ensures forall i {:trigger t.nodes[p].kids[i]} :: 0 <= i < |t.nodes[p].kids| ==> Held(v[p].child, l, r1, t.nodes[p].kids[i])
  {
    assert NodeOk(t, p);
    KidsApart(t, p);
    var kids := t.nodes[p].kids;
    forall i | l <= i <= r ensures v[p].child[i] == kids[i - l] && kids[i - l] in v && kids[i - l] != p && v[kids[i - l]].parentPos == i {
      assert v[p].child[l + (i - l)] == kids[i - l];
      assert KidOk(t, p, i - l);
    }
    forall i | 0 <= i < |kids| ensures Held(v[p].child, l, r1, kids[i]) { assert v[p].child[l + i] == kids[i]; }
  }

  /** A slide moves a window and its children's links; the tree stays as it was. */
  lemma SlideCoupled(v: Pages, w: Pages, t: Tree, p: nat, l: nat, r: nat, r1: nat, d: int, l2: nat, r2: nat)
    requires Order(t) && Coupled(v, t) && p in t.nodes && t.nodes[p].kids != []
    requires l == v[p].lPos && r == v[p].rPos && r1 == r + 1 && l2 == l + d && r2 == r + d <= INDEXCOUNT
    requires w == WithWindow(MoveView(v, p, l, r, l, r1, d), p, l2, r2)
    ensures Coupled(w, t)
  {
    assert PageHeld(v, t, p);
    SlidKids(v, t, p, l, r, r1);
    SlideHeld(v, w, t, p, l, r, r1, d, l2, r2);
    assert OnlyAt(v, w, t, p);
    RestUntouched(v, w, t, p);
    forall c {:trigger PageHeld(w, t, c)} | c in t.nodes ensures PageHeld(w, t, c) { assert c != p ==> PageHeld(w, t, c); }
    if p != t.root { var j := KidParented(v, t, p); }
  }

  lemma SlideKid(v: Pages, w: Pages, t: Tree, p: nat, l: nat, r: nat, r1: nat, d: int, l2: nat, r2: nat, i: nat)
    requires Order(t) && PageHeld(v, t, p) && v.Keys == t.nodes.Keys && i < |t.nodes[p].kids|
    requires l == v[p].lPos && r == v[p].rPos && r1 == r + 1 && l2 == l + d && r2 == r + d <= INDEXCOUNT
    requires w == WithWindow(MoveView(v, p, l, r, l, r1, d), p, l2, r2)
    ensures var k := t.nodes[p].kids[i];
            w[p].child[l2 + i] == k && k in w && w[k].parentIndex == p && w[k].parentPos == l2 + i
  {
    var k, at := t.nodes[p].kids[i], l + i;
    assert NodeOk(t, p) && KidOk(t, p, i) && v[p].child[at] == k;
    SlideKidAt(v, w, p, l, r, r1, d, l2, r2, i, at, k);
  }

  lemma SlideKidAt(v: Pages, w: Pages, p: nat, l: nat, r: nat, r1: nat, d: int, l2: nat, r2: nat, i: nat, at: nat, k: nat)
    requires p in v && Sizes(v[p]) && l <= at < r1 && r <= INDEXCOUNT && k in v && k != p && at == l + i && r1 == r + 1
    requires v[p].child[at] == k && v[k].parentIndex == p && v[k].parentPos == at && Held(v[p].child, l, r1, k)
    requires l2 == l + d && r2 == r + d <= INDEXCOUNT && w == WithWindow(MoveView(v, p, l, r, l, r1, d), p, l2, r2)
    ensures w[p].child[l2 + i] == k && k in w && w[k].parentIndex == p && w[k].parentPos == l2 + i
  {
  }

  lemma SlideHeld(v: Pages, w: Pages, t: Tree, p: nat, l: nat, r: nat, r1: nat, d: int, l2: nat, r2: nat)
    requires Order(t) && PageHeld(v, t, p) && t.nodes[p].kids != [] && v.Keys == t.nodes.Keys
    requires l == v[p].lPos && r == v[p].rPos && r1 == r + 1 && l2 == l + d && r2 == r + d <= INDEXCOUNT
    requires w == WithWindow(MoveView(v, p, l, r, l, r1, d), p, l2, r2)
    ensures PageHeld(w, t, p)
  {
    var n := t.nodes[p];
    forall i | 0 <= i < |n.kids|
      ensures w[p].child[l2 + i] == n.kids[i] && n.kids[i] in w && w[n.kids[i]].parentIndex == p && w[n.kids[i]].parentPos == l2 + i
    {
      SlideKid(v, w, t, p, l, r, r1, d, l2, r2, i);
    }
  }

  lemma SlideLeafCoupled(v: Pages, w: Pages, t: Tree, p: nat, l: nat, r: nat, d: int, l2: nat, r2: nat)
    requires Order(t) && Coupled(v, t) && p in t.nodes && t.nodes[p].kids == []
    requires l == v[p].lPos && r == v[p].rPos && l2 == l + d && r2 == r + d <= INDEXCOUNT
    requires w == WithWindow(MoveView(v, p, l, r, 0, 0, d), p, l2, r2)
    ensures Coupled(w, t)
  {
    assert PageHeld(v, t, p);
    assert MovePage(v[p], l, r, 0, 0, d).child == v[p].child;
    LeafCoupled(v, w, t, t, p);
  }

  // ---------------------------------------------------------------- taking a key out of a leaf

  function LeafWithout(n: Node, j: nat): Node
    requires j < |n.keys|
  {
    n.(keys := n.keys[..j] + n.keys[j+1..])
  }

  lemma LeafCloseLeft(v: Pages, p: nat, n: Node, j: nat, l: nat, r: nat, pos1: nat, r0: nat)
    requires LeafShows(v, p, n) && j < |n.keys|
    requires l == v[p].lPos && r == v[p].rPos && pos1 == l + j + 1 && r0 == r - 1
    ensures var w := WithWindow(MoveView(v, p, pos1, r, 0, 0, -1), p, l, r0);
            OnlyLeaf(v, w, p) && LeafShows(w, p, LeafWithout(n, j))
  {
    var w := WithWindow(MoveView(v, p, pos1, r, 0, 0, -1), p, l, r0);
    assert MovePage(v[p], pos1, r, 0, 0, -1).child == v[p].child;
    var keys := LeafWithout(n, j).keys;
    forall i | 0 <= i < |keys| ensures w[p].slot[l + i] == keys[i] {
      var x := if i < j then i else i + 1;
      assert v[p].slot[l + x] == n.keys[x];
    }
  }

  lemma LeafCloseRight(v: Pages, p: nat, n: Node, j: nat, l: nat, r: nat, pos: nat, l1: nat)
    requires LeafShows(v, p, n) && j < |n.keys|
    requires l == v[p].lPos && r == v[p].rPos && pos == l + j && l1 == l + 1
    ensures var w := WithWindow(MoveView(v, p, l, pos, 0, 0, 1), p, l1, r);
            OnlyLeaf(v, w, p) && LeafShows(w, p, LeafWithout(n, j))
  {
    var w := WithWindow(MoveView(v, p, l, pos, 0, 0, 1), p, l1, r);
    assert MovePage(v[p], l, pos, 0, 0, 1).child == v[p].child;
    var keys := LeafWithout(n, j).keys;
    forall i | 0 <= i < |keys| ensures w[p].slot[l1 + i] == keys[i] {
      var x := if i < j then i else i + 1;
      assert v[p].slot[l + x] == n.keys[x];
    }
  }

  ghost predicate SwapDone(v: Pages, w: Pages, t: Tree, q: nat, j: nat, p: nat, pos: nat, s: Slot) {
    && Order(t) && Coupled(v, t) && SwapPre(t, q, j, p) && pos == v[q].lPos + j && pos < INDEXCOUNT
    && s == t.nodes[p].keys[|t.nodes[p].keys| - 1] && Sizes(v[q])
    && OnlyLeaf(WithSlot(v, q, pos, s), w, p)
    && LeafShows(w, p, LeafWithout(t.nodes[p], |t.nodes[p].keys| - 1))
  }

  lemma SwapLinks(v: Pages, w: Pages, t: Tree, q: nat, j: nat, p: nat, pos: nat, s: Slot, c: nat)
    requires SwapDone(v, w, t, q, j, p, pos, s) && c in t.nodes
    ensures w[c].parentIndex == v[c].parentIndex && w[c].parentPos == v[c].parentPos
  {
  }

  lemma SwapHeldParent(v: Pages, w: Pages, t: Tree, q: nat, j: nat, p: nat, pos: nat, s: Slot)
    requires SwapDone(v, w, t, q, j, p, pos, s)
    ensures Content(w, SwapTree(t, q, j, p), q)
  {
    assert PageHeld(v, t, q);
    assert w[q] == WithSlot(v, q, pos, s)[q];
  }

  lemma SwapHeldLeaf(v: Pages, w: Pages, t: Tree, q: nat, j: nat, p: nat, pos: nat, s: Slot)
    requires SwapDone(v, w, t, q, j, p, pos, s)
    ensures Content(w, SwapTree(t, q, j, p), p)
  {
    var l := |t.nodes[p].keys| - 1;
    assert t.nodes[p].keys[..l] + t.nodes[p].keys[l+1..] == t.nodes[p].keys[..l];
  }

  lemma SwapHeldLink(v: Pages, w: Pages, t: Tree, q: nat, j: nat, p: nat, pos: nat, s: Slot, c: nat)
    requires SwapDone(v, w, t, q, j, p, pos, s) && c in t.nodes
    requires c != p ==> w[c].lPos == v[c].lPos
    ensures Link(w, SwapTree(t, q, j, p), c)
  {
    assert PageHeld(v, t, c) && NodeOk(t, c);
    KidsApart(t, c);
    forall i | 0 <= i < |t.nodes[c].kids| ensures w[t.nodes[c].kids[i]].parentIndex == c && w[t.nodes[c].kids[i]].parentPos == v[c].lPos + i {
      SwapLinks(v, w, t, q, j, p, pos, s, t.nodes[c].kids[i]);
    }
  }

  /** The internal page q got the last key of the leaf p, and the leaf lost it. */
  lemma SwapCoupled(v: Pages, w: Pages, t: Tree, q: nat, j: nat, p: nat, pos: nat, s: Slot)
    requires SwapDone(v, w, t, q, j, p, pos, s)
    ensures Coupled(w, SwapTree(t, q, j, p))
  {
    var t' := SwapTree(t, q, j, p);
    forall c {:trigger PageHeld(w, t', c)} | c in t'.nodes ensures PageHeld(w, t', c) {
      assert PageHeld(v, t, c);
      if c == p {
        SwapHeldLeaf(v, w, t, q, j, p, pos, s);
      } else if c == q {
        SwapHeldParent(v, w, t, q, j, p, pos, s);
      } else {
        assert w[c] == v[c];
      }
      SwapHeldLink(v, w, t, q, j, p, pos, s, c);
    }
    SwapLinks(v, w, t, q, j, p, pos, s, t.root);
  }
}

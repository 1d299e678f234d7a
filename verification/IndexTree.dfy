/** The index tree: pages split, lend keys, slide and merge in place. */
module IndexTree {
  import opened TreeShape
  import opened PagePool
  import opened IndexPages
  import opened Windows
  import opened Coupling
  import opened Lending
  import opened Merging

  /** How many keys page c may hold. */
  ghost predicate SizeOk(t: Tree, c: nat) {
    && c in t.nodes && c in t.info
    && |t.nodes[c].keys| < INDEXCOUNT
    && (c != t.root ==> INDEXMINR <= |t.nodes[c].keys|)
    && (c == t.root && t.info[c].level > 0 ==> 1 <= |t.nodes[c].keys|)
  }

  ghost predicate Sized(t: Tree) {
    forall c {:trigger SizeOk(t, c)} :: c in t.nodes ==> SizeOk(t, c)
  }

  ghost predicate SizedBut(t: Tree, p: nat) {
    forall c {:trigger SizeOk(t, c)} :: c in t.nodes && c != p ==> SizeOk(t, c)
  }

  /** The same keys with the same records. */
  ghost predicate SameKeys(a: Tree, b: Tree) {
    forall r {:trigger Has(b, r)} {:trigger Has(a, r)} :: Has(a, r) <==> Has(b, r)
  }

  /** What holds even while some page is too full or too empty. */
  ghost predicate Rooted(t: Tree, v: Pages, root: nat, used: set<nat>) {
    v.Keys <= used && root == t.root && Order(t)
  }

  /** The pages hold a balanced search tree. */
  ghost predicate Good(v: Pages, t: Tree, root: nat, used: set<nat>) {
    Rooted(t, v, root, used) && Coupled(v, t) && Sized(t)
  }

  lemma GoodAgain(v: Pages, t: Tree, root: nat, used: set<nat>, p: nat)
    requires Rooted(t, v, root, used) && Coupled(v, t) && SizedBut(t, p) && (p in t.nodes ==> SizeOk(t, p))
    ensures Good(v, t, root, used)
  {
  }

  lemma TakenByIndex(used: set<nat>, keys: set<nat>, q: nat)
    requires q !in used && keys <= used
    ensures (used + {q}) - (keys + {q}) == used - keys
  {
  }

  /** b has the keys of a and s. */
  ghost predicate OneMore(a: Tree, b: Tree, s: Slot) {
    forall x {:trigger Has(b, x)} {:trigger Has(a, x)} :: Has(b, x) <==> x == s || Has(a, x)
  }

  /** b has the keys of a but s. */
  ghost predicate OneLess(a: Tree, b: Tree, s: Slot) {
    forall x {:trigger Has(b, x)} {:trigger Has(a, x)} :: Has(b, x) <==> x != s && Has(a, x)
  }

  /** The place for key k in the leaf p. */
  ghost predicate Fits(t: Tree, p: nat, j: nat, k: real) {
    && p in t.nodes && p in t.info && t.info[p].level == 0 && j <= |t.nodes[p].keys|
    && Inside(t.info[p], k)
    && (j > 0 ==> t.nodes[p].keys[j-1].key < k)
    && (j < |t.nodes[p].keys| ==> k < t.nodes[p].keys[j].key)
  }

  lemma LeafNode(v: Pages, t: Tree, p: nat)
    requires Order(t) && Coupled(v, t) && p in t.nodes && t.info[p].level == 0
    ensures LeafShows(v, p, t.nodes[p]) && t.nodes[p].kids == []
  {
    assert NodeOk(t, p) && PageHeld(v, t, p);
  }

  lemma AddedToLeaf(v: Pages, w: Pages, t: Tree, p: nat, j: nat, s: Slot) returns (t': Tree)
    requires Order(t) && Coupled(v, t) && Sized(t) && Fits(t, p, j, s.key)
    requires OnlyLeaf(v, w, p) && LeafShows(w, p, AddTree(t, p, j, s).nodes[p])
    ensures Order(t') && Coupled(w, t') && OneMore(t, t', s) && t'.root == t.root
    ensures SizedBut(t', p) && p in t'.nodes && |t'.nodes[p].keys| == |t.nodes[p].keys| + 1 <= INDEXCOUNT
    ensures |t'.nodes[p].keys| < INDEXCOUNT ==> SizeOk(t', p)
  {
    t' := AddTree(t, p, j, s);
    assert NodeOk(t, p) && SizeOk(t, p);
    AddOrder(t, p, j, s);
    LeafCoupled(v, w, t, t', p);
    forall x {:trigger Has(t', x)} ensures Has(t', x) <==> x == s || Has(t, x) { AddHas(t, p, j, s, x); }
    forall c {:trigger SizeOk(t', c)} | c in t'.nodes && c != p ensures SizeOk(t', c) { assert SizeOk(t, c); }
  }

  /** k is no key of the tree if its place in a leaf is free. */
  lemma NotThere(t: Tree, p: nat, j: nat, k: real, s: Slot)
    requires Order(t) && Fits(t, p, j, k) && s.key == k
    ensures !Has(t, s)
  {
    if Has(t, s) {
      var c, i := AtOf(t, s);
      assert In(t, c, s) && NodeOk(t, p);
      Home(t, p, c, s);
    }
  }

  /** Page p of v shows the keys of its node. */
  lemma KeysShown(v: Pages, t: Tree, p: nat)
    requires Coupled(v, t) && p in t.nodes
    ensures p in v && Sizes(v[p]) && v[p].rPos == v[p].lPos + |t.nodes[p].keys| <= INDEXCOUNT
    ensures forall i {:trigger v[p].slot[i]} :: v[p].lPos <= i < v[p].rPos ==> v[p].slot[i] == t.nodes[p].keys[i - v[p].lPos]
  {
    assert PageHeld(v, t, p);
    forall i | v[p].lPos <= i < v[p].rPos ensures v[p].slot[i] == t.nodes[p].keys[i - v[p].lPos] {
      assert v[p].slot[v[p].lPos + (i - v[p].lPos)] == t.nodes[p].keys[i - v[p].lPos];
    }
  }

  /** The child at the j-th place of an internal page covers exactly the gap there. */
  lemma DownOne(v: Pages, t: Tree, p: nat, j: nat, k: real)
    requires Order(t) && Coupled(v, t) && Sized(t) && p in t.nodes && j <= |t.nodes[p].keys| && Inside(t.info[p], k)
    requires j > 0 ==> t.nodes[p].keys[j-1].key < k
    requires j < |t.nodes[p].keys| ==> k < t.nodes[p].keys[j].key
    ensures p in v && v[p].lPos + j < |v[p].child|
    ensures var c := v[p].child[v[p].lPos + j];
            if t.info[p].level == 0 then c == 0
            else c != 0 && c in t.nodes && Inside(t.info[c], k) && t.info[c].level < t.info[p].level && 0 < |t.nodes[c].keys|
  {
    assert PageHeld(v, t, p) && NodeOk(t, p);
    if t.info[p].level > 0 {
      assert KidOk(t, p, j);
      assert v[p].child[v[p].lPos + j] == t.nodes[p].kids[j];
      assert SizeOk(t, t.nodes[p].kids[j]);
    }
  }

  // ---------------------------------------------------------------- splitting, on values

  ghost function RaisedView(v: Pages, t: Tree, p: nat, q: nat): Pages {
    if p == t.root then v[q := EmptyPage()] else v
  }

  ghost function RaisedTree(t: Tree, p: nat, q: nat): Tree
    requires t.root in t.nodes && t.root in t.info
  {
    if p == t.root then GrowTree(t, q) else t
  }

  /** q is the parent of p, or a page above p if p was the root. */
  lemma Raised(v: Pages, t: Tree, p: nat, q: nat) returns (j: nat)
    requires Order(t) && Coupled(v, t) && p in t.nodes
    requires if p == t.root then q !in t.nodes && q != 0 else q == v[p].parentIndex
    ensures v[p].parentPos >= 0
    ensures var t1 := RaisedTree(t, p, q);
            && Order(t1) && SameKeys(t, t1) && t1.nodes[p] == t.nodes[p].(up := q)
            && Parented(RaisedView(v, t, p, q), t1, p, q, j, v[p].parentPos)
            && (p != t.root ==> t.info[q].level == t.info[p].level + 1 <= t.info[t.root].level)
  {
    assert PageHeld(v, t, t.root);
    if p == t.root {
      j := 0;
      RootParented(v, t, q);
      GrowOrder(t, q);
    } else {
      j := KidParented(v, t, p);
    }
  }

  lemma RaisedSizes(t: Tree, p: nat, q: nat)
    requires Order(t) && p in t.nodes && SizedBut(t, p) && (if p == t.root then q !in t.nodes else q in t.nodes && q != p)
    ensures var t1 := RaisedTree(t, p, q);
            && (forall c {:trigger SizeOk(t1, c)} :: c in t1.nodes && c != p && c != q ==> SizeOk(t1, c))
            && |t1.nodes[q].keys| < INDEXCOUNT && (q != t1.root ==> SizeOk(t1, q))
  {
    var t1 := RaisedTree(t, p, q);
    forall c {:trigger SizeOk(t1, c)} | c in t1.nodes && c != p && c != q ensures SizeOk(t1, c) { assert SizeOk(t, c); }
    if p != t.root { assert SizeOk(t, q); }
  }

  /** Which page p is tells whether it has a parent. */
  lemma ParentOrRoot(v: Pages, t: Tree, p: nat)
    requires Order(t) && Coupled(v, t) && p in t.nodes
    ensures v[p].parentIndex == 0 <==> p == t.root
    ensures v[p].parentPos >= 0
  {
    if p != t.root { var j := KidParented(v, t, p); }
  }

  ghost predicate SplitReady(v: Pages, t: Tree, p: nat, s: nat, q: nat, j: nat, pos: nat) {
    && Order(t) && Parented(v, t, p, q, j, pos) && s !in t.nodes && s != 0
    && |t.nodes[p].keys| == INDEXCOUNT
  }

  lemma TailReady(v: Pages, t: Tree, p: nat, s: nat, m: nat)
    requires PageHeld(v, t, p) && NodeOk(t, p) && 0 !in t.nodes && s !in t.nodes && m < INDEXCOUNT
    requires |t.nodes[p].keys| == INDEXCOUNT
    ensures Tail(v[s := EmptyPage()], p, s, m)
  {
    var kids := t.nodes[p].kids;
    KidsApart(t, p);
    if kids != [] {
      forall i | 0 <= i <= INDEXCOUNT ensures v[p].child[i] == kids[i] && kids[i] != p {
        assert v[p].child[v[p].lPos + i] == kids[i];
        assert KidOk(t, p, i);
      }
    }
  }

  lemma ReadyToCut(v: Pages, t: Tree, p: nat, s: nat, q: nat, j: nat, pos: nat)
    requires SplitReady(v, t, p, s, q, j, pos)
    ensures SplitPre(t, p, s, q, j, INDEXMINL) && Order(SplitTree(t, p, s, q, j, INDEXMINL))
    ensures Tail(v[s := EmptyPage()], p, s, INDEXMINL)
  {
    assert NodeOk(t, p) && NodeOk(t, q) && PageHeld(v, t, p);
    SplitOrder(t, p, s, q, j, INDEXMINL);
    TailReady(v, t, p, s, INDEXMINL);
  }

  lemma HeldStill(v: Pages, t: Tree, s: nat, c: nat)
    requires Order(t) && c in t.nodes && PageHeld(v, t, c) && s !in t.nodes
    ensures PageHeld(v[s := EmptyPage()], t, c)
  {
    assert NodeOk(t, c);
    KidsApart(t, c);
  }

  lemma CutReady(v: Pages, w: Pages, t: Tree, p: nat, s: nat, q: nat, j: nat, pos: nat)
    requires SplitReady(v, t, p, s, q, j, pos)
    requires Cut(v[s := EmptyPage()], w, p, s, INDEXMINL, INDEXMINR)
    ensures CutPre(v[s := EmptyPage()], w, t, p, s, q, j, INDEXMINL, INDEXMINR)
  {
    ReadyToCut(v, t, p, s, q, j, pos);
    assert PageHeld(v, t, p);
    HeldStill(v, t, s, p);
  }

  lemma CutDone(v: Pages, w: Pages, t: Tree, p: nat, s: nat, q: nat, j: nat, pos: nat)
    requires SplitReady(v, t, p, s, q, j, pos)
    requires Cut(v[s := EmptyPage()], w, p, s, INDEXMINL, INDEXMINR)
    ensures SplitPre(t, p, s, q, j, INDEXMINL)
    ensures Order(SplitTree(t, p, s, q, j, INDEXMINL)) && Others(w, SplitTree(t, p, s, q, j, INDEXMINL), q)
    ensures Shows(w, q, t.nodes[q], j) && pos == w[q].lPos + j
  {
    var v' := v[s := EmptyPage()];
    CutReady(v, w, t, p, s, q, j, pos);
    forall c {:trigger PageHeld(v', t, c)} | c in t.nodes && c != q ensures PageHeld(v', t, c) {
      assert PageHeld(v, t, c);
      HeldStill(v, t, s, c);
    }
    CutOthers(v', w, t, p, s, q, j, INDEXMINL, INDEXMINR);
    ShowsStill(v, t, s, q, j);
    CutShows(v', w, t, p, s, q, j, INDEXMINL, INDEXMINR);
  }

  lemma ShowsStill(v: Pages, t: Tree, s: nat, q: nat, j: nat)
    requires q in t.nodes && Shows(v, q, t.nodes[q], j) && s !in v
    ensures Shows(v[s := EmptyPage()], q, t.nodes[q], j)
  {
  }

  lemma SplitKeeps(t: Tree, p: nat, s: nat, q: nat, j: nat)
    requires SplitPre(t, p, s, q, j, INDEXMINL) && p != q
    ensures SameKeys(t, SplitTree(t, p, s, q, j, INDEXMINL))
  {
    var t' := SplitTree(t, p, s, q, j, INDEXMINL);
    forall r {:trigger Has(t, r)} ensures Has(t, r) <==> Has(t', r) { SplitHas(t, p, s, q, j, INDEXMINL, r); }
  }

  lemma SplitSizes(t: Tree, p: nat, s: nat, q: nat, j: nat)
    requires SplitPre(t, p, s, q, j, INDEXMINL) && p != q && |t.nodes[p].keys| == INDEXCOUNT
    requires forall c {:trigger SizeOk(t, c)} :: c in t.nodes && c != p && c != q ==> SizeOk(t, c)
    requires |t.nodes[q].keys| < INDEXCOUNT && (q != t.root ==> SizeOk(t, q))
    ensures var t' := SplitTree(t, p, s, q, j, INDEXMINL);
            SizedBut(t', q) && (|t.nodes[q].keys| + 1 < INDEXCOUNT ==> SizeOk(t', q))
  {
    var t' := SplitTree(t, p, s, q, j, INDEXMINL);
    forall c {:trigger SizeOk(t', c)} | c in t'.nodes && c != q ensures SizeOk(t', c) {
      if c in t.nodes && c != p { assert SizeOk(t, c); }
    }
  }

  /** All pages but q hold the tree; q is to get key mid between lc and rc. */
  ghost predicate InsertPre(v: Pages, t: Tree, q: nat, pos: nat, mid: Slot, lc: nat, rc: nat, n: Node, j: nat, h: nat) {
    && Order(t) && Others(v, t, q)
    && q in t.nodes && |n.kids| == |n.keys| + 1 && j <= |n.keys| < INDEXCOUNT
    && t.nodes[q] == Spliced(n, j, mid, lc, rc)
    && Shows(v, q, n, j) && pos == v[q].lPos + j
    && lc in t.nodes && rc in t.nodes && lc != q && rc != q && lc != rc
    && SizedBut(t, q) && (|n.keys| + 1 < INDEXCOUNT ==> SizeOk(t, q))
    && (|n.keys| + 1 == INDEXCOUNT ==> h > t.info[t.root].level - t.info[q].level)
  }

  /** After the cut the parent is ready for the middle key. */
  lemma CutInserts(v: Pages, w: Pages, t: Tree, p: nat, s: nat, q: nat, j: nat, pos: nat, h: nat)
    requires SplitReady(v, t, p, s, q, j, pos)
    requires Cut(v[s := EmptyPage()], w, p, s, INDEXMINL, INDEXMINR)
    requires forall c {:trigger SizeOk(t, c)} :: c in t.nodes && c != p && c != q ==> SizeOk(t, c)
    requires |t.nodes[q].keys| < INDEXCOUNT && (q != t.root ==> SizeOk(t, q))
    requires |t.nodes[q].keys| + 1 == INDEXCOUNT ==> h > t.info[t.root].level - t.info[q].level
    ensures SplitPre(t, p, s, q, j, INDEXMINL)
    ensures var t' := SplitTree(t, p, s, q, j, INDEXMINL);
            && InsertPre(w, t', q, pos, t.nodes[p].keys[INDEXMINL], p, s, t.nodes[q], j, h)
            && SameKeys(t, t') && t'.root == t.root && t'.nodes.Keys == t.nodes.Keys + {s}
  {
    CutDone(v, w, t, p, s, q, j, pos);
    SplitKeeps(t, p, s, q, j);
    SplitSizes(t, p, s, q, j);
  }

  /** With parent and new neighbour at hand, the full page p can be cut. */
  lemma RaisedToCut(v0: Pages, t0: Tree, p: nat, q: nat, s: nat, pos: nat) returns (j: nat)
    requires Order(t0) && Coupled(v0, t0) && p in t0.nodes && |t0.nodes[p].keys| == INDEXCOUNT
    requires if p == t0.root then q !in t0.nodes && q != 0 else q == v0[p].parentIndex
    requires pos == v0[p].parentPos && s != 0 && s !in RaisedView(v0, t0, p, q)
    ensures SplitReady(RaisedView(v0, t0, p, q), RaisedTree(t0, p, q), p, s, q, j, pos)
    ensures Tail(RaisedView(v0, t0, p, q)[s := EmptyPage()], p, s, INDEXMINL) && p != s
  {
    j := Raised(v0, t0, p, q);
    ReadyToCut(RaisedView(v0, t0, p, q), RaisedTree(t0, p, q), p, s, q, j, pos);
  }

  /** Once cut, its middle key only has to be put into the parent. */
  lemma RaisedAndCut(v0: Pages, w: Pages, t0: Tree, p: nat, q: nat, s: nat, j: nat, pos: nat, h: nat) returns (n: Node, t': Tree)
    requires Order(t0) && Coupled(v0, t0) && p in t0.nodes && |t0.nodes[p].keys| == INDEXCOUNT && SizedBut(t0, p)
    requires if p == t0.root then q !in t0.nodes && q != 0 else q == v0[p].parentIndex
    requires h + 1 > t0.info[t0.root].level - t0.info[p].level
    requires SplitReady(RaisedView(v0, t0, p, q), RaisedTree(t0, p, q), p, s, q, j, pos)
    requires Cut(RaisedView(v0, t0, p, q)[s := EmptyPage()], w, p, s, INDEXMINL, INDEXMINR)
    ensures InsertPre(w, t', q, pos, t0.nodes[p].keys[INDEXMINL], p, s, n, j, h)
    ensures SameKeys(t0, t') && t'.root == RaisedTree(t0, p, q).root
  {
    var t1 := RaisedTree(t0, p, q);
    var i := Raised(v0, t0, p, q);
    RaisedSizes(t0, p, q);
    CutInserts(RaisedView(v0, t0, p, q), w, t1, p, s, q, j, pos, h);
    n, t' := t1.nodes[q], SplitTree(t1, p, s, q, j, INDEXMINL);
  }

  // ---------------------------------------------------------------- evening out, on values

  /** p, at place j among the children of q, is one key short; everything else is in order. */
  ghost predicate Short(v: Pages, t: Tree, p: nat) {
    && Order(t) && Coupled(v, t) && p in t.nodes && p != t.root
    && SizedBut(t, p) && |t.nodes[p].keys| + 1 == INDEXMINR
  }

  /** p and s are neighbours under q. */
  ghost predicate Neighbours(v: Pages, t: Tree, p: nat, s: nat, q: nat, j: nat, pos: nat) {
    && Order(t) && Coupled(v, t) && p in t.nodes && s in t.nodes && q in t.nodes
    && j < |t.nodes[q].keys| && |t.nodes[q].kids| == |t.nodes[q].keys| + 1
    && t.nodes[q].kids[j] == p && t.nodes[q].kids[j+1] == s && pos == v[q].lPos + j
  }

  lemma NeighboursLend(v: Pages, t: Tree, p: nat, s: nat, q: nat, j: nat, pos: nat)
    requires Neighbours(v, t, p, s, q, j, pos)
    ensures LendPre(v, t, p, s, q, j, pos)
    ensures p != s && p != q && s != q && p != t.root && s != t.root
    ensures pos < INDEXCOUNT && v[q].child[pos] == p && v[q].child[pos + 1] == s
    ensures t.info[q].level == t.info[p].level + 1 == t.info[s].level + 1 <= t.info[t.root].level
  {
    assert NodeOk(t, p) && NodeOk(t, s) && NodeOk(t, q) && PageHeld(v, t, p) && PageHeld(v, t, s) && PageHeld(v, t, q);
    MergeApart(t, p, s, q, j);
    assert v[q].child[v[q].lPos + j] == t.nodes[q].kids[j] && v[q].child[v[q].lPos + (j + 1)] == t.nodes[q].kids[j+1];
    assert q != t.root ==> UpOk(t, q);
  }

  lemma LoanSizes(t: Tree, p: nat, s: nat, q: nat, j: nat, m: nat, short: nat)
    requires MergePre(t, p, s, q, j) && SizedBut(t, short) && (short == p || short == s)
    requires |t.nodes[short].keys| + 1 == INDEXMINR
    requires if short == p then m == |t.nodes[p].keys| + 1 && |t.nodes[s].keys| > INDEXMINR
             else m + 1 == |t.nodes[p].keys| && |t.nodes[p].keys| > INDEXMINR
    ensures Sized(LoanTree(t, p, s, q, j, m))
  {
    MergeApart(t, p, s, q, j);
    var t' := LoanTree(t, p, s, q, j, m);
    if short == p { LoanFromRight(t, p, s, q, j, m); } else { LoanFromLeft(t, p, s, q, j, m); }
    forall c {:trigger SizeOk(t', c)} | c in t'.nodes ensures SizeOk(t', c) {
      assert c != short ==> SizeOk(t, c);
      if c != p && c != s && c != q { LoanRest(t, p, s, q, j, m, c); }
    }
  }

  lemma LoanDone(v: Pages, t: Tree, p: nat, s: nat, q: nat, j: nat, pos: nat, m: nat, short: nat)
    requires Neighbours(v, t, p, s, q, j, pos) && SizedBut(t, short) && (short == p || short == s)
    requires |t.nodes[short].keys| + 1 == INDEXMINR
    requires if short == p then m == |t.nodes[p].keys| + 1 && |t.nodes[s].keys| > INDEXMINR
             else m + 1 == |t.nodes[p].keys| && |t.nodes[p].keys| > INDEXMINR
    ensures MergePre(t, p, s, q, j)
    ensures var t' := LoanTree(t, p, s, q, j, m);
            Order(t') && SameKeys(t, t') && Sized(t') && t'.root == t.root && t'.nodes.Keys == t.nodes.Keys
  {
    NeighboursLend(v, t, p, s, q, j, pos);
    LoanOrder(t, p, s, q, j, m);
    LoanSizes(t, p, s, q, j, m, short);
    if short == p { LoanFromRight(t, p, s, q, j, m); } else { LoanFromLeft(t, p, s, q, j, m); }
  }

  lemma TakeRightReady(v: Pages, t: Tree, p: nat, s: nat, q: nat, j: nat, pos: nat)
    requires Neighbours(v, t, p, s, q, j, pos) && t.nodes[s].keys != []
    ensures p in v && s in v && q in v && p != s && p != q && s != q && Sizes(v[p]) && Sizes(v[s]) && Sizes(v[q])
    ensures pos < INDEXCOUNT && v[s].lPos < INDEXCOUNT
    ensures var x := v[s].child[v[s].lPos]; x != 0 ==> x in v && x != p && x != s && x != q
  {
    NeighboursLend(v, t, p, s, q, j, pos);
    FirstKid(v, t, p, s, q, j, pos);
  }

  lemma TakenRight(v: Pages, w: Pages, t: Tree, root: nat, used: set<nat>, p: nat, s: nat, q: nat, j: nat, pos: nat, m: nat, r: nat, r1: nat, x: nat) returns (t': Tree)
    requires Rooted(t, v, root, used) && Neighbours(v, t, p, s, q, j, pos) && SizedBut(t, p)
    requires |t.nodes[p].keys| + 1 == INDEXMINR && |t.nodes[s].keys| > INDEXMINR && m == |t.nodes[p].keys| + 1
    requires LentRight(v, w, p, s, q, pos, r, r1, x) && x == v[s].child[v[s].lPos]
    ensures Good(w, t', root, used) && SameKeys(t, t') && w.Keys == v.Keys
  {
    NeighboursLend(v, t, p, s, q, j, pos);
    LentRightCoupled(v, w, t, p, s, q, j, pos, m, r, r1, x);
    LoanDone(v, t, p, s, q, j, pos, m, p);
    t' := LoanTree(t, p, s, q, j, m);
  }

  lemma TakeLeftReady(v: Pages, t: Tree, p: nat, s: nat, q: nat, j: nat, pos: nat)
    requires Neighbours(v, t, p, s, q, j, pos) && t.nodes[p].keys != []
    ensures p in v && s in v && q in v && p != s && p != q && s != q && Sizes(v[p]) && Sizes(v[s]) && Sizes(v[q])
    ensures pos < INDEXCOUNT && 0 < v[p].rPos <= INDEXCOUNT && v[s].lPos <= INDEXCOUNT
    ensures var x := v[p].child[v[p].rPos]; x != 0 ==> x in v && x != p && x != s && x != q
  {
    NeighboursLend(v, t, p, s, q, j, pos);
    LastKid(v, t, p, s, q, j, pos);
  }

  lemma TakenLeft(v: Pages, w: Pages, t: Tree, root: nat, used: set<nat>, p: nat, s: nat, q: nat, j: nat, pos: nat, m: nat, l1: nat, x: nat) returns (t': Tree)
    requires Rooted(t, v, root, used) && Neighbours(v, t, p, s, q, j, pos) && SizedBut(t, s)
    requires |t.nodes[s].keys| + 1 == INDEXMINR && |t.nodes[p].keys| > INDEXMINR && m + 1 == |t.nodes[p].keys|
    requires LentLeft(v, w, p, s, q, pos, l1, x) && x == v[p].child[v[p].rPos]
    ensures Good(w, t', root, used) && SameKeys(t, t') && w.Keys == v.Keys
  {
    NeighboursLend(v, t, p, s, q, j, pos);
    LentLeftCoupled(v, w, t, p, s, q, j, pos, m, l1, x);
    LoanDone(v, t, p, s, q, j, pos, m, s);
    t' := LoanTree(t, p, s, q, j, m);
  }

  lemma MergeStart(v: Pages, t: Tree, p: nat, s: nat, q: nat, j: nat, pos: nat)
    requires Neighbours(v, t, p, s, q, j, pos)
    ensures LendPre(v, t, p, s, q, j, pos) && p != s && p != q && s != q && q in v && Sizes(v[q]) && pos < INDEXCOUNT
    ensures Holds(v, p, t.nodes[p]) && Holds(v, s, t.nodes[s]) && Families(t.nodes[p], t.nodes[s], p, s, q)
  {
    NeighboursLend(v, t, p, s, q, j, pos);
    HoldsHeld(v, t, p);
    HoldsHeld(v, t, s);
    FamiliesOf(t, p, s, q, j);
  }

  lemma MergeMiddle(v: Pages, w: Pages, u: Pages, t: Tree, p: nat, s: nat, q: nat, j: nat, pos: nat, r: nat, r1: nat, n: nat, b: nat)
    requires Neighbours(v, t, p, s, q, j, pos) && Absorbed(v, w, u, p, s, q, pos, r, r1, n, b)
    ensures MergePre(t, p, s, q, j) && Others(u, MergeTree(t, p, s, q, j), q)
    ensures HoldsBut(u, q, t.nodes[q], j + 1) && pos == u[q].lPos + j && u.Keys == v.Keys - {s}
  {
    NeighboursLend(v, t, p, s, q, j, pos);
    MergedParent(v, w, u, t, p, s, q, j, pos, r, r1, n, b);
    MergedOthers(v, w, u, t, p, s, q, j, pos, r, r1, n, b);
  }

  lemma MergeEnd(u: Pages, w: Pages, t: Tree, p: nat, s: nat, q: nat, j: nat)
    requires MergePre(t, p, s, q, j) && Others(u, MergeTree(t, p, s, q, j), q)
    requires GapRest(u, w, q, t.nodes[q], j + 1) && Holds(w, q, Closed(t.nodes[q], j))
    ensures var t' := MergeTree(t, p, s, q, j); Order(t') && Coupled(w, t') && SameKeys(t, t') && t'.root == t.root
  {
    var t' := MergeTree(t, p, s, q, j);
    MergeApart(t, p, s, q, j);
    MergeOrder(t, p, s, q, j);
    MergeCoupled(u, w, t, p, s, q, j);
    forall r {:trigger Has(t, r)} ensures Has(t, r) <==> Has(t', r) { MergeHas(t, p, s, q, j, r); }
  }

  /** After a merge only the parent can be too small. */
  lemma MergeSizes(t: Tree, p: nat, s: nat, q: nat, j: nat, short: nat)
    requires MergePre(t, p, s, q, j) && SizedBut(t, short) && (short == p || short == s)
    requires |t.nodes[p].keys| + |t.nodes[s].keys| + 1 == 2 * INDEXMINR
    ensures p != q && s != q && p != s
    ensures var t' := MergeTree(t, p, s, q, j);
            && SizedBut(t', q) && |t'.nodes[q].keys| + 1 == |t.nodes[q].keys|
            && (if q == t.root then 1 else INDEXMINR) <= |t.nodes[q].keys| < INDEXCOUNT
  {
    MergeApart(t, p, s, q, j);
    var t' := MergeTree(t, p, s, q, j);
    assert SizeOk(t, q);
    forall c {:trigger SizeOk(t', c)} | c in t'.nodes && c != q ensures SizeOk(t', c) {
      assert c != short ==> SizeOk(t, c);
    }
  }

  /** The only child of a root without keys becomes the root. */
  lemma CollapseCoupled(v: Pages, t: Tree, p: nat)
    requires Order(t) && Coupled(v, t) && t.nodes[t.root].keys == [] && t.info[t.root].level > 0
    requires SizedBut(t, t.root) && p in t.nodes && p != t.root
    requires |t.nodes[t.root].kids| == 1 && t.nodes[t.root].kids[0] == p
    ensures var t' := CollapseTree(t);
            && Order(t') && SameKeys(t, t') && Sized(t') && t'.root == p && t'.nodes.Keys == t.nodes.Keys - {t.root}
            && Coupled(WithParent(v, p, 0, 0) - {t.root}, t')
  {
    CollapseOrder(t);
    var t', w := CollapseTree(t), WithParent(v, p, 0, 0) - {t.root};
    forall c {:trigger SizeOk(t', c)} | c in t'.nodes ensures SizeOk(t', c) { assert SizeOk(t, c); }
    forall c {:trigger PageHeld(w, t', c)} | c in t'.nodes ensures PageHeld(w, t', c) {
      assert PageHeld(v, t, c) && NodeOk(t, c) && NodeOk(t, t.root);
      KidsApart(t, c);
      KidsApart(t, t.root);
      assert t.nodes[t.root].kids[0] == p;
    }
  }

  lemma FreedByIndex(used: set<nat>, keys: set<nat>, s: nat)
    requires s in keys
    ensures (used - {s}) - (keys - {s}) == used - keys
  {
  }

  /** The back-link of a short page leads to its parent; its neighbour there is found by it. */
  lemma ShortPlace(v: Pages, t: Tree, p: nat) returns (q: nat, j: nat)
    requires Short(v, t, p)
    ensures p in v && q in t.nodes && q in v && q != 0 && v[p].parentIndex == q && v[p].parentPos == v[q].lPos + j
    ensures v[q].rPos == v[q].lPos + |t.nodes[q].keys| && 1 <= |t.nodes[q].keys| && v[q].rPos < |v[q].child|
    ensures t.info[q].level == t.info[p].level + 1 <= t.info[t.root].level
    ensures j <= |t.nodes[q].keys|
    ensures j < |t.nodes[q].keys| ==> Neighbours(v, t, p, v[q].child[v[q].lPos + j + 1], q, j, v[q].lPos + j)
    ensures j == |t.nodes[q].keys| ==> Neighbours(v, t, v[q].child[v[q].lPos + j - 1], p, q, j - 1, v[q].lPos + j - 1)
  {
    q, j := ParentFound(v, t, p);
    assert NodeOk(t, q) && SizeOk(t, q);
    KidsApart(t, q);
    if j < |t.nodes[q].keys| {
      assert v[q].child[v[q].lPos + (j + 1)] == t.nodes[q].kids[j + 1];
    } else {
      assert v[q].child[v[q].lPos + (j - 1)] == t.nodes[q].kids[j - 1];
    }
  }

  /** The tree lost key s, and the leaf p an entry; everything but the size of p is in order. */
  ghost predicate LeafLess(w: Pages, t: Tree, t': Tree, p: nat, s: Slot) {
    && Order(t') && Coupled(w, t') && OneLess(t, t', s) && t'.root == t.root && SizedBut(t', p)
    && p in t'.nodes && t'.info[p].level == 0 && |t'.nodes[p].keys| < INDEXCOUNT
    && (p != t.root ==> INDEXMINR <= |t'.nodes[p].keys| + 1)
  }

  lemma DroppedFromLeaf(v: Pages, w: Pages, t: Tree, p: nat, j: nat) returns (t': Tree)
    requires Order(t) && Coupled(v, t) && Sized(t) && p in t.nodes && t.info[p].level == 0 && j < |t.nodes[p].keys|
    requires OnlyLeaf(v, w, p) && LeafShows(w, p, LeafWithout(t.nodes[p], j))
    ensures LeafLess(w, t, t', p, t.nodes[p].keys[j])
  {
    t' := DropTree(t, p, j);
    assert NodeOk(t, p) && SizeOk(t, p);
    DropOrder(t, p, j);
    LeafCoupled(v, w, t, t', p);
    forall x {:trigger Has(t', x)} ensures Has(t', x) <==> x != t.nodes[p].keys[j] && Has(t, x) { DropHas(t, p, j, x); }
    forall c {:trigger SizeOk(t', c)} | c in t'.nodes && c != p ensures SizeOk(t', c) { assert SizeOk(t, c); }
  }

  lemma SwappedOut(v: Pages, w: Pages, t: Tree, q: nat, j: nat, p: nat, pos: nat, s: Slot) returns (t': Tree)
    requires SwapDone(v, w, t, q, j, p, pos, s) && Sized(t)
    ensures LeafLess(w, t, t', p, t.nodes[q].keys[j])
  {
    t' := SwapTree(t, q, j, p);
    assert SizeOk(t, p);
    SwapOrder(t, q, j, p);
    SwapCoupled(v, w, t, q, j, p, pos, s);
    forall x {:trigger Has(t', x)} ensures Has(t', x) <==> x != t.nodes[q].keys[j] && Has(t, x) { SwapHas(t, q, j, p, x); }
    forall c {:trigger SizeOk(t', c)} | c in t'.nodes && c != p ensures SizeOk(t', c) { assert SizeOk(t, c); }
  }

  lemma ShownChild(v: Pages, t: Tree, p: nat, j: nat)
    requires Order(t) && Coupled(v, t) && p in t.nodes && j <= |t.nodes[p].keys|
    ensures p in v && v[p].lPos + j < |v[p].child|
    ensures v[p].child[v[p].lPos + j] == 0 <==> t.info[p].level == 0
  {
    assert PageHeld(v, t, p) && NodeOk(t, p);
    if t.info[p].level > 0 {
      assert KidOk(t, p, j);
      assert v[p].child[v[p].lPos + j] == t.nodes[p].kids[j];
    }
  }

  /** One step down the right edge of the subtree in front of a key. */
  lemma RightEdge(v: Pages, t: Tree, c: nat, b: Bound)
    requires Order(t) && Coupled(v, t) && Sized(t) && c in t.nodes && c != t.root && t.info[c].hi == b
    ensures c in v && Sizes(v[c]) && v[c].lPos + |t.nodes[c].keys| == v[c].rPos <= INDEXCOUNT && t.nodes[c].keys != []
    ensures v[c].slot[v[c].rPos - 1] == t.nodes[c].keys[|t.nodes[c].keys| - 1]
    ensures var d := v[c].child[v[c].rPos];
            if t.info[c].level == 0 then d == 0
            else d != 0 && d in t.nodes && d != t.root && t.info[d].hi == b && t.info[d].level < t.info[c].level
  {
    assert PageHeld(v, t, c) && NodeOk(t, c) && SizeOk(t, c);
    var l := |t.nodes[c].keys|;
    assert v[c].slot[v[c].lPos + (l - 1)] == t.nodes[c].keys[l - 1];
    if t.info[c].level > 0 {
      assert KidOk(t, c, l);
      assert v[c].child[v[c].lPos + l] == t.nodes[c].kids[l];
    }
  }

  lemma Relocated(v: Pages, w: Pages, t: Tree, p: nat, j: nat, pos: nat, s: Slot) returns (t': Tree)
    requires Order(t) && Coupled(v, t) && Sized(t) && p in t.nodes && j < |t.nodes[p].keys| && s.key == t.nodes[p].keys[j].key
    requires pos == v[p].lPos + j && pos < |v[p].slot| && w == WithSlot(v, p, pos, s)
    ensures Order(t') && Coupled(w, t') && Sized(t') && t'.root == t.root
    ensures forall x {:trigger Has(t', x)} {:trigger Has(t, x)} :: Has(t', x) <==> x == s || (x != t.nodes[p].keys[j] && Has(t, x))
  {
    t' := ResetTree(t, p, j, s);
    ResetOrder(t, p, j, s);
    forall x {:trigger Has(t', x)} ensures Has(t', x) <==> x == s || (x != t.nodes[p].keys[j] && Has(t, x)) { ResetHas(t, p, j, s, x); }
    forall c {:trigger SizeOk(t', c)} | c in t'.nodes ensures SizeOk(t', c) { assert SizeOk(t, c); }
    forall c {:trigger PageHeld(w, t', c)} | c in t'.nodes ensures PageHeld(w, t', c) {
      assert PageHeld(v, t, c);
      if c == p { SlotReset(v, w, t, t', p, j, pos, s); } else { assert w[c] == v[c]; }
    }
  }

  lemma SlotReset(v: Pages, w: Pages, t: Tree, t': Tree, p: nat, j: nat, pos: nat, s: Slot)
    requires PageHeld(v, t, p) && j < |t.nodes[p].keys| && pos == v[p].lPos + j && pos < |v[p].slot| && w == WithSlot(v, p, pos, s)
    requires p in t'.nodes && t'.nodes[p] == t.nodes[p].(keys := t.nodes[p].keys[j := s])
    requires forall i :: 0 <= i < |t.nodes[p].kids| ==> t.nodes[p].kids[i] in v
    ensures PageHeld(w, t', p)
  {
  }

  class PageTree {
    const pages: IndexCache
    var root: nat
    ghost var t: Tree

    /** An empty index: one leaf without keys. */
    constructor (pool: PageAllocator)
      requires pool.Valid()
      modifies pool
      ensures Valid() && fresh(pages) && pages.pool == pool
      ensures forall r :: !Has(t, r)
      ensures pool.used - pages.view.Keys == old(pool.used)
    {
      var c := new IndexCache(pool);
      pages := c;
      var p := c.Alloc();
      root := p;
      t := Tree(map[p := Node([], [], 0)], map[p := Info(0, NegInf, PosInf)], p);
      new;
      assert NodeOk(t, p) && SizeOk(t, p) && PageHeld(pages.view, t, p);
      forall r ensures !Has(t, r) { if Has(t, r) { var c, i := AtOf(t, r); } }
    }

    ghost predicate Live()
      reads this, pages, pages.pool
    {
      pages.pool.Valid()
    }

    ghost predicate Valid()
      reads this, pages, pages.pool
    {
      var good := Good(pages.view, t, root, pages.pool.used);
      Live() && good
    }

    method OpenRight(q: nat, pos: nat, ghost n: Node, ghost j: nat)
      requires n.kids != [] && Shows(pages.view, q, n, j) && pages.view[q].rPos < INDEXCOUNT
      requires pos == pages.view[q].lPos + j
      modifies pages`view
      ensures Gap(old(pages.view), pages.view, q, n, j) && pages.view[q].lPos == old(pages.view)[q].lPos
    {
      ghost var v := pages.view;
      var l, r := pages.view[q].lPos, pages.view[q].rPos;
      var pos1, r1 := pos + 1, r + 1;
      GapRight(v, q, n, j, l, r, pos, pos1, r1);
      CopyRightUp(pages, q, pos, r, pos1, r1, 1);
      pages.SetWindow(q, l, r1);
    }

    method OpenLeft(q: nat, pos: nat, ghost n: Node, ghost j: nat)
      requires n.kids != [] && Shows(pages.view, q, n, j) && pages.view[q].lPos > 0
      requires pos == pages.view[q].lPos + j
      modifies pages`view
      ensures Gap(old(pages.view), pages.view, q, n, j) && pages.view[q].lPos == old(pages.view)[q].lPos - 1
    {
      ghost var v := pages.view;
      var l, r := pages.view[q].lPos, pages.view[q].rPos;
      var l1: nat := l - 1;
      GapLeft(v, q, n, j, l, r, pos, l1);
      CopyLeftDown(pages, q, l, pos);
      pages.SetWindow(q, l1, r);
    }

    /** Moves the entries on one side of pos out of the way, to the right when the page is
        flush left or pos is in its right half, else to the left. */
    method OpenEntry(q: nat, pos: nat, ghost n: Node, ghost j: nat) returns (at: nat)
      requires n.kids != [] && |n.keys| < INDEXCOUNT
      requires Shows(pages.view, q, n, j) && pos == pages.view[q].lPos + j
      modifies pages`view
      ensures Gap(old(pages.view), pages.view, q, n, j) && at == pages.view[q].lPos + j
    {
      if pages.view[q].lPos == 0 || ((pages.view[q].rPos + pages.view[q].lPos) / 2 < pos && pages.view[q].rPos < INDEXCOUNT) {
        OpenRight(q, pos, n, j);
        at := pos;
      } else {
        OpenLeft(q, pos, n, j);
        at := pos - 1;
      }
    }

    method FillEntry(q: nat, at: nat, at1: nat, mid: Slot, lc: nat, rc: nat)
      requires q in pages.view && at < INDEXCOUNT && at1 == at + 1 && Sizes(pages.view[q])
      requires lc in pages.view && rc in pages.view
      modifies pages`view
      ensures pages.view == Filled(old(pages.view), q, at, at1, mid, lc, rc)
    {
      pages.SetSlot(q, at, mid);
      pages.SetChild(q, at, lc);
      pages.SetChild(q, at1, rc);
      pages.SetParent(lc, q, at);
      pages.SetParent(rc, q, at1);
    }

    method PlaceEntry(q: nat, pos: nat, mid: Slot, lc: nat, rc: nat, ghost n: Node, ghost j: nat)
      requires Order(t) && Others(pages.view, t, q)
      requires q in t.nodes && |n.kids| == |n.keys| + 1 && j <= |n.keys| < INDEXCOUNT
      requires t.nodes[q] == Spliced(n, j, mid, lc, rc)
      requires Shows(pages.view, q, n, j) && pos == pages.view[q].lPos + j
      requires lc in t.nodes && rc in t.nodes && lc != q && rc != q && lc != rc
      modifies pages`view
      ensures Coupled(pages.view, t)
    {
      ghost var v := pages.view;
      var at := OpenEntry(q, pos, n, j);
      var at1 := at + 1;
      ghost var w := pages.view;
      assert NodeOk(t, q) && FillPre(v, w, t, q, n, j, at, at1, mid, lc, rc);
      FillEntry(q, at, at1, mid, lc, rc);
      FillGap(v, w, t, q, n, j, at, at1, mid, lc, rc);
    }

    /** Puts mid into page q between the children lc and rc, where lc was before. */
    method InsertInternal(q: nat, pos: nat, mid: Slot, lc: nat, rc: nat, ghost n: Node, ghost j: nat, ghost h: nat)
      requires Live() && root == t.root && pages.view.Keys <= pages.pool.used
      requires InsertPre(pages.view, t, q, pos, mid, lc, rc, n, j, h)
      modifies this`root, this`t, pages`view, pages.pool
      ensures Valid()
      ensures SameKeys(old(t), t)
      ensures pages.pool.used - pages.view.Keys == old(pages.pool.used - pages.view.Keys)
      decreases h, 1
    {
      PlaceEntry(q, pos, mid, lc, rc, n, j);
      assert pages.view.Keys == old(pages.view.Keys);
      assert PageHeld(pages.view, t, q);
      if pages.view[q].rPos - pages.view[q].lPos == INDEXCOUNT {
        Split(q, h);
      } else {
        GoodAgain(pages.view, t, root, pages.pool.used, q);
      }
    }

    /** Hands the entries of the full page p behind its middle key to the empty page s. */
    method CutPage(p: nat, s: nat)
      requires s in pages.view && p != s && pages.view[s] == EmptyPage()
      requires Tail(pages.view, p, s, INDEXMINL)
      modifies pages`view
      ensures Cut(old(pages.view), pages.view, p, s, INDEXMINL, INDEXMINR)
    {
      ghost var v := pages.view;
      var m1, n1 := INDEXMINL + 1, INDEXMINR + 1;
      HandOver(v, p, s, INDEXMINL, INDEXMINR, m1);
      pages.SetWindow(s, 0, INDEXMINR);
      pages.SetWindow(p, 0, INDEXMINL);
      pages.CopyBlock(p, m1, s, 0, INDEXMINR);
      ghost var w := pages.view;
      assert Handed(v, w, p, s, INDEXMINL, INDEXMINR);
      assert w[s].child[0] == v[p].child[m1];
      if pages.view[s].child[0] != 0 {
        TailKids(v, w, p, s, INDEXMINL, INDEXMINR, n1);
        Adopt(pages, s, 0, n1);
      }
      TailTold(v, w, pages.view, p, s, INDEXMINL, INDEXMINR, n1);
    }

    method SetRoot(p: nat, ghost t': Tree)
      requires Live()
      modifies this`root, this`t
      ensures Live() && root == p && t == t'
    {
      root, t := p, t';
    }

    /** Puts an empty page above the root. */
    method AllocRoot() returns (q: nat)
      requires Live() && t.root in t.nodes && t.root in t.info && pages.view.Keys <= pages.pool.used
      modifies this`root, this`t, pages`view, pages.pool
      ensures Live() && q != 0 && q !in old(pages.pool.used)
      ensures root == q && t == GrowTree(old(t), q) && pages.view == old(pages.view)[q := EmptyPage()]
      ensures pages.pool.used == old(pages.pool.used) + {q}
    {
      ghost var t0 := t;
      q := pages.Alloc();
      SetRoot(q, GrowTree(t0, q));
    }

    /** Makes sure p has a parent, and finds the slot p sits in there. */
    method ParentOf(p: nat) returns (q: nat, pos: nat)
      requires Live() && root == t.root && pages.view.Keys <= pages.pool.used
      requires Order(t) && Coupled(pages.view, t) && p in t.nodes
      modifies this`root, this`t, pages`view, pages.pool
      ensures Live() && root == t.root && pages.view.Keys <= pages.pool.used && pages.pool.used - pages.view.Keys == old(pages.pool.used - pages.view.Keys)
      ensures if p == old(t).root then q != 0 && q !in old(t).nodes else q == old(pages.view)[p].parentIndex
      ensures pos == old(pages.view)[p].parentPos
      ensures pages.view == RaisedView(old(pages.view), old(t), p, q) && t == RaisedTree(old(t), p, q)
    {
      ghost var v, u := pages.view, pages.pool.used;
      ParentOrRoot(v, t, p);
      q := pages.view[p].parentIndex;
      pos := pages.view[p].parentPos;
      if q == 0 {
        q := AllocRoot();
        TakenByIndex(u, v.Keys, q);
        assert pages.view.Keys == v.Keys + {q};
      }
    }

    /** The parent of p, the slot p sits in there, and a new page to become its neighbour. */
    method NewSibling(p: nat) returns (q: nat, pos: nat, s: nat)
      requires Live() && root == t.root && pages.view.Keys <= pages.pool.used
      requires Order(t) && Coupled(pages.view, t) && p in t.nodes
      modifies this`root, this`t, pages`view, pages.pool
      ensures Live() && root == t.root && pages.view.Keys <= pages.pool.used
      ensures pages.pool.used - pages.view.Keys == old(pages.pool.used - pages.view.Keys)
      ensures if p == old(t).root then q != 0 && q !in old(t).nodes else q == old(pages.view)[p].parentIndex
      ensures pos == old(pages.view)[p].parentPos && t == RaisedTree(old(t), p, q)
      ensures s != 0 && s !in RaisedView(old(pages.view), old(t), p, q)
      ensures pages.view == RaisedView(old(pages.view), old(t), p, q)[s := EmptyPage()]
    {
      q, pos := ParentOf(p);
      ghost var v, u := pages.view, pages.pool.used;
      s := pages.Alloc();
      TakenByIndex(u, v.Keys, s);
      assert pages.view.Keys == v.Keys + {s};
    }

    /** Gives page p a new right neighbour s with the entries behind its middle key. */
    method SplitOff(p: nat, ghost h: nat) returns (mid: Slot, q: nat, pos: nat, s: nat, ghost n: Node, ghost j: nat, ghost h1: nat)
      requires Live() && Rooted(t, pages.view, root, pages.pool.used) && Coupled(pages.view, t)
      requires p in t.nodes && |t.nodes[p].keys| == INDEXCOUNT && SizedBut(t, p)
      requires h > t.info[t.root].level - t.info[p].level
      modifies this`root, this`t, pages`view, pages.pool
      ensures Live() && root == t.root && pages.view.Keys <= pages.pool.used && h1 < h
      ensures InsertPre(pages.view, t, q, pos, mid, p, s, n, j, h1)
      ensures SameKeys(old(t), t)
      ensures pages.pool.used - pages.view.Keys == old(pages.pool.used - pages.view.Keys)
    {
      ghost var v0, t0 := pages.view, t;
      assert PageHeld(v0, t0, p);
      mid := pages.view[p].slot[INDEXMINL];
      assert mid == t0.nodes[p].keys[INDEXMINL];
      q, pos, s := NewSibling(p);
      assert p != t0.root ==> UpOk(t0, p);
      h1 := h - 1;
      j := RaisedToCut(v0, t0, p, q, s, pos);
      CutPage(p, s);
      ghost var t';
      n, t' := RaisedAndCut(v0, pages.view, t0, p, q, s, j, pos, h1);
      SetRoot(root, t');
    }

    /** Splits the full page p and hands its middle key to the parent. */
    method Split(p: nat, ghost h: nat)
      requires Live() && Rooted(t, pages.view, root, pages.pool.used) && Coupled(pages.view, t)
      requires p in t.nodes && |t.nodes[p].keys| == INDEXCOUNT && SizedBut(t, p)
      requires h > t.info[t.root].level - t.info[p].level
      modifies this`root, this`t, pages`view, pages.pool
      ensures Valid()
      ensures SameKeys(old(t), t)
      ensures pages.pool.used - pages.view.Keys == old(pages.pool.used - pages.view.Keys)
      decreases h, 0
    {
      var mid, q, pos, s;
      ghost var n, j, h1;
      mid, q, pos, s, n, j, h1 := SplitOff(p, h);
      InsertInternal(q, pos, mid, p, s, n, j, h1);
    }

    method OpenLeaf(p: nat, pos: nat, ghost n: Node, ghost j: nat) returns (at: nat)
      requires LeafShows(pages.view, p, n) && j <= |n.keys| < INDEXCOUNT && pos == pages.view[p].lPos + j
      modifies pages`view
      ensures OnlyLeaf(old(pages.view), pages.view, p) && GapKeys(pages.view[p], n, j)
      ensures at == pages.view[p].lPos + j && pages.view[p].child == old(pages.view)[p].child
    {
      ghost var v := pages.view;
      var l, r := pages.view[p].lPos, pages.view[p].rPos;
      if l == 0 || ((r + l) / 2 < pos && r < INDEXCOUNT) {
        var r1 := r + 1;
        LeafGapRight(v, p, n, j, l, r, pos, r1);
        CopyKeysUp(pages, p, pos, r, 1);
        pages.SetWindow(p, l, r1);
        at := pos;
      } else {
        var l1: nat := l - 1;
        LeafGapLeft(v, p, n, j, l, r, pos, l1);
        CopyKeysDown(pages, p, l, pos, 1);
        pages.SetWindow(p, l1, r);
        at := pos - 1;
      }
    }

    /** Writes key s, and no children, into entry at of the leaf p. */
    method PutKey(p: nat, at: nat, s: Slot)
      requires p in pages.view && Sizes(pages.view[p]) && at < INDEXCOUNT
      modifies pages`view
      ensures pages.view == WithChild(WithChild(WithSlot(old(pages.view), p, at, s), p, at, 0), p, at + 1, 0)
    {
      pages.SetSlot(p, at, s);
      pages.SetChild(p, at, 0);
      pages.SetChild(p, at + 1, 0);
    }

    method SplitIfFull(p: nat)
      requires Live() && Rooted(t, pages.view, root, pages.pool.used) && Coupled(pages.view, t)
      requires p in t.nodes && SizedBut(t, p) && |t.nodes[p].keys| <= INDEXCOUNT && (|t.nodes[p].keys| < INDEXCOUNT ==> SizeOk(t, p))
      modifies this`root, this`t, pages`view, pages.pool
      ensures Valid() && SameKeys(old(t), t)
      ensures pages.pool.used - pages.view.Keys == old(pages.pool.used - pages.view.Keys)
    {
      assert PageHeld(pages.view, t, p);
      if pages.view[p].rPos - pages.view[p].lPos == INDEXCOUNT {
        assert p != t.root ==> UpOk(t, p);
        Split(p, t.info[t.root].level + 1);
      } else {
        GoodAgain(pages.view, t, root, pages.pool.used, p);
      }
    }

    /** Puts s in front of entry pos of the leaf p, and splits the leaf when that fills it. */
    method InsertLeaf(p: nat, pos: nat, s: Slot, ghost j: nat)
      requires Valid() && Fits(t, p, j, s.key) && p in pages.view && pos == pages.view[p].lPos + j
      modifies this`root, this`t, pages`view, pages.pool
      ensures Valid() && OneMore(old(t), t, s)
      ensures pages.pool.used - pages.view.Keys == old(pages.pool.used - pages.view.Keys)
    {
      ghost var v, t0 := pages.view, t;
      ghost var n := t.nodes[p];
      assert SizeOk(t, p);
      LeafNode(v, t, p);
      var at := OpenLeaf(p, pos, n, j);
      ghost var w := pages.view;
      PutKey(p, at, s);
      LeafFilled(v, w, pages.view, p, n, j, at, s);
      ghost var t' := AddedToLeaf(v, pages.view, t0, p, j, s);
      SetRoot(root, t');
      SplitIfFull(p);
    }

    /** Puts s into an empty index: the root's window opens in the middle of the page. */
    method InsertFirst(s: Slot)
      requires Valid() && t.info[root].level == 0 && t.nodes[root].keys == []
      modifies this`root, this`t, pages`view, pages.pool
      ensures Valid() && OneMore(old(t), t, s)
      ensures pages.pool.used - pages.view.Keys == old(pages.pool.used - pages.view.Keys)
    {
      ghost var v, t0, n := pages.view, t, t.nodes[root];
      assert NodeOk(t0, root);
      LeafNode(v, t0, root);
      var l, r := INDEXMINR, INDEXMINR + 1;
      pages.SetWindow(root, l, r);
      ghost var w := pages.view;
      PutKey(root, l, s);
      LeafFilled(v, w, pages.view, root, n, 0, l, s);
      ghost var t' := AddedToLeaf(v, pages.view, t0, root, 0, s);
      SetRoot(root, t');
      SplitIfFull(root);
    }

    // ----------------------------------------------------------- lending and merging

    /** The left page p takes the parent's key at pos and the first child of s, if any; the
        parent takes the first key of s. */
    method LendRight(p: nat, s: nat, q: nat, pos: nat) returns (ghost r: nat, ghost r1: nat, ghost x: nat)
      requires p in pages.view && s in pages.view && q in pages.view && p != s && p != q && s != q
      requires Sizes(pages.view[p]) && Sizes(pages.view[s]) && Sizes(pages.view[q])
      requires pages.view[p].rPos < INDEXCOUNT && pos < INDEXCOUNT && pages.view[s].lPos < INDEXCOUNT
      requires var x := pages.view[s].child[pages.view[s].lPos]; x != 0 ==> x in pages.view && x != p && x != s && x != q
      modifies pages`view
      ensures LentRight(old(pages.view), pages.view, p, s, q, pos, r, r1, x)
      ensures x == old(pages.view)[s].child[old(pages.view)[s].lPos]
    {
      var tail, bgn := pages.view[p].rPos, pages.view[s].lPos;
      var tail1 := tail + 1;
      var kid := pages.view[s].child[bgn];
      r, r1, x := tail, tail1, kid;
      pages.SetSlot(p, tail, pages.view[q].slot[pos]);
      pages.SetSlot(q, pos, pages.view[s].slot[bgn]);
      if kid != 0 {
        pages.SetChild(p, tail1, kid);
        pages.SetParent(kid, p, tail1);
      }
      pages.SetWindow(p, pages.view[p].lPos, tail1);
      pages.SetWindow(s, bgn + 1, pages.view[s].rPos);
    }

    /** The right page s takes the parent's key at pos and the last child of p, if any; the
        parent takes the last key of p. */
    method LendLeft(p: nat, s: nat, q: nat, pos: nat) returns (ghost l1: nat, ghost x: nat)
      requires p in pages.view && s in pages.view && q in pages.view && p != s && p != q && s != q
      requires Sizes(pages.view[p]) && Sizes(pages.view[s]) && Sizes(pages.view[q])
      requires 0 < pages.view[s].lPos <= INDEXCOUNT && pos < INDEXCOUNT && 0 < pages.view[p].rPos <= INDEXCOUNT
      requires var x := pages.view[p].child[pages.view[p].rPos]; x != 0 ==> x in pages.view && x != p && x != s && x != q
      modifies pages`view
      ensures LentLeft(old(pages.view), pages.view, p, s, q, pos, l1, x)
      ensures x == old(pages.view)[p].child[old(pages.view)[p].rPos]
    {
      var bgn: nat, tail: nat := pages.view[s].lPos - 1, pages.view[p].rPos - 1;
      var kid := pages.view[p].child[pages.view[p].rPos];
      l1, x := bgn, kid;
      pages.SetWindow(s, bgn, pages.view[s].rPos);
      pages.SetWindow(p, pages.view[p].lPos, tail);
      pages.SetSlot(s, bgn, pages.view[q].slot[pos]);
      pages.SetSlot(q, pos, pages.view[p].slot[tail]);
      if kid != 0 {
        pages.SetChild(s, bgn, kid);
        pages.SetParent(kid, s, bgn);
      }
    }

    /** Moves the window of p down to entry `to`, children's links along. */
    method SlideDown(p: nat, to: nat)
      requires Order(t) && Coupled(pages.view, t) && p in t.nodes && to < pages.view[p].lPos
      modifies pages`view
      ensures Coupled(pages.view, t) && pages.view[p].lPos == to
      ensures forall c {:trigger pages.view[c]} :: c in pages.view && c != p ==> c in old(pages.view) && SameBody(pages.view[c], old(pages.view)[c])
    {
      ghost var v := pages.view;
      assert PageHeld(v, t, p) && NodeOk(t, p);
      var l, r := pages.view[p].lPos, pages.view[p].rPos;
      var gap: int := l - to;
      var d: int := -gap;
      var r2: nat := r - gap;
      assert t.nodes[p].kids != [] ==> v[p].child[v[p].lPos + 0] == t.nodes[p].kids[0] && KidOk(t, p, 0);
      if pages.view[p].child[l] != 0 {
        var r1 := r + 1;
        SlidKids(v, t, p, l, r, r1);
        SlideLeft(pages, p, l, r, r1, d);
        pages.SetWindow(p, to, r2);
        SlideCoupled(v, pages.view, t, p, l, r, r1, d, to, r2);
      } else {
        CopyKeysDown(pages, p, l, r, gap);
        pages.SetWindow(p, to, r2);
        SlideLeafCoupled(v, pages.view, t, p, l, r, d, to, r2);
      }
    }

    /** Moves the window of p, flush left, up to entry d, children's links along. */
    method SlideUp(p: nat, d: nat)
      requires Order(t) && Coupled(pages.view, t) && p in t.nodes && pages.view[p].lPos == 0
      requires 0 < d && |t.nodes[p].keys| + d <= INDEXCOUNT
      modifies pages`view
      ensures Coupled(pages.view, t) && pages.view[p].lPos == d
      ensures forall c {:trigger pages.view[c]} :: c in pages.view && c != p ==> c in old(pages.view) && SameBody(pages.view[c], old(pages.view)[c])
    {
      ghost var v := pages.view;
      assert PageHeld(v, t, p) && NodeOk(t, p);
      var l, r := pages.view[p].lPos, pages.view[p].rPos;
      var r2 := r + d;
      assert t.nodes[p].kids != [] ==> v[p].child[v[p].lPos + 0] == t.nodes[p].kids[0] && KidOk(t, p, 0);
      if pages.view[p].child[l] != 0 {
        var l1, r1 := l + 1, r + 1;
        SlidKids(v, t, p, l, r, r1);
        SlideRight(pages, p, l, r, l1, r1, d);
        pages.SetWindow(p, d, r2);
        SlideCoupled(v, pages.view, t, p, l, r, r1, d, d, r2);
      } else {
        CopyKeysUp(pages, p, l, r, d);
        pages.SetWindow(p, d, r2);
        SlideLeafCoupled(v, pages.view, t, p, l, r, d, d, r2);
      }
    }

    /** Page p takes the parent's key and all entries of its neighbour s, which is freed. */
    method TakeOver(p: nat, s: nat, q: nat, pos: nat, ghost x: Node, ghost y: Node)
      returns (ghost w: Pages, ghost r: nat, ghost r1: nat, ghost n: nat, ghost b: nat)
      requires pages.pool.Valid() && pages.view.Keys <= pages.pool.used
      requires p != s && p != q && s != q && q in pages.view && Sizes(pages.view[q]) && pos < INDEXCOUNT
      requires Holds(pages.view, p, x) && Holds(pages.view, s, y) && Families(x, y, p, s, q)
      requires pages.view[p].rPos + 1 + |y.keys| <= INDEXCOUNT
      modifies pages`view, pages.pool
      ensures pages.pool.Valid() && pages.pool.used == old(pages.pool.used) - {s}
      ensures Absorbed(old(pages.view), w, pages.view, p, s, q, pos, r, r1, n, b)
    {
      ghost var v := pages.view;
      var tail, bgn := pages.view[p].rPos, pages.view[s].lPos;
      var size: nat := pages.view[s].rPos - bgn;
      var l, tail1 := pages.view[p].lPos, tail + 1;
      var end := tail1 + size;
      r, r1, n := tail, tail1, size;
      PoolView(v, p, s, q, pos, tail, tail1, l, bgn, size, end);
      pages.SetSlot(p, tail, pages.view[q].slot[pos]);
      pages.CopyBlock(s, bgn, p, tail1, size);
      pages.SetWindow(p, l, end);
      w := pages.view;
      var end1 := end + 1;
      b := end1;
      PooledKids(v, w, p, s, q, pos, r, r1, n, b, x, y);
      pages.Free(s);
      if pages.view[p].child[tail1] != 0 {
        Adopt(pages, p, tail1, end1);
      }
    }

    /** Drops key pos of page q and the child behind it, moving the shorter side. */
    method CloseEntry(q: nat, pos: nat, ghost n: Node, ghost j: nat)
      requires HoldsBut(pages.view, q, n, j + 1) && pos == pages.view[q].lPos + j
      modifies pages`view
      ensures Holds(pages.view, q, Closed(n, j)) && GapRest(old(pages.view), pages.view, q, n, j + 1)
    {
      ghost var v := pages.view;
      var l, r := pages.view[q].lPos, pages.view[q].rPos;
      var pos1 := pos + 1;
      if (r + l) / 2 < pos {
        var pos2, r1 := pos1 + 1, r + 1;
        var r0: nat := r - 1;
        ButKids(v, q, n, j + 1, j + 2, |n.kids|, pos2, r1);
        CopyRightDown(pages, q, pos1, r, pos2, r1);
        pages.SetWindow(q, l, r0);
        CloseLeft(v, pages.view, q, n, j, l, r, pos1, pos2, r1, r0);
      } else {
        var l1 := l + 1;
        ButKids(v, q, n, j + 1, 0, j + 1, l, pos1);
        SlideRight(pages, q, l, pos, l1, pos1, 1);
        pages.SetWindow(q, l1, r);
        CloseRight(v, pages.view, q, n, j, l, r, pos, pos1, l1);
      }
    }

    /** The left page p, with room at its end, borrows from s. */
    method TakeRight(p: nat, s: nat, q: nat, pos: nat, ghost j: nat, ghost m: nat)
      requires Live() && Rooted(t, pages.view, root, pages.pool.used) && Neighbours(pages.view, t, p, s, q, j, pos)
      requires SizedBut(t, p) && |t.nodes[p].keys| + 1 == INDEXMINR && |t.nodes[s].keys| > INDEXMINR
      requires p in pages.view && pages.view[p].rPos < INDEXCOUNT && m == |t.nodes[p].keys| + 1
      modifies this`root, this`t, pages`view
      ensures Valid() && SameKeys(old(t), t) && pages.view.Keys == old(pages.view.Keys)
    {
      ghost var v, t0 := pages.view, t;
      TakeRightReady(v, t, p, s, q, j, pos);
      ghost var r, r1, x := LendRight(p, s, q, pos);
      ghost var t' := TakenRight(v, pages.view, t0, root, pages.pool.used, p, s, q, j, pos, m, r, r1, x);
      SetRoot(root, t');
    }

    /** The short page p borrows from its right neighbour s; a page at the right end of its
        entries slides to the middle first. */
    method BorrowRight(p: nat, s: nat, q: nat, pos: nat, ghost j: nat)
      requires Live() && Rooted(t, pages.view, root, pages.pool.used) && Neighbours(pages.view, t, p, s, q, j, pos)
      requires SizedBut(t, p) && |t.nodes[p].keys| + 1 == INDEXMINR && |t.nodes[s].keys| > INDEXMINR
      modifies this`root, this`t, pages`view
      ensures Valid() && SameKeys(old(t), t) && pages.view.Keys == old(pages.view.Keys)
    {
      assert PageHeld(pages.view, t, p);
      NeighboursLend(pages.view, t, p, s, q, j, pos);
      if pages.view[p].rPos == INDEXCOUNT {
        SlideDown(p, INDEXSLIPL);
        assert PageHeld(pages.view, t, p);
      }
      assert SameBody(pages.view[q], old(pages.view)[q]);
      TakeRight(p, s, q, pos, j, |t.nodes[p].keys| + 1);
    }

    /** The right page s, with room in front, borrows from p. */
    method TakeLeft(p: nat, s: nat, q: nat, pos: nat, ghost j: nat, ghost m: nat)
      requires Live() && Rooted(t, pages.view, root, pages.pool.used) && Neighbours(pages.view, t, p, s, q, j, pos)
      requires SizedBut(t, s) && |t.nodes[s].keys| + 1 == INDEXMINR && |t.nodes[p].keys| > INDEXMINR
      requires s in pages.view && pages.view[s].lPos > 0 && m + 1 == |t.nodes[p].keys|
      modifies this`root, this`t, pages`view
      ensures Valid() && SameKeys(old(t), t) && pages.view.Keys == old(pages.view.Keys)
    {
      ghost var v, t0 := pages.view, t;
      TakeLeftReady(v, t, p, s, q, j, pos);
      ghost var l1, x := LendLeft(p, s, q, pos);
      ghost var t' := TakenLeft(v, pages.view, t0, root, pages.pool.used, p, s, q, j, pos, m, l1, x);
      SetRoot(root, t');
    }

    /** The short page s borrows from its left neighbour p; a page flush left slides to the
        middle first. */
    method BorrowLeft(p: nat, s: nat, q: nat, pos: nat, ghost j: nat)
      requires Live() && Rooted(t, pages.view, root, pages.pool.used) && Neighbours(pages.view, t, p, s, q, j, pos)
      requires SizedBut(t, s) && |t.nodes[s].keys| + 1 == INDEXMINR && |t.nodes[p].keys| > INDEXMINR
      modifies this`root, this`t, pages`view
      ensures Valid() && SameKeys(old(t), t) && pages.view.Keys == old(pages.view.Keys)
    {
      assert PageHeld(pages.view, t, s);
      NeighboursLend(pages.view, t, p, s, q, j, pos);
      if pages.view[s].lPos == 0 {
        SlideUp(s, INDEXSLIPR);
      }
      assert SameBody(pages.view[q], old(pages.view)[q]);
      TakeLeft(p, s, q, pos, j, |t.nodes[p].keys| - 1);
    }

    /** The neighbours p and s, with room for both behind p's entries, become one page. */
    method MergeNow(p: nat, s: nat, q: nat, pos: nat, ghost j: nat)
      requires Live() && Rooted(t, pages.view, root, pages.pool.used) && Neighbours(pages.view, t, p, s, q, j, pos)
      requires p in pages.view && pages.view[p].rPos + 1 + |t.nodes[s].keys| <= INDEXCOUNT
      modifies this`root, this`t, pages`view, pages.pool
      ensures Live() && Rooted(t, pages.view, root, pages.pool.used) && Coupled(pages.view, t)
      ensures MergePre(old(t), p, s, q, j) && t == MergeTree(old(t), p, s, q, j) && SameKeys(old(t), t)
      ensures pages.pool.used - pages.view.Keys == old(pages.pool.used - pages.view.Keys)
    {
      ghost var v, t0, u0 := pages.view, t, pages.pool.used;
      MergeStart(v, t0, p, s, q, j, pos);
      ghost var w, r, r1, n, b := TakeOver(p, s, q, pos, t0.nodes[p], t0.nodes[s]);
      ghost var u := pages.view;
      MergeMiddle(v, w, u, t0, p, s, q, j, pos, r, r1, n, b);
      CloseEntry(q, pos, t0.nodes[q], j);
      MergeEnd(u, pages.view, t0, p, s, q, j);
      FreedByIndex(u0, v.Keys, s);
      SetRoot(root, MergeTree(t0, p, s, q, j));
    }

    /** Slides p to the front of its page when its entries and those of s do not fit behind it. */
    method MakeRoom(p: nat, s: nat, q: nat, pos: nat, ghost j: nat)
      requires Neighbours(pages.view, t, p, s, q, j, pos) && s in pages.view
      requires |t.nodes[p].keys| + 1 + |t.nodes[s].keys| < INDEXCOUNT
      modifies pages`view
      ensures Neighbours(pages.view, t, p, s, q, j, pos) && pages.view.Keys == old(pages.view.Keys)
      ensures p in pages.view && pages.view[p].rPos + 1 + |t.nodes[s].keys| <= INDEXCOUNT
    {
      assert PageHeld(pages.view, t, p) && PageHeld(pages.view, t, s);
      NeighboursLend(pages.view, t, p, s, q, j, pos);
      if INDEXCOUNT < pages.view[p].rPos + (pages.view[s].rPos - pages.view[s].lPos) + 1 {
        SlideDown(p, 0);
        assert PageHeld(pages.view, t, p) && SameBody(pages.view[q], old(pages.view)[q]);
      }
    }

    /** The root q has no key left: its only child p takes its place. */
    method Collapse(p: nat, q: nat)
      requires Live() && Rooted(t, pages.view, root, pages.pool.used) && Coupled(pages.view, t)
      requires q == t.root && t.nodes[q].keys == [] && t.info[q].level > 0 && SizedBut(t, q)
      requires p in t.nodes && p != q && |t.nodes[q].kids| == 1 && t.nodes[q].kids[0] == p
      modifies this`root, this`t, pages`view, pages.pool
      ensures Valid() && SameKeys(old(t), t)
      ensures pages.pool.used - pages.view.Keys == old(pages.pool.used - pages.view.Keys)
    {
      ghost var v, t0, u := pages.view, t, pages.pool.used;
      CollapseCoupled(v, t0, p);
      FreedByIndex(u, v.Keys, q);
      pages.SetParent(p, 0, 0);
      SetRoot(p, CollapseTree(t0));
      pages.Free(q);
    }

    /** Merges the neighbours p and s, and says whether the parent is now short. */
    method MergeInto(p: nat, s: nat, q: nat, pos: nat, ghost j: nat, ghost short: nat)
      requires Live() && Rooted(t, pages.view, root, pages.pool.used) && Neighbours(pages.view, t, p, s, q, j, pos)
      requires SizedBut(t, short) && (short == p || short == s)
      requires |t.nodes[p].keys| + |t.nodes[s].keys| + 1 == 2 * INDEXMINR
      modifies this`root, this`t, pages`view, pages.pool
      ensures Live() && Rooted(t, pages.view, root, pages.pool.used) && Coupled(pages.view, t)
      ensures SameKeys(old(t), t) && pages.pool.used - pages.view.Keys == old(pages.pool.used - pages.view.Keys)
      ensures q in t.nodes && p in t.nodes && p != q && q in t.info && j < |t.nodes[q].kids| && t.nodes[q].kids[j] == p
      ensures |t.nodes[q].kids| == |t.nodes[q].keys| + 1
      ensures SizedBut(t, q) && t.root == old(t.root) && t.info[q] == old(t).info[q] && t.info[t.root] == old(t).info[old(t).root]
      ensures if q == t.root then |t.nodes[q].keys| < INDEXCOUNT - 1 else INDEXMINR - 1 <= |t.nodes[q].keys| < INDEXCOUNT - 1
    {
      ghost var t0 := t;
      assert PageHeld(pages.view, t, s);
      NeighboursLend(pages.view, t, p, s, q, j, pos);
      MergeSizes(t0, p, s, q, j, short);
      MakeRoom(p, s, q, pos, j);
      MergeNow(p, s, q, pos, j);
    }

    /** Merges s into p.  The parent may run short in turn; a root without keys is dropped. */
    method MergeSibling(p: nat, s: nat, q: nat, pos: nat, ghost j: nat, ghost short: nat, ghost h: nat)
      requires Live() && Rooted(t, pages.view, root, pages.pool.used) && Neighbours(pages.view, t, p, s, q, j, pos)
      requires SizedBut(t, short) && (short == p || short == s)
      requires |t.nodes[p].keys| + |t.nodes[s].keys| + 1 == 2 * INDEXMINR
      requires h > t.info[t.root].level - t.info[q].level && t.info[q].level > 0
      modifies this`root, this`t, pages`view, pages.pool
      ensures Valid() && SameKeys(old(t), t)
      ensures pages.pool.used - pages.view.Keys == old(pages.pool.used - pages.view.Keys)
      decreases h, 1
    {
      MergeInto(p, s, q, pos, j, short);
      assert PageHeld(pages.view, t, q);
      ParentOrRoot(pages.view, t, q);
      if pages.view[q].rPos - pages.view[q].lPos >= INDEXMINR || (pages.view[q].parentIndex == 0 && pages.view[q].rPos > pages.view[q].lPos) {
        GoodAgain(pages.view, t, root, pages.pool.used, q);
      } else if pages.view[q].parentIndex != 0 {
        Rebalance(q, h);
      } else {
        Collapse(p, q);
      }
    }

    /** The short page p evens out with its neighbour: the left one when p is its parent's last
        child, else the right one. */
    method Rebalance(p: nat, ghost h: nat)
      requires Live() && Rooted(t, pages.view, root, pages.pool.used) && Short(pages.view, t, p)
      requires h > t.info[t.root].level - t.info[p].level
      modifies this`root, this`t, pages`view, pages.pool
      ensures Valid() && SameKeys(old(t), t)
      ensures pages.pool.used - pages.view.Keys == old(pages.pool.used - pages.view.Keys)
      decreases h, 0
    {
      ghost var a, j := ShortPlace(pages.view, t, p);
      var q := pages.view[p].parentIndex;
      var pos: nat := pages.view[p].parentPos;
      if pages.view[q].rPos == pos {
        Shrink(pages.view[q].child[pos - 1], p, q, pos - 1, j - 1, p, h - 1);
      } else {
        Shrink(p, pages.view[q].child[pos + 1], q, pos, j, p, h - 1);
      }
    }

    /** One of the neighbours p and s is short: it borrows from the other, or they merge. */
    method Shrink(p: nat, s: nat, q: nat, pos: nat, ghost j: nat, short: nat, ghost h: nat)
      requires Live() && Rooted(t, pages.view, root, pages.pool.used) && Neighbours(pages.view, t, p, s, q, j, pos)
      requires SizedBut(t, short) && (short == p || short == s) && |t.nodes[short].keys| + 1 == INDEXMINR
      requires h > t.info[t.root].level - t.info[q].level
      modifies this`root, this`t, pages`view, pages.pool
      ensures Valid() && SameKeys(old(t), t)
      ensures pages.pool.used - pages.view.Keys == old(pages.pool.used - pages.view.Keys)
      decreases h, 2
    {
      assert PageHeld(pages.view, t, p) && PageHeld(pages.view, t, s);
      NeighboursLend(pages.view, t, p, s, q, j, pos);
      assert (p != short ==> SizeOk(t, p)) && (s != short ==> SizeOk(t, s));
      if short == p && pages.view[s].rPos - pages.view[s].lPos > INDEXMINR {
        BorrowRight(p, s, q, pos, j);
      } else if short == s && pages.view[p].rPos - pages.view[p].lPos > INDEXMINR {
        BorrowLeft(p, s, q, pos, j);
      } else {
        MergeSibling(p, s, q, pos, j, short, h);
      }
    }

    // ----------------------------------------------------------- removing

    /** Drops entry pos of the leaf p, moving the shorter side. */
    method CloseLeaf(p: nat, pos: nat, ghost n: Node, ghost j: nat)
      requires LeafShows(pages.view, p, n) && j < |n.keys| && pos == pages.view[p].lPos + j
      modifies pages`view
      ensures OnlyLeaf(old(pages.view), pages.view, p) && LeafShows(pages.view, p, LeafWithout(n, j))
    {
      ghost var v := pages.view;
      var l, r := pages.view[p].lPos, pages.view[p].rPos;
      if (r + l) / 2 < pos {
        var pos1 := pos + 1;
        var r0: nat := r - 1;
        LeafCloseLeft(v, p, n, j, l, r, pos1, r0);
        CopyKeysDown(pages, p, pos1, r, 1);
        pages.SetWindow(p, l, r0);
      } else {
        var l1 := l + 1;
        LeafCloseRight(v, p, n, j, l, r, pos, l1);
        CopyKeysUp(pages, p, l, pos, 1);
        pages.SetWindow(p, l1, r);
      }
    }

    /** The end of every removal: a leaf other than the root that became too small evens out. */
    method Settle(p: nat)
      requires Live() && Rooted(t, pages.view, root, pages.pool.used) && Coupled(pages.view, t)
      requires p in t.nodes && t.info[p].level == 0 && SizedBut(t, p) && |t.nodes[p].keys| < INDEXCOUNT
      requires p != t.root ==> INDEXMINR <= |t.nodes[p].keys| + 1
      modifies this`root, this`t, pages`view, pages.pool
      ensures Valid() && SameKeys(old(t), t)
      ensures pages.pool.used - pages.view.Keys == old(pages.pool.used - pages.view.Keys)
    {
      assert PageHeld(pages.view, t, p);
      ParentOrRoot(pages.view, t, p);
      if pages.view[p].rPos - pages.view[p].lPos < INDEXMINR && pages.view[p].parentIndex != 0 {
        assert UpOk(t, p);
        Rebalance(p, t.info[t.root].level + 1);
      } else {
        GoodAgain(pages.view, t, root, pages.pool.used, p);
      }
    }

    method RemoveLeaf(p: nat, pos: nat, ghost j: nat)
      requires Valid() && p in t.nodes && t.info[p].level == 0 && p in pages.view
      requires j < |t.nodes[p].keys| && pos == pages.view[p].lPos + j
      modifies this`root, this`t, pages`view, pages.pool
      ensures Valid() && OneLess(old(t), t, old(t).nodes[p].keys[j])
      ensures pages.pool.used - pages.view.Keys == old(pages.pool.used - pages.view.Keys)
    {
      ghost var v, t0 := pages.view, t;
      LeafNode(v, t0, p);
      CloseLeaf(p, pos, t0.nodes[p], j);
      ghost var t' := DroppedFromLeaf(v, pages.view, t0, p, j);
      SetRoot(root, t');
      Settle(p);
    }

    /** The last leaf in front of entry pos of the internal page q. */
    method RightMost(q: nat, pos: nat, ghost j: nat) returns (p: nat)
      requires Valid() && q in t.nodes && t.info[q].level > 0 && q in pages.view
      requires j < |t.nodes[q].keys| && pos == pages.view[q].lPos + j
      ensures SwapPre(t, q, j, p) && p in pages.view && Sizes(pages.view[p]) && 0 < pages.view[p].rPos <= INDEXCOUNT
      ensures pages.view[p].rPos - 1 == pages.view[p].lPos + (|t.nodes[p].keys| - 1)
      ensures pages.view[p].slot[pages.view[p].rPos - 1] == t.nodes[p].keys[|t.nodes[p].keys| - 1]
    {
      assert PageHeld(pages.view, t, q) && NodeOk(t, q) && KidOk(t, q, j);
      assert pages.view[q].child[pages.view[q].lPos + j] == t.nodes[q].kids[j];
      p := pages.view[q].child[pos];
      ghost var b := At(t.nodes[q].keys[j].key);
      RightEdge(pages.view, t, p, b);
      while pages.view[p].child[pages.view[p].rPos] != 0
        invariant p in t.nodes && p != t.root && t.info[p].hi == b && t.info[p].level < t.info[q].level && p in pages.view
        invariant Sizes(pages.view[p]) && pages.view[p].rPos <= INDEXCOUNT
        decreases t.info[p].level
      {
        RightEdge(pages.view, t, p, b);
        p := pages.view[p].child[pages.view[p].rPos];
        RightEdge(pages.view, t, p, b);
      }
      RightEdge(pages.view, t, p, b);
      assert NodeOk(t, p);
    }

    method RemoveInternal(q: nat, pos: nat, ghost j: nat)
      requires Valid() && q in t.nodes && t.info[q].level > 0 && q in pages.view
      requires j < |t.nodes[q].keys| && pos == pages.view[q].lPos + j
      modifies this`root, this`t, pages`view, pages.pool
      ensures Valid() && OneLess(old(t), t, old(t).nodes[q].keys[j])
      ensures pages.pool.used - pages.view.Keys == old(pages.pool.used - pages.view.Keys)
    {
      ghost var v, t0 := pages.view, t;
      var p := RightMost(q, pos, j);
      KeysShown(v, t0, q);
      LeafNode(v, t0, p);
      var last: nat := pages.view[p].rPos - 1;
      var s := pages.view[p].slot[last];
      pages.SetSlot(q, pos, s);
      CloseLeaf(p, last, t0.nodes[p], |t0.nodes[p].keys| - 1);
      ghost var t' := SwappedOut(v, pages.view, t0, q, j, p, pos, s);
      SetRoot(root, t');
      Settle(p);
    }

    /** Entry pos of page p gets the record of s, whose key it has. */
    method Relocate(p: nat, pos: nat, s: Slot, ghost j: nat)
      requires Valid() && p in t.nodes && p in pages.view && j < |t.nodes[p].keys| && pos == pages.view[p].lPos + j
      requires s.key == t.nodes[p].keys[j].key
      modifies this`root, this`t, pages`view
      ensures Valid() && pages.view.Keys == old(pages.view.Keys)
      ensures forall x {:trigger Has(t, x)} {:trigger Has(old(t), x)} :: Has(t, x) <==> x == s || (x != old(t).nodes[p].keys[j] && Has(old(t), x))
    {
      ghost var v := pages.view;
      KeysShown(v, t, p);
      pages.SetSlot(p, pos, s);
      ghost var t' := Relocated(v, pages.view, t, p, j, pos, s);
      SetRoot(root, t');
    }

    /** Removes entry pos of page p. */
    method Remove(p: nat, pos: nat, ghost j: nat)
      requires Valid() && p in t.nodes && p in pages.view && j < |t.nodes[p].keys| && pos == pages.view[p].lPos + j
      modifies this`root, this`t, pages`view, pages.pool
      ensures Valid() && OneLess(old(t), t, old(t).nodes[p].keys[j])
      ensures pages.pool.used - pages.view.Keys == old(pages.pool.used - pages.view.Keys)
    {
      ShownChild(pages.view, t, p, j);
      if pages.view[p].child[pos] != 0 {
        RemoveInternal(p, pos, j);
      } else {
        RemoveLeaf(p, pos, j);
      }
    }
  }
}

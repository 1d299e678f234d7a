/** Neighbours under one parent even out: a loan is a merge followed by a split elsewhere. */
module Lending {
  import opened TreeShape
  import opened IndexPages
  import opened Windows
  import opened Coupling

  /** p and s, the j-th and next child of q, share their keys anew: m of them to p. */
  ghost function LoanTree(t: Tree, p: nat, s: nat, q: nat, j: nat, m: nat): Tree
    requires MergePre(t, p, s, q, j) && m <= |t.nodes[p].keys| + |t.nodes[s].keys|
  {
    MergeApart(t, p, s, q, j);
    var t1 := MergeTree(t, p, s, q, j);
    MergeNodes(t, p, s, q, j, p);
    SplitTree(t1, p, s, q, j, m)
  }

  lemma LoanReady(t: Tree, p: nat, s: nat, q: nat, j: nat, m: nat)
    requires MergePre(t, p, s, q, j) && m <= |t.nodes[p].keys| + |t.nodes[s].keys|
    ensures SplitPre(MergeTree(t, p, s, q, j), p, s, q, j, m)
  {
    MergeApart(t, p, s, q, j);
    MergeOrder(t, p, s, q, j);
    MergeNodes(t, p, s, q, j, p);
    MergeNodes(t, p, s, q, j, q);
  }

  /** A loan keeps the order and all keys. */
  lemma LoanOrder(t: Tree, p: nat, s: nat, q: nat, j: nat, m: nat)
    requires MergePre(t, p, s, q, j) && m <= |t.nodes[p].keys| + |t.nodes[s].keys|
    ensures Order(LoanTree(t, p, s, q, j, m))
    ensures forall r :: Has(LoanTree(t, p, s, q, j, m), r) <==> Has(t, r)
  {
    var t1 := MergeTree(t, p, s, q, j);
    MergeApart(t, p, s, q, j);
    LoanReady(t, p, s, q, j, m);
    SplitOrder(t1, p, s, q, j, m);
    forall r ensures Has(LoanTree(t, p, s, q, j, m), r) <==> Has(t, r) {
      MergeHas(t, p, s, q, j, r);
      SplitHas(t1, p, s, q, j, m, r);
    }
  }

  /** What a loan does to pages it does not name: the moved children change parents. */
  lemma LoanRest(t: Tree, p: nat, s: nat, q: nat, j: nat, m: nat, c: nat)
    requires MergePre(t, p, s, q, j) && m <= |t.nodes[p].keys| + |t.nodes[s].keys|
    requires c in t.nodes && c != p && c != s && c != q
    ensures var t' := LoanTree(t, p, s, q, j, m);
            var kids := t.nodes[p].kids + t.nodes[s].kids;
            && c in t'.nodes
            && t'.nodes[c] == t.nodes[c].(up := if Among(kids, m + 1, c) then s else if Among(kids, 0, c) then p else t.nodes[c].up)
  {
    MergeApart(t, p, s, q, j);
    var kids := t.nodes[p].kids + t.nodes[s].kids;
    var l := |t.nodes[p].kids|;
    if Among(t.nodes[s].kids, 0, c) {
      var i :| 0 <= i < |t.nodes[s].kids| && t.nodes[s].kids[i] == c;
      assert kids[l + i] == c;
    }
    if Among(kids, 0, c) {
      var i :| 0 <= i < |kids| && kids[i] == c;
      if i < l { assert KidOk(t, p, i); } else { assert t.nodes[s].kids[i - l] == c; }
    }
  }

  lemma Siblings(t: Tree, p: nat, s: nat, q: nat, j: nat)
    requires MergePre(t, p, s, q, j)
    ensures t.nodes[p].kids == [] <==> t.nodes[s].kids == []
    ensures t.nodes[p].kids != [] ==> |t.nodes[p].kids| == |t.nodes[p].keys| + 1 && |t.nodes[s].kids| == |t.nodes[s].keys| + 1
    ensures |t.nodes[q].kids| == |t.nodes[q].keys| + 1
  {
    MergeApart(t, p, s, q, j);
  }

  /** Cutting the pooled keys and children one place behind the old border. */
  lemma PoolAfter(n: Node, r: Node, a: Node, j: nat, p: nat, s: nat, m: nat)
    requires j < |a.keys| && |a.kids| == |a.keys| + 1 && r.keys != [] && m == |n.keys| + 1 && a.kids[j] == p && a.kids[j+1] == s
    requires (n.kids == [] <==> r.kids == []) && (n.kids != [] ==> |n.kids| == |n.keys| + 1)
    ensures var keys, kids := n.keys + [a.keys[j]] + r.keys, n.kids + r.kids;
            && keys[..m] == n.keys + [a.keys[j]] && keys[m] == r.keys[0] && keys[m+1..] == r.keys[1..]
            && (n.kids != [] ==> kids[..m+1] == n.kids + [r.kids[0]] && kids[m+1..] == r.kids[1..])
    ensures var ak, ac := a.keys[..j] + a.keys[j+1..], a.kids[..j+1] + a.kids[j+2..];
            && ak[..j] + [r.keys[0]] + ak[j..] == a.keys[j := r.keys[0]]
            && ac[..j] + [p, s] + ac[j+1..] == a.kids
  {
  }

  /** Cutting them one place in front of it. */
  lemma PoolBefore(n: Node, r: Node, a: Node, j: nat, p: nat, s: nat, m: nat)
    requires j < |a.keys| && |a.kids| == |a.keys| + 1 && m + 1 == |n.keys| && a.kids[j] == p && a.kids[j+1] == s
    requires (n.kids == [] <==> r.kids == []) && (n.kids != [] ==> |n.kids| == |n.keys| + 1)
    ensures var keys, kids := n.keys + [a.keys[j]] + r.keys, n.kids + r.kids;
            && keys[..m] == n.keys[..m] && keys[m] == n.keys[m] && keys[m+1..] == [a.keys[j]] + r.keys
            && (n.kids != [] ==> kids[..m+1] == n.kids[..m+1] && kids[m+1..] == [n.kids[m+1]] + r.kids)
    ensures var ak, ac := a.keys[..j] + a.keys[j+1..], a.kids[..j+1] + a.kids[j+2..];
            && ak[..j] + [n.keys[m]] + ak[j..] == a.keys[j := n.keys[m]]
            && ac[..j] + [p, s] + ac[j+1..] == a.kids
  {
  }

  /** The right neighbour's first key goes up, the parent's key comes down to the left one. */
  lemma LoanFromRight(t: Tree, p: nat, s: nat, q: nat, j: nat, m: nat)
    requires MergePre(t, p, s, q, j) && m == |t.nodes[p].keys| + 1 && t.nodes[s].keys != []
    ensures var t' := LoanTree(t, p, s, q, j, m);
            var n, r, a := t.nodes[p], t.nodes[s], t.nodes[q];
            && t'.nodes.Keys == t.nodes.Keys && t'.root == t.root
            && t'.nodes[p] == Node(n.keys + [a.keys[j]], if r.kids == [] then [] else n.kids + [r.kids[0]], q)
            && t'.nodes[s] == Node(r.keys[1..], if r.kids == [] then [] else r.kids[1..], q)
            && t'.nodes[q] == Node(a.keys[j := r.keys[0]], a.kids, a.up)
  {
    MergeApart(t, p, s, q, j);
    Siblings(t, p, s, q, j);
    PoolAfter(t.nodes[p], t.nodes[s], t.nodes[q], j, p, s, m);
  }

  /** The left neighbour's last key goes up, the parent's key comes down to the right one. */
  lemma LoanFromLeft(t: Tree, p: nat, s: nat, q: nat, j: nat, m: nat)
    requires MergePre(t, p, s, q, j) && m + 1 == |t.nodes[p].keys|
    ensures var t' := LoanTree(t, p, s, q, j, m);
            var n, r, a := t.nodes[p], t.nodes[s], t.nodes[q];
            && t'.nodes.Keys == t.nodes.Keys && t'.root == t.root
            && t'.nodes[p] == Node(n.keys[..m], if n.kids == [] then [] else n.kids[..|n.kids| - 1], q)
            && t'.nodes[s] == Node([a.keys[j]] + r.keys, if n.kids == [] then [] else [n.kids[|n.kids| - 1]] + r.kids, q)
            && t'.nodes[q] == Node(a.keys[j := n.keys[m]], a.kids, a.up)
  {
    MergeApart(t, p, s, q, j);
    Siblings(t, p, s, q, j);
    PoolBefore(t.nodes[p], t.nodes[s], t.nodes[q], j, p, s, m);
  }

  // ---------------------------------------------------------------- loans between pages

  /** The left page p took the parent's key and the first child x of s (0 for leaves); the
      parent took the first key of s. */
  ghost predicate LentRight(v: Pages, w: Pages, p: nat, s: nat, q: nat, pos: nat, r: nat, r1: nat, x: nat) {
    && p in v && s in v && q in v && p != s && p != q && s != q && w.Keys == v.Keys
    && Sizes(v[p]) && Sizes(v[q]) && Sizes(v[s])
    && r == v[p].rPos < INDEXCOUNT && r1 == r + 1 && pos < INDEXCOUNT && v[s].lPos < INDEXCOUNT
    && w[q] == v[q].(slot := v[q].slot[pos := v[s].slot[v[s].lPos]])
    && w[s] == v[s].(lPos := v[s].lPos + 1)
    && w[p] == v[p].(slot := v[p].slot[r := v[q].slot[pos]], rPos := r1,
                     child := if x == 0 then v[p].child else v[p].child[r1 := x])
    && (x != 0 ==> x in v && x != p && x != s && x != q && w[x] == v[x].(parentIndex := p, parentPos := r1))
    && (forall c {:trigger w[c]} :: c in v && c != p && c != s && c != q && c != x ==> w[c] == v[c])
  }

  ghost predicate LendPre(v: Pages, t: Tree, p: nat, s: nat, q: nat, j: nat, pos: nat) {
    && MergePre(t, p, s, q, j) && v.Keys == t.nodes.Keys
    && PageHeld(v, t, p) && PageHeld(v, t, s) && PageHeld(v, t, q) && pos == v[q].lPos + j
  }

  lemma FirstKid(v: Pages, t: Tree, p: nat, s: nat, q: nat, j: nat, pos: nat)
    requires LendPre(v, t, p, s, q, j, pos) && t.nodes[s].keys != []
    ensures v[s].lPos < |v[s].child|
    ensures var x := v[s].child[v[s].lPos];
            if t.nodes[s].kids == [] then x == 0
            else x == t.nodes[s].kids[0] && x in t.nodes && x != 0 && t.nodes[x].up == s && x != p && x != s && x != q && x != t.root
  {
    MergeApart(t, p, s, q, j);
    if t.nodes[s].kids != [] {
      assert KidOk(t, s, 0);
      assert v[s].child[v[s].lPos + 0] == t.nodes[s].kids[0];
    }
  }

  /** Page p of v holds node n (PageHeld without a tree). */
  ghost predicate Holds(v: Pages, p: nat, n: Node) {
    && p in v && var pg := v[p];
    && Sizes(pg) && pg.rPos == pg.lPos + |n.keys| <= INDEXCOUNT
    && (forall i :: 0 <= i < |n.keys| ==> pg.slot[pg.lPos + i] == n.keys[i])
    && (n.kids == [] ==> forall i :: 0 <= i <= INDEXCOUNT ==> pg.child[i] == 0)
    && (n.kids != [] ==> |n.kids| == |n.keys| + 1)
    && (forall i :: 0 <= i < |n.kids| ==> i <= |n.keys| && HoldsKid(v, p, pg.lPos + i, n.kids[i]))
  }

  ghost predicate HoldsKid(v: Pages, p: nat, at: nat, k: nat) {
    && p in v && at < |v[p].child| && v[p].child[at] == k
    && k in v && v[k].parentIndex == p && v[k].parentPos == at
  }

  lemma HoldsHeld(v: Pages, t: Tree, p: nat)
    requires p in t.nodes
    ensures PageHeld(v, t, p) <==> Holds(v, p, t.nodes[p])
  {
    if PageHeld(v, t, p) {
      forall i | 0 <= i < |t.nodes[p].kids| ensures HoldsKid(v, p, v[p].lPos + i, t.nodes[p].kids[i]) {
        assert v[p].child[v[p].lPos + i] == t.nodes[p].kids[i];
      }
    }
    if Holds(v, p, t.nodes[p]) {
      forall i | 0 <= i < |t.nodes[p].kids| ensures HoldsKid(v, p, v[p].lPos + i, t.nodes[p].kids[i]) { }
    }
  }

  /** None of the pages named is a child of n. */
  ghost predicate Strangers(n: Node, a: nat, b: nat, c: nat, d: nat) {
    forall i :: 0 <= i < |n.kids| ==> n.kids[i] != a && n.kids[i] != b && n.kids[i] != c && n.kids[i] != d
  }

  lemma TookFromRight(v: Pages, w: Pages, p: nat, s: nat, q: nat, pos: nat, r: nat, r1: nat, x: nat, n: Node, up: nat)
    requires Holds(v, p, n) && LentRight(v, w, p, s, q, pos, r, r1, x) && Strangers(n, p, s, q, x)
    requires n.kids == [] <==> x == 0
    ensures Holds(w, p, Node(n.keys + [v[q].slot[pos]], if n.kids == [] then [] else n.kids + [x], up))
  {
    forall i | 0 <= i < |n.kids| ensures HoldsKid(w, p, w[p].lPos + i, n.kids[i]) {
      assert HoldsKid(v, p, v[p].lPos + i, n.kids[i]);
    }
  }

  lemma GaveToLeft(v: Pages, w: Pages, p: nat, s: nat, q: nat, pos: nat, r: nat, r1: nat, x: nat, n: Node, up: nat)
    requires Holds(v, s, n) && n.keys != [] && LentRight(v, w, p, s, q, pos, r, r1, x) && Strangers(n, p, s, q, 0)
    requires x == v[s].child[v[s].lPos]
    requires forall i, k :: 0 <= i < k < |n.kids| ==> n.kids[i] != n.kids[k]
    ensures Holds(w, s, Node(n.keys[1..], if n.kids == [] then [] else n.kids[1..], up))
  {
    var keys := n.keys[1..];
    forall i | 0 <= i < |keys| ensures w[s].slot[w[s].lPos + i] == keys[i] {
      assert v[s].slot[v[s].lPos + (i + 1)] == n.keys[i + 1];
    }
    if n.kids != [] {
      var kids := n.kids[1..];
      assert HoldsKid(v, s, v[s].lPos + 0, n.kids[0]);
      forall i | 0 <= i < |kids| ensures HoldsKid(w, s, w[s].lPos + i, kids[i]) {
        assert HoldsKid(v, s, v[s].lPos + (i + 1), n.kids[i + 1]);
      }
    }
  }

  lemma ParentSwapped(v: Pages, w: Pages, p: nat, s: nat, q: nat, pos: nat, r: nat, r1: nat, x: nat, n: Node, j: nat, k: Slot)
    requires Holds(v, q, n) && LentRight(v, w, p, s, q, pos, r, r1, x)
    requires j < |n.keys| && pos == v[q].lPos + j && k == v[s].slot[v[s].lPos]
    requires forall i :: 0 <= i < |n.kids| ==> n.kids[i] != q && n.kids[i] != x
    ensures Holds(w, q, n.(keys := n.keys[j := k]))
  {
    forall i | 0 <= i < |n.kids| ensures HoldsKid(w, q, w[q].lPos + i, n.kids[i]) {
      assert HoldsKid(v, q, v[q].lPos + i, n.kids[i]);
    }
  }

  lemma StrangersOf(t: Tree, c: nat, p: nat, s: nat, q: nat, x: nat)
    requires Order(t) && c in t.nodes
    requires forall y :: y in {p, s, q, x} ==> y == 0 || (y in t.nodes && t.nodes[y].up != c)
    ensures Strangers(t.nodes[c], p, s, q, x)
    ensures forall i, k :: 0 <= i < k < |t.nodes[c].kids| ==> t.nodes[c].kids[i] != t.nodes[c].kids[k]
  {
    assert NodeOk(t, c);
    KidsApart(t, c);
  }

  /** A page the loan does not name holds what it held. */
  lemma LentRightRest(v: Pages, w: Pages, p: nat, s: nat, q: nat, pos: nat, r: nat, r1: nat, x: nat, c: nat, n: Node, up: nat)
    requires Holds(v, c, n) && LentRight(v, w, p, s, q, pos, r, r1, x) && c != p && c != s && c != q && c != 0
    requires Strangers(n, p, s, x, 0)
    ensures Holds(w, c, n.(up := up))
  {
    forall i | 0 <= i < |n.kids| ensures HoldsKid(w, c, w[c].lPos + i, n.kids[i]) {
      assert HoldsKid(v, c, v[c].lPos + i, n.kids[i]);
    }
  }

  lemma ParentKey(v: Pages, t: Tree, p: nat, s: nat, q: nat, j: nat, pos: nat)
    requires LendPre(v, t, p, s, q, j, pos)
    ensures pos < |v[q].slot| && v[q].slot[pos] == t.nodes[q].keys[j]
  {
    assert v[q].slot[v[q].lPos + j] == t.nodes[q].keys[j];
  }

  lemma LentRightHeldLeft(v: Pages, w: Pages, t: Tree, p: nat, s: nat, q: nat, j: nat, pos: nat, m: nat, r: nat, r1: nat, x: nat)
    requires LendPre(v, t, p, s, q, j, pos) && m == |t.nodes[p].keys| + 1 && t.nodes[s].keys != []
    requires x == v[s].child[v[s].lPos] && LentRight(v, w, p, s, q, pos, r, r1, x)
    ensures PageHeld(w, LoanTree(t, p, s, q, j, m), p)
  {
    var t' := LoanTree(t, p, s, q, j, m);
    LoanFromRight(t, p, s, q, j, m);
    FirstKid(v, t, p, s, q, j, pos);
    Siblings(t, p, s, q, j);
    MergeApart(t, p, s, q, j);
    HoldsHeld(v, t, p);
    ParentKey(v, t, p, s, q, j, pos);
    UpIsOther(t, q);
    StrangersOf(t, p, p, s, q, x);
    TookFromRight(v, w, p, s, q, pos, r, r1, x, t.nodes[p], q);
    HoldsHeld(w, t', p);
  }

  lemma LentRightHeldRight(v: Pages, w: Pages, t: Tree, p: nat, s: nat, q: nat, j: nat, pos: nat, m: nat, r: nat, r1: nat, x: nat)
    requires LendPre(v, t, p, s, q, j, pos) && m == |t.nodes[p].keys| + 1 && t.nodes[s].keys != []
    requires x == v[s].child[v[s].lPos] && LentRight(v, w, p, s, q, pos, r, r1, x)
    ensures PageHeld(w, LoanTree(t, p, s, q, j, m), s)
  {
    var t' := LoanTree(t, p, s, q, j, m);
    LoanFromRight(t, p, s, q, j, m);
    FirstKid(v, t, p, s, q, j, pos);
    Siblings(t, p, s, q, j);
    MergeApart(t, p, s, q, j);
    HoldsHeld(v, t, s);
    UpIsOther(t, q);
    StrangersOf(t, s, p, s, q, 0);
    GaveToLeft(v, w, p, s, q, pos, r, r1, x, t.nodes[s], q);
    HoldsHeld(w, t', s);
  }

  lemma LentRightHeldParent(v: Pages, w: Pages, t: Tree, p: nat, s: nat, q: nat, j: nat, pos: nat, m: nat, r: nat, r1: nat, x: nat)
    requires LendPre(v, t, p, s, q, j, pos) && m == |t.nodes[p].keys| + 1 && t.nodes[s].keys != []
    requires x == v[s].child[v[s].lPos] && LentRight(v, w, p, s, q, pos, r, r1, x)
    ensures PageHeld(w, LoanTree(t, p, s, q, j, m), q)
  {
    var t' := LoanTree(t, p, s, q, j, m);
    LoanFromRight(t, p, s, q, j, m);
    FirstKid(v, t, p, s, q, j, pos);
    Siblings(t, p, s, q, j);
    MergeApart(t, p, s, q, j);
    HoldsHeld(v, t, q);
    assert v[s].slot[v[s].lPos + 0] == t.nodes[s].keys[0];
    UpIsOther(t, q);
    StrangersOf(t, q, q, x, 0, 0);
    ParentSwapped(v, w, p, s, q, pos, r, r1, x, t.nodes[q], j, t.nodes[s].keys[0]);
    HoldsHeld(w, t', q);
  }

  lemma LentRightHeldRest(v: Pages, w: Pages, t: Tree, p: nat, s: nat, q: nat, j: nat, pos: nat, m: nat, r: nat, r1: nat, x: nat, c: nat)
    requires LendPre(v, t, p, s, q, j, pos) && m == |t.nodes[p].keys| + 1 && t.nodes[s].keys != []
    requires x == v[s].child[v[s].lPos] && LentRight(v, w, p, s, q, pos, r, r1, x)
    requires c in t.nodes && PageHeld(v, t, c) && c != p && c != s && c != q
    ensures PageHeld(w, LoanTree(t, p, s, q, j, m), c)
  {
    var t' := LoanTree(t, p, s, q, j, m);
    LoanFromRight(t, p, s, q, j, m);
    FirstKid(v, t, p, s, q, j, pos);
    Siblings(t, p, s, q, j);
    MergeApart(t, p, s, q, j);
    HoldsHeld(v, t, c);
    StrangersOf(t, c, p, s, x, 0);
    LoanRest(t, p, s, q, j, m, c);
    LentRightRest(v, w, p, s, q, pos, r, r1, x, c, t.nodes[c], t'.nodes[c].up);
    HoldsHeld(w, t', c);
  }

  lemma UpIsOther(t: Tree, q: nat)
    requires Order(t) && q in t.nodes
    ensures t.nodes[q].up != q
    ensures forall c :: c in t.nodes && t.nodes[c].up == q && c != t.root ==> t.nodes[q].up != c && t.info[q].level > 0
  {
    if q != t.root { var b, i := Climb(t, q); }
    forall c | c in t.nodes && t.nodes[c].up == q && c != t.root ensures t.nodes[q].up != c && t.info[q].level > 0 {
      var b, i := Climb(t, c);
    }
  }

  lemma LentRightCoupled(v: Pages, w: Pages, t: Tree, p: nat, s: nat, q: nat, j: nat, pos: nat, m: nat, r: nat, r1: nat, x: nat)
    requires Coupled(v, t) && LendPre(v, t, p, s, q, j, pos) && m == |t.nodes[p].keys| + 1 && t.nodes[s].keys != []
    requires x == v[s].child[v[s].lPos] && LentRight(v, w, p, s, q, pos, r, r1, x)
    ensures Coupled(w, LoanTree(t, p, s, q, j, m))
  {
    var t' := LoanTree(t, p, s, q, j, m);
    LoanFromRight(t, p, s, q, j, m);
    FirstKid(v, t, p, s, q, j, pos);
    MergeApart(t, p, s, q, j);
    forall c {:trigger PageHeld(w, t', c)} | c in t'.nodes ensures PageHeld(w, t', c) {
      assert PageHeld(v, t, c);
      if c == p { LentRightHeldLeft(v, w, t, p, s, q, j, pos, m, r, r1, x); }
      else if c == s { LentRightHeldRight(v, w, t, p, s, q, j, pos, m, r, r1, x); }
      else if c == q { LentRightHeldParent(v, w, t, p, s, q, j, pos, m, r, r1, x); }
      else { LentRightHeldRest(v, w, t, p, s, q, j, pos, m, r, r1, x, c); }
    }
  }

  // The mirror image.

  /** The right page s took the parent's key and the last child x of p (0 for leaves); the
      parent took the last key of p. */
  ghost predicate LentLeft(v: Pages, w: Pages, p: nat, s: nat, q: nat, pos: nat, l1: nat, x: nat) {
    && p in v && s in v && q in v && p != s && p != q && s != q && w.Keys == v.Keys
    && Sizes(v[p]) && Sizes(v[q]) && Sizes(v[s])
    && v[s].lPos == l1 + 1 && l1 < INDEXCOUNT && pos < INDEXCOUNT && 0 < v[p].rPos <= INDEXCOUNT
    && w[q] == v[q].(slot := v[q].slot[pos := v[p].slot[v[p].rPos - 1]])
    && w[p] == v[p].(rPos := v[p].rPos - 1)
    && w[s] == v[s].(slot := v[s].slot[l1 := v[q].slot[pos]], lPos := l1,
                     child := if x == 0 then v[s].child else v[s].child[l1 := x])
    && (x != 0 ==> x in v && x != p && x != s && x != q && w[x] == v[x].(parentIndex := s, parentPos := l1))
    && (forall c {:trigger w[c]} :: c in v && c != p && c != s && c != q && c != x ==> w[c] == v[c])
  }

  lemma LastKid(v: Pages, t: Tree, p: nat, s: nat, q: nat, j: nat, pos: nat)
    requires LendPre(v, t, p, s, q, j, pos)
    ensures v[p].rPos < |v[p].child|
    ensures var x := v[p].child[v[p].rPos];
            if t.nodes[p].kids == [] then x == 0
            else x == t.nodes[p].kids[|t.nodes[p].kids| - 1] && x in t.nodes && x != 0 && t.nodes[x].up == p
                 && x != p && x != s && x != q && x != t.root
  {
    MergeApart(t, p, s, q, j);
    if t.nodes[p].kids != [] {
      var i := |t.nodes[p].kids| - 1;
      assert KidOk(t, p, i);
      assert v[p].child[v[p].lPos + i] == t.nodes[p].kids[i];
    }
  }

  lemma TookFromLeft(v: Pages, w: Pages, p: nat, s: nat, q: nat, pos: nat, l1: nat, x: nat, n: Node, up: nat)
    requires Holds(v, s, n) && LentLeft(v, w, p, s, q, pos, l1, x) && Strangers(n, p, s, q, x)
    requires n.kids == [] <==> x == 0
    ensures Holds(w, s, Node([v[q].slot[pos]] + n.keys, if n.kids == [] then [] else [x] + n.kids, up))
  {
    forall i | 0 <= i < |n.kids| ensures HoldsKid(w, s, w[s].lPos + 1 + i, n.kids[i]) {
      assert HoldsKid(v, s, v[s].lPos + i, n.kids[i]);
    }
    if n.kids != [] {
      var kids := [x] + n.kids;
      forall i | 0 <= i < |kids| ensures HoldsKid(w, s, w[s].lPos + i, kids[i]) {
        if i > 0 { assert kids[i] == n.kids[i - 1]; }
      }
    }
  }

  lemma GaveToRight(v: Pages, w: Pages, p: nat, s: nat, q: nat, pos: nat, l1: nat, x: nat, n: Node, up: nat)
    requires Holds(v, p, n) && n.keys != [] && LentLeft(v, w, p, s, q, pos, l1, x) && Strangers(n, p, s, q, 0)
    requires x == v[p].child[v[p].rPos]
    requires forall i, k :: 0 <= i < k < |n.kids| ==> n.kids[i] != n.kids[k]
    ensures Holds(w, p, Node(n.keys[..|n.keys| - 1], if n.kids == [] then [] else n.kids[..|n.kids| - 1], up))
  {
    if n.kids != [] {
      assert HoldsKid(v, p, v[p].lPos + (|n.kids| - 1), n.kids[|n.kids| - 1]);
      forall i | 0 <= i < |n.kids[..|n.kids| - 1]| ensures HoldsKid(w, p, w[p].lPos + i, n.kids[i]) {
        assert HoldsKid(v, p, v[p].lPos + i, n.kids[i]);
      }
    }
  }

  lemma ParentSwappedLeft(v: Pages, w: Pages, p: nat, s: nat, q: nat, pos: nat, l1: nat, x: nat, n: Node, j: nat, k: Slot)
    requires Holds(v, q, n) && LentLeft(v, w, p, s, q, pos, l1, x)
    requires j < |n.keys| && pos == v[q].lPos + j && k == v[p].slot[v[p].rPos - 1]
    requires forall i :: 0 <= i < |n.kids| ==> n.kids[i] != q && n.kids[i] != x
    ensures Holds(w, q, n.(keys := n.keys[j := k]))
  {
    forall i | 0 <= i < |n.kids| ensures HoldsKid(w, q, w[q].lPos + i, n.kids[i]) {
      assert HoldsKid(v, q, v[q].lPos + i, n.kids[i]);
    }
  }

  lemma LentLeftRest(v: Pages, w: Pages, p: nat, s: nat, q: nat, pos: nat, l1: nat, x: nat, c: nat, n: Node, up: nat)
    requires Holds(v, c, n) && LentLeft(v, w, p, s, q, pos, l1, x) && c != p && c != s && c != q && c != 0
    requires Strangers(n, p, s, x, 0)
    ensures Holds(w, c, n.(up := up))
  {
    forall i | 0 <= i < |n.kids| ensures HoldsKid(w, c, w[c].lPos + i, n.kids[i]) {
      assert HoldsKid(v, c, v[c].lPos + i, n.kids[i]);
    }
  }

  lemma LentLeftHeldRight(v: Pages, w: Pages, t: Tree, p: nat, s: nat, q: nat, j: nat, pos: nat, m: nat, l1: nat, x: nat)
    requires LendPre(v, t, p, s, q, j, pos) && m + 1 == |t.nodes[p].keys|
    requires x == v[p].child[v[p].rPos] && LentLeft(v, w, p, s, q, pos, l1, x)
    ensures PageHeld(w, LoanTree(t, p, s, q, j, m), s)
  {
    var t' := LoanTree(t, p, s, q, j, m);
    LoanFromLeft(t, p, s, q, j, m);
    LastKid(v, t, p, s, q, j, pos);
    Siblings(t, p, s, q, j);
    MergeApart(t, p, s, q, j);
    HoldsHeld(v, t, s);
    ParentKey(v, t, p, s, q, j, pos);
    UpIsOther(t, q);
    StrangersOf(t, s, p, s, q, x);
    TookFromLeft(v, w, p, s, q, pos, l1, x, t.nodes[s], q);
    HoldsHeld(w, t', s);
  }

  lemma LentLeftHeldLeft(v: Pages, w: Pages, t: Tree, p: nat, s: nat, q: nat, j: nat, pos: nat, m: nat, l1: nat, x: nat)
    requires LendPre(v, t, p, s, q, j, pos) && m + 1 == |t.nodes[p].keys|
    requires x == v[p].child[v[p].rPos] && LentLeft(v, w, p, s, q, pos, l1, x)
    ensures PageHeld(w, LoanTree(t, p, s, q, j, m), p)
  {
    var t' := LoanTree(t, p, s, q, j, m);
    LoanFromLeft(t, p, s, q, j, m);
    LastKid(v, t, p, s, q, j, pos);
    Siblings(t, p, s, q, j);
    MergeApart(t, p, s, q, j);
    HoldsHeld(v, t, p);
    UpIsOther(t, q);
    StrangersOf(t, p, p, s, q, 0);
    GaveToRight(v, w, p, s, q, pos, l1, x, t.nodes[p], q);
    HoldsHeld(w, t', p);
  }

  lemma LentLeftHeldParent(v: Pages, w: Pages, t: Tree, p: nat, s: nat, q: nat, j: nat, pos: nat, m: nat, l1: nat, x: nat)
    requires LendPre(v, t, p, s, q, j, pos) && m + 1 == |t.nodes[p].keys|
    requires x == v[p].child[v[p].rPos] && LentLeft(v, w, p, s, q, pos, l1, x)
    ensures PageHeld(w, LoanTree(t, p, s, q, j, m), q)
  {
    var t' := LoanTree(t, p, s, q, j, m);
    LoanFromLeft(t, p, s, q, j, m);
    LastKid(v, t, p, s, q, j, pos);
    Siblings(t, p, s, q, j);
    MergeApart(t, p, s, q, j);
    HoldsHeld(v, t, q);
    assert v[p].rPos - 1 == v[p].lPos + m;
    var k := v[p].slot[v[p].rPos - 1];
    assert k == t.nodes[p].keys[m];
    UpIsOther(t, q);
    StrangersOf(t, q, q, x, 0, 0);
    ParentSwappedLeft(v, w, p, s, q, pos, l1, x, t.nodes[q], j, k);
    HoldsHeld(w, t', q);
  }

  lemma LentLeftHeldRest(v: Pages, w: Pages, t: Tree, p: nat, s: nat, q: nat, j: nat, pos: nat, m: nat, l1: nat, x: nat, c: nat)
    requires LendPre(v, t, p, s, q, j, pos) && m + 1 == |t.nodes[p].keys|
    requires x == v[p].child[v[p].rPos] && LentLeft(v, w, p, s, q, pos, l1, x)
    requires c in t.nodes && PageHeld(v, t, c) && c != p && c != s && c != q
    ensures PageHeld(w, LoanTree(t, p, s, q, j, m), c)
  {
    var t' := LoanTree(t, p, s, q, j, m);
    LoanFromLeft(t, p, s, q, j, m);
    LastKid(v, t, p, s, q, j, pos);
    Siblings(t, p, s, q, j);
    MergeApart(t, p, s, q, j);
    HoldsHeld(v, t, c);
    StrangersOf(t, c, p, s, x, 0);
    LoanRest(t, p, s, q, j, m, c);
    LentLeftRest(v, w, p, s, q, pos, l1, x, c, t.nodes[c], t'.nodes[c].up);
    HoldsHeld(w, t', c);
  }

  lemma LentLeftCoupled(v: Pages, w: Pages, t: Tree, p: nat, s: nat, q: nat, j: nat, pos: nat, m: nat, l1: nat, x: nat)
    requires Coupled(v, t) && LendPre(v, t, p, s, q, j, pos) && m + 1 == |t.nodes[p].keys|
    requires x == v[p].child[v[p].rPos] && LentLeft(v, w, p, s, q, pos, l1, x)
    ensures Coupled(w, LoanTree(t, p, s, q, j, m))
  {
    var t' := LoanTree(t, p, s, q, j, m);
    LoanFromLeft(t, p, s, q, j, m);
    LastKid(v, t, p, s, q, j, pos);
    MergeApart(t, p, s, q, j);
    forall c {:trigger PageHeld(w, t', c)} | c in t'.nodes ensures PageHeld(w, t', c) {
      assert PageHeld(v, t, c);
      if c == p { LentLeftHeldLeft(v, w, t, p, s, q, j, pos, m, l1, x); }
      else if c == s { LentLeftHeldRight(v, w, t, p, s, q, j, pos, m, l1, x); }
      else if c == q { LentLeftHeldParent(v, w, t, p, s, q, j, pos, m, l1, x); }
      else { LentLeftHeldRest(v, w, t, p, s, q, j, pos, m, l1, x, c); }
    }
  }
}

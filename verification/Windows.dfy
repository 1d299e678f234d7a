/** Moving keys and children inside the window of one page.

    `MoveView` says what a copying loop leaves behind: keys and children of page p moved by d
    places, and each moved child's back-link moved with it.  The loops of the page code are
    proved against it one step at a time. */
module Windows {
  import opened TreeShape
  import opened IndexPages

  /** c is the child link of some entry in [a, b). */
  ghost predicate Held(child: seq<nat>, a: nat, b: nat, c: nat) {
    exists i :: a <= i < b && i < |child| && child[i] == c
  }

  ghost function MovePage(pg: IndexPage, ka: nat, kb: nat, ca: nat, cb: nat, d: int): IndexPage {
    pg.(slot := seq(|pg.slot|, i requires 0 <= i < |pg.slot| =>
                  if ka + d <= i < kb + d && 0 <= i - d < |pg.slot| then pg.slot[i-d] else pg.slot[i]),
        child := seq(|pg.child|, i requires 0 <= i < |pg.child| =>
                  if ca + d <= i < cb + d && 0 <= i - d < |pg.child| then pg.child[i-d] else pg.child[i]))
  }

  ghost function MoveView(v: map<nat, IndexPage>, p: nat, ka: nat, kb: nat, ca: nat, cb: nat, d: int): map<nat, IndexPage>
    requires p in v
  {
    map c | c in v ::
      if c == p then MovePage(v[p], ka, kb, ca, cb, d)
      else if Held(v[p].child, ca, cb, c) then v[c].(parentPos := v[c].parentPos + d)
      else v[c]
  }

  ghost predicate Sizes(pg: IndexPage) {
    |pg.slot| == INDEXCOUNT && |pg.child| == INDEXCOUNT + 1
  }

  /** The children in [a, b) are pages other than p, each linked once. */
  ghost predicate KidsIn(v: map<nat, IndexPage>, p: nat, a: nat, b: nat)
    requires p in v
  {
    && a <= b <= |v[p].child|
    && (forall i :: a <= i < b ==> v[p].child[i] in v && v[p].child[i] != p)
    && (forall i, j :: a <= i < j < b ==> v[p].child[i] != v[p].child[j])
  }

  lemma MoveNothing(v: map<nat, IndexPage>, p: nat, k: nat, c: nat, d: int)
    requires p in v
    ensures MoveView(v, p, k, k, c, c, d) == v
  {
    assert MovePage(v[p], k, k, c, c, d) == v[p];
  }

  // In the step lemmas every position is a variable of its own (k1 for k + 1, dst for where an
  // entry goes), so that a loop can pass its own variables.

  lemma StepLow(v: map<nat, IndexPage>, p: nat, k: nat, k1: nat, dst: nat, kb: nat, d: int)
    requires p in v && Sizes(v[p]) && d > 0 && k1 == k + 1 <= kb && dst == k + d && kb + d <= INDEXCOUNT
    ensures var w := MoveView(v, p, k1, kb, 0, 0, d);
            WithSlot(w, p, dst, w[p].slot[k]) == MoveView(v, p, k, kb, 0, 0, d)
  {
    var w := MoveView(v, p, k1, kb, 0, 0, d);
    assert w[p].slot[dst := w[p].slot[k]] == MovePage(v[p], k, kb, 0, 0, d).slot;
  }

  lemma StepHigh(v: map<nat, IndexPage>, p: nat, ka: nat, k: nat, k1: nat, dst: nat, d: int)
    requires p in v && Sizes(v[p]) && d > 0 && d <= ka <= k < INDEXCOUNT && k1 == k + 1 && dst == k - d
    ensures var w := MoveView(v, p, ka, k, 0, 0, -d);
            WithSlot(w, p, dst, w[p].slot[k]) == MoveView(v, p, ka, k1, 0, 0, -d)
  {
    var w := MoveView(v, p, ka, k, 0, 0, -d);
    assert w[p].slot[dst := w[p].slot[k]] == MovePage(v[p], ka, k1, 0, 0, -d).slot;
  }

  /** One key and one child copied within p, and the child's back-link moved by d. */
  ghost function Stepped(v: map<nat, IndexPage>, p: nat, key: nat, keyTo: nat, kid: nat, kidTo: nat, d: int): map<nat, IndexPage>
    requires p in v && Sizes(v[p]) && key < INDEXCOUNT && keyTo < INDEXCOUNT && kid <= INDEXCOUNT && kidTo <= INDEXCOUNT
    requires v[p].child[kid] in v && v[p].child[kid] != p
  {
    Bumped(WithChild(WithSlot(v, p, keyTo, v[p].slot[key]), p, kidTo, v[p].child[kid]), v[p].child[kid], d)
  }

  method Step(c: IndexCache, p: nat, key: nat, keyTo: nat, kid: nat, kidTo: nat, d: int)
    requires p in c.view && Sizes(c.view[p])
    requires key < INDEXCOUNT && keyTo < INDEXCOUNT && kid <= INDEXCOUNT && kidTo <= INDEXCOUNT
    requires c.view[p].child[kid] in c.view && c.view[p].child[kid] != p
    modifies c`view
    ensures c.view == Stepped(old(c.view), p, key, keyTo, kid, kidTo, d)
  {
    c.SetSlot(p, keyTo, c.view[p].slot[key]);
    var x := c.view[p].child[kid];
    c.SetChild(p, kidTo, x);
    c.Bump(x, d);
  }

  lemma StepLowRight(v: map<nat, IndexPage>, p: nat, k: nat, k1: nat, k2: nat, dst: nat, dst1: nat, kb: nat, kb1: nat, d: int)
    requires p in v && Sizes(v[p]) && d > 0 && k1 == k + 1 <= kb && k2 == k1 + 1 && kb1 == kb + 1
    requires dst == k + d && dst1 == dst + 1 && kb + d <= INDEXCOUNT
    requires KidsIn(v, p, k1, kb1)
    ensures var w := MoveView(v, p, k1, kb, k2, kb1, d);
            && w[p].child[k1] in w && w[p].child[k1] != p
            && Stepped(w, p, k, dst, k1, dst1, d) == MoveView(v, p, k, kb, k1, kb1, d)
  {
    var w := MoveView(v, p, k1, kb, k2, kb1, d);
    var m := MovePage(v[p], k, kb, k1, kb1, d);
    assert w[p].slot[dst := w[p].slot[k]] == m.slot;
    assert w[p].child[dst1 := w[p].child[k1]] == m.child;
  }

  lemma StepHighKid(v: map<nat, IndexPage>, p: nat, ka: nat, k: nat, k1: nat, dst: nat, ca: nat, i: nat, i1: nat, dst1: nat, d: int)
    requires p in v && Sizes(v[p]) && d < 0 && -d <= ka <= k < INDEXCOUNT && k1 == k + 1 && dst == k + d
    requires -d <= ca <= i <= INDEXCOUNT && i1 == i + 1 && dst1 == i + d
    requires KidsIn(v, p, ca, i1)
    ensures var w := MoveView(v, p, ka, k, ca, i, d);
            && w[p].child[i] in w && w[p].child[i] != p && w[p].child[i] == v[p].child[i] && w[w[p].child[i]] == v[v[p].child[i]]
            && Stepped(w, p, k, dst, i, dst1, d) == MoveView(v, p, ka, k1, ca, i1, d)
  {
    var w := MoveView(v, p, ka, k, ca, i, d);
    var m := MovePage(v[p], ka, k1, ca, i1, d);
    assert w[p].slot[dst := w[p].slot[k]] == m.slot;
    assert w[p].child[dst1 := w[p].child[i]] == m.child;
  }

  lemma StepHighLast(v: map<nat, IndexPage>, p: nat, ka: nat, kb: nat, ca: nat, i: nat, i1: nat, dst: nat, d: int)
    requires p in v && Sizes(v[p]) && d < 0
    requires -d <= ca <= i <= INDEXCOUNT && i1 == i + 1 && dst == i + d
    requires KidsIn(v, p, ca, i1)
    ensures var w := MoveView(v, p, ka, kb, ca, i, d);
            var x := w[p].child[i];
            && x in w && x != p && x == v[p].child[i] && w[x] == v[x]
            && Bumped(WithChild(w, p, dst, x), x, d) == MoveView(v, p, ka, kb, ca, i1, d)
  {
    var w := MoveView(v, p, ka, kb, ca, i, d);
    assert w[p].child[dst := w[p].child[i]] == MovePage(v[p], ka, kb, ca, i1, d).child;
  }

  lemma StepLowLast(v: map<nat, IndexPage>, p: nat, ka: nat, kb: nat, i: nat, i1: nat, dst: nat, cb: nat, d: int)
    requires p in v && Sizes(v[p]) && d > 0
    requires i1 == i + 1 <= cb && cb + d <= INDEXCOUNT + 1 && dst == i + d
    requires KidsIn(v, p, i, cb)
    ensures var w := MoveView(v, p, ka, kb, i1, cb, d);
            var x := w[p].child[i];
            && x in w && x != p && x == v[p].child[i]
            && Bumped(WithChild(w, p, dst, x), x, d) == MoveView(v, p, ka, kb, i, cb, d)
  {
    var w := MoveView(v, p, ka, kb, i1, cb, d);
    assert w[p].child[dst := w[p].child[i]] == MovePage(v[p], ka, kb, i, cb, d).child;
  }

  // ---------------------------------------------------------------- the copying loops

  /** Keys [from, to) up by d, last one first. */
  method CopyKeysUp(c: IndexCache, p: nat, from: nat, to: nat, d: int)
    requires p in c.view && Sizes(c.view[p])
    requires 0 < d && from <= to && to + d <= INDEXCOUNT
    modifies c`view
    ensures c.view == MoveView(old(c.view), p, from, to, 0, 0, d)
  {
    ghost var v := c.view;
    MoveNothing(v, p, to, 0, d);
    var tail := to;
    while tail > from
      invariant from <= tail <= to
      invariant c.view == MoveView(v, p, tail, to, 0, 0, d)
    {
      var k: nat := tail - 1;
      var dst: nat := k + d;
      StepLow(v, p, k, tail, dst, to, d);
      c.SetSlot(p, dst, c.view[p].slot[k]);
      tail := k;
    }
  }

  /** Keys [from, to) down by d, first one first. */
  method CopyKeysDown(c: IndexCache, p: nat, from: nat, to: nat, d: int)
    requires p in c.view && Sizes(c.view[p])
    requires 0 < d <= from <= to <= INDEXCOUNT
    modifies c`view
    ensures c.view == MoveView(old(c.view), p, from, to, 0, 0, -d)
  {
    ghost var v := c.view;
    MoveNothing(v, p, from, 0, -d);
    var cur := from;
    while cur < to
      invariant from <= cur <= to
      invariant c.view == MoveView(v, p, from, cur, 0, 0, -d)
    {
      var k1: nat := cur + 1;
      var dst: nat := cur - d;
      StepHigh(v, p, from, cur, k1, dst, d);
      c.SetSlot(p, dst, c.view[p].slot[cur]);
      cur := k1;
    }
  }

  /** Keys [from, to) and the children right of them up by d, last one first. */
  method CopyRightUp(c: IndexCache, p: nat, from: nat, to: nat, from1: nat, to1: nat, d: int)
    requires p in c.view && Sizes(c.view[p])
    requires from1 == from + 1 && to1 == to + 1
    requires 0 < d && from <= to && to + d <= INDEXCOUNT && KidsIn(c.view, p, from1, to1)
    modifies c`view
    ensures c.view == MoveView(old(c.view), p, from, to, from1, to1, d)
  {
    ghost var v := c.view;
    MoveNothing(v, p, to, to1, d);
    var tail, right := to, to1;
    while tail > from
      invariant from <= tail <= to && right == tail + 1
      invariant c.view == MoveView(v, p, tail, to, right, to1, d)
    {
      var k: nat := tail - 1;
      var dst: nat := k + d;
      var dst1: nat := dst + 1;
      StepLowRight(v, p, k, tail, right, dst, dst1, to, to1, d);
      Step(c, p, k, dst, tail, dst1, d);
      tail, right := k, tail;
    }
  }

  /** Keys [from, to) and the children right of them down by one, first one first. */
  method CopyRightDown(c: IndexCache, p: nat, from: nat, to: nat, from1: nat, to1: nat)
    requires p in c.view && Sizes(c.view[p])
    requires from1 == from + 1 && to1 == to + 1
    requires 0 < from <= to <= INDEXCOUNT && KidsIn(c.view, p, from1, to1)
    modifies c`view
    ensures c.view == MoveView(old(c.view), p, from, to, from1, to1, -1)
  {
    ghost var v := c.view;
    MoveNothing(v, p, from, from1, -1);
    var cur, right := from, from1;
    while cur < to
      invariant from <= cur <= to && right == cur + 1
      invariant c.view == MoveView(v, p, from, cur, from1, right, -1)
    {
      var dst: nat := cur - 1;
      var right1: nat := right + 1;
      StepHighKid(v, p, from, cur, right, dst, from1, right, right1, cur, -1);
      Step(c, p, cur, dst, right, cur, -1);
      cur, right := right, right1;
    }
  }

  /** Keys [from, to) and the children left of them down by one, first one first. */
  method CopyLeftDown(c: IndexCache, p: nat, from: nat, to: nat)
    requires p in c.view && Sizes(c.view[p])
    requires 0 < from <= to < INDEXCOUNT + 1 && KidsIn(c.view, p, from, to)
    modifies c`view
    ensures c.view == MoveView(old(c.view), p, from, to, from, to, -1)
  {
    ghost var v := c.view;
    MoveNothing(v, p, from, from, -1);
    var cur := from;
    while cur < to
      invariant from <= cur <= to
      invariant c.view == MoveView(v, p, from, cur, from, cur, -1)
    {
      var dst: nat := cur - 1;
      var k1: nat := cur + 1;
      StepHighKid(v, p, from, cur, k1, dst, from, cur, k1, dst, -1);
      Step(c, p, cur, dst, cur, dst, -1);
      cur := k1;
    }
  }

  /** As Step, with the back-link written outright. */
  method Place(c: IndexCache, p: nat, key: nat, keyTo: nat, kid: nat, kidTo: nat, ghost d: int)
    requires p in c.view && Sizes(c.view[p])
    requires key < INDEXCOUNT && keyTo < INDEXCOUNT && kid <= INDEXCOUNT && kidTo <= INDEXCOUNT
    requires var x := c.view[p].child[kid]; x in c.view && x != p && c.view[x].parentPos + d == kidTo
    modifies c`view
    ensures c.view == Stepped(old(c.view), p, key, keyTo, kid, kidTo, d)
  {
    c.SetSlot(p, keyTo, c.view[p].slot[key]);
    var x := c.view[p].child[kid];
    c.SetChild(p, kidTo, x);
    c.SetParent(x, c.view[x].parentIndex, kidTo);
  }

  method PlaceLast(c: IndexCache, p: nat, kid: nat, kidTo: nat, ghost d: int)
    requires p in c.view && Sizes(c.view[p]) && kid <= INDEXCOUNT && kidTo <= INDEXCOUNT
    requires var x := c.view[p].child[kid]; x in c.view && x != p && c.view[x].parentPos + d == kidTo
    modifies c`view
    ensures var x := old(c.view)[p].child[kid];
            c.view == Bumped(WithChild(old(c.view), p, kidTo, x), x, d)
  {
    var x := c.view[p].child[kid];
    c.SetChild(p, kidTo, x);
    c.SetParent(x, c.view[x].parentIndex, kidTo);
  }

  method SlideKeys(c: IndexCache, p: nat, l: nat, r: nat, d: int)
    requires p in c.view && Sizes(c.view[p])
    requires d < 0 <= l + d && l <= r <= INDEXCOUNT && KidsIn(c.view, p, l, r)
    requires forall i :: l <= i < r ==> c.view[c.view[p].child[i]].parentPos == i
    modifies c`view
    ensures c.view == MoveView(old(c.view), p, l, r, l, r, d)
  {
    ghost var v := c.view;
    MoveNothing(v, p, l, l, d);
    var cur := l;
    while cur < r
      invariant l <= cur <= r
      invariant c.view == MoveView(v, p, l, cur, l, cur, d)
    {
      var dst: nat := cur + d;
      var k1: nat := cur + 1;
      StepHighKid(v, p, l, cur, k1, dst, l, cur, k1, dst, d);
      assert v[v[p].child[cur]].parentPos == cur;
      Place(c, p, cur, dst, cur, dst, d);
      cur := k1;
    }
  }

  /** The whole window of p down by -d, every child's back-link rewritten. */
  method SlideLeft(c: IndexCache, p: nat, l: nat, r: nat, r1: nat, d: int)
    requires p in c.view && Sizes(c.view[p])
    requires d < 0 <= l + d && l <= r <= INDEXCOUNT && r1 == r + 1 && KidsIn(c.view, p, l, r1)
    requires forall i :: l <= i <= r ==> c.view[c.view[p].child[i]].parentPos == i
    modifies c`view
    ensures c.view == MoveView(old(c.view), p, l, r, l, r1, d)
  {
    ghost var v := c.view;
    SlideKeys(c, p, l, r, d);
    var dst: nat := r + d;
    StepHighLast(v, p, l, r, l, r, r1, dst, d);
    assert v[v[p].child[r]].parentPos == r;
    PlaceLast(c, p, r, dst, d);
  }

  /** The whole window of p up by d, every child's back-link moved along. */
  method SlideRight(c: IndexCache, p: nat, l: nat, r: nat, l1: nat, r1: nat, d: int)
    requires p in c.view && Sizes(c.view[p])
    requires 0 < d && l <= r && r + d <= INDEXCOUNT && l1 == l + 1 && r1 == r + 1 && KidsIn(c.view, p, l, r1)
    modifies c`view
    ensures c.view == MoveView(old(c.view), p, l, r, l, r1, d)
  {
    ghost var v := c.view;
    CopyRightUp(c, p, l, r, l1, r1, d);
    var dst: nat := l + d;
    StepLowLast(v, p, l, r, l, l1, dst, r1, d);
    var x := c.view[p].child[l];
    c.SetChild(p, dst, x);
    c.Bump(x, d);
  }

  /** Every child in [a, b) names p and its own position. */
  ghost predicate Adopted(v: map<nat, IndexPage>, w: map<nat, IndexPage>, p: nat, a: nat, b: nat)
    requires p in v && b <= |v[p].child|
  {
    && w.Keys == v.Keys
    && (forall i :: a <= i < b && v[p].child[i] in v ==>
          w[v[p].child[i]] == v[v[p].child[i]].(parentIndex := p, parentPos := i))
    && (forall c :: c in v && !Held(v[p].child, a, b, c) ==> w[c] == v[c])
  }

  lemma AdoptOne(v: map<nat, IndexPage>, w: map<nat, IndexPage>, p: nat, a: nat, i: nat, i1: nat)
    requires p in v && KidsIn(v, p, a, i1) && a <= i && i1 == i + 1
    requires Adopted(v, w, p, a, i) && w[p] == v[p]
    ensures var w' := WithParent(w, v[p].child[i], p, i);
            Adopted(v, w', p, a, i1) && w'[p] == v[p]
  {
    assert !Held(v[p].child, a, i, v[p].child[i]);
  }

  method Adopt(c: IndexCache, p: nat, a: nat, b: nat)
    requires p in c.view && Sizes(c.view[p]) && KidsIn(c.view, p, a, b)
    modifies c`view
    ensures Adopted(old(c.view), c.view, p, a, b)
  {
    ghost var v := c.view;
    var i := a;
    while i < b
      invariant a <= i <= b
      invariant Adopted(v, c.view, p, a, i) && c.view[p] == v[p]
    {
      var i1: nat := i + 1;
      AdoptOne(v, c.view, p, a, i, i1);
      c.SetParent(c.view[p].child[i], p, i);
      i := i1;
    }
  }
}

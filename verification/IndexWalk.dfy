/** Walking the index in key order: the first entry, the next entry, the first entry not below
    a key, and what a walk has listed. */
module IndexWalk {
  import opened TreeShape
  import opened IndexPages
  import opened Windows
  import opened Coupling
  import opened IndexTree

  /** No key of the tree lies strictly between k and b. */
  ghost predicate Nothing(t: Tree, k: Bound, b: Bound) {
    forall s {:trigger Has(t, s)} :: Has(t, s) && Gt(s.key, k) ==> !Lt(s.key, b)
  }

  /** r is the first key behind k. */
  ghost predicate NextKey(t: Tree, k: Bound, r: Slot) {
    Has(t, r) && Gt(r.key, k) && Nothing(t, k, At(r.key))
  }

  /** Entry j of page p, at pos, holds r. */
  ghost predicate EntryAt(v: Pages, t: Tree, p: nat, pos: nat, j: nat, r: Slot) {
    KeyAt(t, p, j, r) && p in v && pos == v[p].lPos + j && pos < |v[p].slot| && v[p].slot[pos] == r
  }

  lemma EntryHas(v: Pages, t: Tree, p: nat, pos: nat, j: nat, r: Slot)
    requires EntryAt(v, t, p, pos, j, r)
    ensures Has(t, r)
  {
    HasAt(t, p, j, r);
  }

  /** Keys inside the interval of a leaf are keys of that leaf. */
  lemma LeafHolds(t: Tree, p: nat, s: Slot)
    requires Order(t) && p in t.nodes && t.info[p].level == 0 && Has(t, s) && Inside(t.info[p], s.key)
    ensures exists i :: 0 <= i < |t.nodes[p].keys| && t.nodes[p].keys[i] == s
  {
    var c, i := AtOf(t, s);
    assert In(t, c, s);
    Home(t, p, c, s);
  }

  /** The first key of a leaf follows the leaf's lower bound. */
  lemma FirstOfLeaf(t: Tree, p: nat)
    requires Order(t) && p in t.nodes && t.info[p].level == 0 && t.nodes[p].keys != []
    ensures NextKey(t, t.info[p].lo, t.nodes[p].keys[0])
  {
    var r := t.nodes[p].keys[0];
    HasAt(t, p, 0, r);
    assert NodeOk(t, p);
    forall s {:trigger Has(t, s)} | Has(t, s) && Gt(s.key, t.info[p].lo) && s.key < r.key ensures false {
      LeafHolds(t, p, s);
    }
  }

  /** Within a leaf the next entry is the next key. */
  lemma InLeaf(t: Tree, p: nat, j: nat)
    requires Order(t) && p in t.nodes && t.info[p].level == 0 && j + 1 < |t.nodes[p].keys|
    ensures NextKey(t, At(t.nodes[p].keys[j].key), t.nodes[p].keys[j+1])
  {
    var k, r := t.nodes[p].keys[j], t.nodes[p].keys[j+1];
    HasAt(t, p, j + 1, r);
    assert NodeOk(t, p) && Inside(t.info[p], k.key) && Inside(t.info[p], r.key);
    forall s {:trigger Has(t, s)} | Has(t, s) && k.key < s.key < r.key ensures false {
      LeafHolds(t, p, s);
    }
  }

  /** Behind the last entry of a leaf comes what its upper bound names. */
  lemma LastOfLeaf(t: Tree, p: nat, j: nat)
    requires Order(t) && p in t.nodes && t.info[p].level == 0 && j + 1 == |t.nodes[p].keys|
    ensures Nothing(t, At(t.nodes[p].keys[j].key), t.info[p].hi)
    ensures Lt(t.nodes[p].keys[j].key, t.info[p].hi)
  {
    var k := t.nodes[p].keys[j];
    assert NodeOk(t, p) && Inside(t.info[p], k.key);
    forall s {:trigger Has(t, s)} | Has(t, s) && k.key < s.key && Lt(s.key, t.info[p].hi) ensures false {
      LeafHolds(t, p, s);
    }
  }

  /** Every page but an empty root has a first entry. */
  lemma FirstEntry(v: Pages, t: Tree, p: nat)
    requires Order(t) && Coupled(v, t) && Sized(t) && p in t.nodes
    ensures p in v && Sizes(v[p]) && v[p].lPos <= v[p].rPos <= INDEXCOUNT && v[p].rPos == v[p].lPos + |t.nodes[p].keys|
    ensures p != t.root || t.info[p].level > 0 ==> t.nodes[p].keys != []
    ensures var c := v[p].child[v[p].lPos];
            if t.info[p].level == 0 then c == 0
            else c != 0 && c in t.nodes && c != t.root && t.info[c].level < t.info[p].level && t.info[c].lo == t.info[p].lo
    ensures t.nodes[p].keys != [] ==> EntryAt(v, t, p, v[p].lPos, 0, t.nodes[p].keys[0])
  {
    assert PageHeld(v, t, p) && NodeOk(t, p) && SizeOk(t, p);
    assert t.nodes[p].keys != [] ==> v[p].slot[v[p].lPos + 0] == t.nodes[p].keys[0];
    if t.info[p].level > 0 {
      assert KidOk(t, p, 0);
      assert v[p].child[v[p].lPos + 0] == t.nodes[p].kids[0];
    }
  }

  /** The first entry of the subtree of page c; none only when the whole index is empty. */
  method LeftMost(tree: PageTree, c: nat) returns (p: nat, pos: nat, ghost r: Slot)
    requires tree.Valid() && c in tree.t.nodes
    ensures p == 0 ==> c == tree.t.root && tree.t.info[c].level == 0 && tree.t.nodes[c].keys == []
    ensures p != 0 ==> EntryAt(tree.pages.view, tree.t, p, pos, 0, r) && NextKey(tree.t, tree.t.info[c].lo, r)
    ensures p != 0 ==> tree.t.info[p].level == 0
  {
    ghost var v, t := tree.pages.view, tree.t;
    p, r := c, NO_SLOT;
    FirstEntry(v, t, p);
    while tree.pages.view[p].child[tree.pages.view[p].lPos] != 0
      invariant p in t.nodes && (p == t.root ==> p == c) && t.info[p].lo == t.info[c].lo && p in v && Sizes(v[p]) && v[p].lPos <= INDEXCOUNT
      decreases t.info[p].level
    {
      FirstEntry(v, t, p);
      p := tree.pages.view[p].child[tree.pages.view[p].lPos];
      FirstEntry(v, t, p);
    }
    FirstEntry(v, t, p);
    pos := tree.pages.view[p].lPos;
    if pos < tree.pages.view[p].rPos {
      r := t.nodes[p].keys[0];
      FirstOfLeaf(t, p);
    } else {
      p := 0;
    }
  }

  lemma EntryShown(v: Pages, t: Tree, p: nat, j: nat, r: Slot)
    requires Coupled(v, t) && KeyAt(t, p, j, r)
    ensures p in v && v[p].rPos == v[p].lPos + |t.nodes[p].keys| && EntryAt(v, t, p, v[p].lPos + j, j, r)
  {
    assert PageHeld(v, t, p);
  }

  /** The child behind entry j covers the gap behind its key. */
  lemma RightKid(v: Pages, t: Tree, p: nat, pos: nat, j: nat, r: Slot)
    requires Order(t) && Coupled(v, t) && EntryAt(v, t, p, pos, j, r)
    ensures pos + 1 < |v[p].child|
    ensures var c := v[p].child[pos + 1];
            if t.info[p].level == 0 then c == 0
            else c != 0 && c in t.nodes && c != t.root && t.info[c].lo == At(r.key)
  {
    assert PageHeld(v, t, p) && NodeOk(t, p);
    if t.info[p].level > 0 {
      assert KidOk(t, p, j + 1);
      assert v[p].child[v[p].lPos + (j + 1)] == t.nodes[p].kids[j + 1];
    }
  }

  /** The bound above page c is the key its back-link leads to, or lies further up. */
  lemma UpperBound(v: Pages, t: Tree, c: nat) returns (q: nat, i: nat)
    requires Order(t) && Coupled(v, t) && c in t.nodes && c != t.root
    ensures q in t.nodes && q in v && q != 0 && v[c].parentIndex == q && v[c].parentPos == v[q].lPos + i
    ensures v[q].rPos == v[q].lPos + |t.nodes[q].keys| && i <= |t.nodes[q].keys|
    ensures t.info[q].level == t.info[c].level + 1 <= t.info[t.root].level
    ensures t.info[c].hi == if i < |t.nodes[q].keys| then At(t.nodes[q].keys[i].key) else t.info[q].hi
  {
    q, i := ParentFound(v, t, c);
    assert KidOk(t, q, i);
  }

  /** The entry behind entry pos of page p, if there is one. */
  method Next(tree: PageTree, p: nat, pos: nat, ghost j: nat, ghost k: Slot) returns (q: nat, at: nat, ghost i: nat, ghost r: Slot)
    requires tree.Valid() && EntryAt(tree.pages.view, tree.t, p, pos, j, k)
    ensures q == 0 ==> Nothing(tree.t, At(k.key), PosInf)
    ensures q != 0 ==> EntryAt(tree.pages.view, tree.t, q, at, i, r) && NextKey(tree.t, At(k.key), r)
  {
    ghost var v, t := tree.pages.view, tree.t;
    at, i, r := 0, 0, k;
    RightKid(v, t, p, pos, j, k);
    if tree.pages.view[p].child[pos + 1] != 0 {
      q, at, r := LeftMost(tree, tree.pages.view[p].child[pos + 1]);
      return;
    }
    EntryShown(v, t, p, j, k);
    if pos + 1 < tree.pages.view[p].rPos {
      q, at, i, r := p, pos + 1, j + 1, t.nodes[p].keys[j+1];
      InLeaf(t, p, j);
      EntryShown(v, t, p, i, r);
      return;
    }
    LastOfLeaf(t, p, j);
    var c := p;
    ParentOrRoot(v, t, c);
    while tree.pages.view[c].parentIndex != 0
      invariant c in t.nodes && c in v && (v[c].parentIndex == 0 <==> c == t.root)
      invariant Nothing(t, At(k.key), t.info[c].hi) && Lt(k.key, t.info[c].hi)
      invariant t.info[c].level <= t.info[t.root].level
      decreases t.info[t.root].level - t.info[c].level
    {
      ghost var b;
      b, i := UpperBound(v, t, c);
      q := tree.pages.view[c].parentIndex;
      at := tree.pages.view[c].parentPos;
      if at < tree.pages.view[q].rPos {
        r := t.nodes[q].keys[i];
        EntryShown(v, t, q, i, r);
        EntryHas(v, t, q, at, i, r);
        return;
      }
      c := q;
      ParentOrRoot(v, t, c);
    }
    q := 0;
  }

  /** What precedes a free place in a leaf is followed by what is above the key of that place. */
  lemma AbovePlace(t: Tree, p: nat, j: nat, key: real, r: Slot)
    requires Order(t) && Fits(t, p, j, key) && 0 < j && NextKey(t, At(t.nodes[p].keys[j-1].key), r)
    requires j == |t.nodes[p].keys|
    ensures key < r.key && Nothing(t, At(key), At(r.key))
  {
    var k := t.nodes[p].keys[j-1];
    assert NodeOk(t, p) && Inside(t.info[p], k.key);
    if r.key <= key { LeafHolds(t, p, r); }
  }

  /** No key of the tree in [key, b). */
  ghost predicate NothingFrom(t: Tree, key: real, b: Bound) {
    forall s {:trigger Has(t, s)} :: Has(t, s) && key <= s.key ==> !Lt(s.key, b)
  }

  lemma FreePlace(t: Tree, p: nat, j: nat, key: real)
    requires Order(t) && Fits(t, p, j, key)
    ensures j < |t.nodes[p].keys| ==> NothingFrom(t, key, At(t.nodes[p].keys[j].key))
    ensures forall s {:trigger Has(t, s)} :: Has(t, s) ==> s.key != key
  {
    assert NodeOk(t, p);
    forall s {:trigger Has(t, s)} | Has(t, s) ensures s.key != key {
      if s.key == key { NotThere(t, p, j, key, s); }
    }
    if j < |t.nodes[p].keys| {
      var r := t.nodes[p].keys[j];
      assert Inside(t.info[p], r.key);
      forall s {:trigger Has(t, s)} | Has(t, s) && key <= s.key < r.key ensures false {
        LeafHolds(t, p, s);
      }
    }
  }

  lemma EmptyHas(t: Tree)
    requires Order(t) && t.info[t.root].level == 0 && t.nodes[t.root].keys == []
    ensures forall s {:trigger Has(t, s)} :: !Has(t, s)
  {
    forall c | c in t.nodes ensures c == t.root {
      if c != t.root { var q, i := Climb(t, c); }
    }
    forall s {:trigger Has(t, s)} ensures !Has(t, s) {
      if Has(t, s) { var c, i := AtOf(t, s); }
    }
  }

  /** What a search for a key finds: the entry with it (cmp is 0), or its place in a leaf; or no
      entry at all, in an empty tree. */
  ghost predicate Sought(v: Pages, t: Tree, some: bool, p: nat, pos: nat, cmp: int, j: nat, key: real) {
    p in t.nodes && p in t.info &&
    if !some then p == t.root && t.info[p].level == 0 && t.nodes[p].keys == []
    else
      && p in v && pos == v[p].lPos + j && j <= |t.nodes[p].keys| && t.nodes[p].keys != []
      && if cmp == 0 then j < |t.nodes[p].keys| && t.nodes[p].keys[j].key == key else Fits(t, p, j, key)
  }

  /** The first entry whose key is not below the one searched for, if there is one. */
  method GreatEqual(tree: PageTree, some: bool, p: nat, pos: nat, cmp: int, ghost j: nat, ghost key: real)
    returns (q: nat, at: nat, ghost i: nat, ghost r: Slot)
    requires tree.Valid() && Sought(tree.pages.view, tree.t, some, p, pos, cmp, j, key)
    ensures q == 0 ==> NothingFrom(tree.t, key, PosInf)
    ensures q != 0 ==> EntryAt(tree.pages.view, tree.t, q, at, i, r) && key <= r.key && NothingFrom(tree.t, key, At(r.key))
  {
    ghost var v, t := tree.pages.view, tree.t;
    at, i, r := pos, j, NO_SLOT;
    if !some {
      q := 0;
      EmptyHas(t);
      return;
    }
    KeysShown(v, t, p);
    if pos == tree.pages.view[p].rPos {
      FreePlace(t, p, j, key);
      ghost var k := t.nodes[p].keys[j-1];
      EntryShown(v, t, p, j - 1, k);
      q, at, i, r := Next(tree, p, pos - 1, j - 1, k);
      if q != 0 { AbovePlace(t, p, j, key, r); }
    } else {
      q, r := p, t.nodes[p].keys[j];
      EntryShown(v, t, p, j, r);
      if cmp != 0 { FreePlace(t, p, j, key); }
      EntryHas(v, t, p, pos, j, r);
    }
  }

  // ---------------------------------------------------------------- whole walks

  ghost function AllSlots(t: Tree): set<Slot> {
    set p, i | p in t.nodes && 0 <= i < |t.nodes[p].keys| :: t.nodes[p].keys[i]
  }

  lemma SlotsHas(t: Tree, s: Slot)
    ensures s in AllSlots(t) <==> Has(t, s)
  {
    if Has(t, s) { var p, i := AtOf(t, s); }
    if s in AllSlots(t) {
      var p, i :| p in t.nodes && 0 <= i < |t.nodes[p].keys| && t.nodes[p].keys[i] == s;
      HasAt(t, p, i, s);
    }
  }

  /** A strictly ascending list of keys of the tree is no longer than the tree has keys. */
  lemma {:induction false} WalkFits(out: seq<Slot>, all: set<Slot>)
    requires Sorted(out) && forall i :: 0 <= i < |out| ==> out[i] in all
    ensures |out| <= |all|
    decreases |out|
  {
    if out != [] {
      var n := |out| - 1;
      assert forall i :: 0 <= i < n ==> out[i].key < out[n].key;
      WalkFits(out[..n], all - {out[n]});
    }
  }

  /** out lists, in strictly ascending order, exactly the keys of the tree from key `from` to below b. */
  ghost predicate Listed(t: Tree, out: seq<Slot>, from: Bound, b: Bound) {
    && Sorted(out)
    && forall s {:trigger Has(t, s)} {:trigger s in out} :: s in out <==> Has(t, s) && !Lt(s.key, from) && Lt(s.key, b)
  }

  /** Equal keys are one entry. */
  lemma SameEntry(t: Tree, a: Slot, b: Slot)
    requires Order(t) && Has(t, a) && Has(t, b) && a.key == b.key
    ensures a == b
  {
    var p, i := AtOf(t, a);
    var q, j := AtOf(t, b);
    assert In(t, p, a) && In(t, q, b);
    OneHome(t, p, q, a, b);
  }

  /** A listing goes on with the key at its end, up to the next one. */
  lemma OneFurther(t: Tree, out: seq<Slot>, from: Bound, r: Slot, b: Bound)
    requires Order(t) && Has(t, r) && Listed(t, out, from, At(r.key)) && !Lt(r.key, from)
    requires Nothing(t, At(r.key), b) && Lt(r.key, b)
    ensures Listed(t, out + [r], from, b) && |out| < |AllSlots(t)|
  {
    var all := out + [r];
    forall i | 0 <= i < |out| ensures out[i].key < r.key && Has(t, out[i]) { assert out[i] in out; }
    forall s {:trigger Has(t, s)} ensures s in all <==> Has(t, s) && !Lt(s.key, from) && Lt(s.key, b) {
      if Has(t, s) && s.key == r.key { SameEntry(t, s, r); }
      if s in out { assert Has(t, s) && s.key < r.key; }
      if s in all { assert s in out || s == r; }
    }
    forall i | 0 <= i < |all| ensures all[i] in AllSlots(t) { SlotsHas(t, all[i]); }
    WalkFits(all, AllSlots(t));
  }

  lemma Stopped(t: Tree, out: seq<Slot>, from: Bound)
    requires Order(t) && out != [] && var last := out[|out| - 1];
             Has(t, last) && !Lt(last.key, from) && Listed(t, out[..|out| - 1], from, At(last.key))
    ensures Sorted(out) && forall x :: 0 <= x < |out| ==> Has(t, out[x]) && !Lt(out[x].key, from)
    ensures forall s {:trigger Has(t, s)} :: Has(t, s) && !Lt(s.key, from) && s.key <= out[|out| - 1].key ==> s in out
  {
    var n := |out| - 1;
    var front := out[..n];
    forall x | 0 <= x < n ensures Has(t, out[x]) && out[x].key < out[n].key && !Lt(out[x].key, from) {
      assert front[x] == out[x] && front[x] in front;
    }
    forall s {:trigger Has(t, s)} | Has(t, s) && !Lt(s.key, from) && s.key <= out[n].key ensures s in out {
      if s.key == out[n].key { SameEntry(t, s, out[n]); } else { assert s in front; }
    }
    forall x, y | 0 <= x < y < |out| ensures out[x].key < out[y].key {
      if y < n { assert front[x].key < front[y].key; }
    }
  }

  lemma Complete(t: Tree, out: seq<Slot>, from: Bound)
    requires Listed(t, out, from, PosInf)
    ensures forall x :: 0 <= x < |out| ==> Has(t, out[x]) && !Lt(out[x].key, from)
    ensures forall s :: s in out <==> Has(t, s) && !Lt(s.key, from)
  {
    forall x | 0 <= x < |out| ensures Has(t, out[x]) && !Lt(out[x].key, from) { assert out[x] in out; }
  }
}

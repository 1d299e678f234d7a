/** How deep the index can be: the pages are filled so far that the number of entries grows as a
    power of its depth, and a search reads few pages. */
module IndexDepth {
  import opened TreeShape
  import opened IndexPages
  import opened IndexTree
  import opened IndexWalk

  function Power(b: nat, n: nat): nat {
    if n == 0 then 1 else b * Power(b, n - 1)
  }

  /** One less than the entries that a subtree of this height has at least, and one place more than
      that for a search to end at. */
  function Places(level: nat): nat {
    Power(INDEXMINR + 1, level + 1)
  }

  /** Entries of the tree inside the interval x, in order. */
  ghost predicate Within(t: Tree, out: seq<Slot>, x: Info) {
    Sorted(out) && forall i {:trigger out[i]} :: 0 <= i < |out| ==> Has(t, out[i]) && Inside(x, out[i].key)
  }

  /** The interval of the first i + 1 children of p. */
  function UpToKid(n: Node, x: Info, i: nat): Info
    requires i <= |n.keys| && x.level > 0
  {
    Info(x.level, x.lo, KidInfo(n, x, i).hi)
  }

  lemma Joined(t: Tree, n: Node, x: Info, i: nat, j: nat, a: seq<Slot>, b: seq<Slot>)
    requires KeysOk(n, x) && x.level > 0 && 0 < i <= |n.keys| && i == j + 1 && Has(t, n.keys[j])
    requires Within(t, a, UpToKid(n, x, j)) && Within(t, b, KidInfo(n, x, i))
    ensures Within(t, a + [n.keys[j]] + b, UpToKid(n, x, i))
  {
    var s, out := n.keys[j], a + [n.keys[j]] + b;
    assert Inside(x, s.key) && (i < |n.keys| ==> s.key < n.keys[i].key && Inside(x, n.keys[i].key));
    forall k {:trigger out[k]} | 0 <= k < |out|
      ensures Has(t, out[k]) && Inside(UpToKid(n, x, i), out[k].key)
      ensures k < |a| ==> out[k] == a[k] && out[k].key < s.key
      ensures k > |a| ==> out[k] == b[k - |a| - 1] && out[k].key > s.key
    {
      if k < |a| { assert out[k] == a[k]; } else if k > |a| { assert out[k] == b[k - |a| - 1]; }
    }
  }

  /** The entries of the first i + 1 children of p and between them. */
  lemma {:induction false} OfKids(t: Tree, p: nat, i: nat) returns (out: seq<Slot>)
    requires Order(t) && Sized(t) && p in t.nodes && p in t.info && t.info[p].level > 0 && i <= |t.nodes[p].keys|
    ensures Within(t, out, UpToKid(t.nodes[p], t.info[p], i)) && |out| + 1 >= (i + 1) * Places(t.info[p].level - 1)
    decreases t.info[p].level, 0, i
  {
    var n, x := t.nodes[p], t.info[p];
    assert NodeOk(t, p);
    assert KidOk(t, p, i);
    var b := OfPage(t, n.kids[i]);
    if i == 0 {
      out := b;
    } else {
      var j := i - 1;
      var a := OfKids(t, p, j);
      assert In(t, p, n.keys[j]);
      Joined(t, n, x, i, j, a, b);
      out := a + [n.keys[j]] + b;
      assert (i + 1) * Places(x.level - 1) == i * Places(x.level - 1) + Places(x.level - 1);
    }
  }

  /** The entries of a page other than the root and below it. */
  lemma {:induction false} OfPage(t: Tree, p: nat) returns (out: seq<Slot>)
    requires Order(t) && Sized(t) && p in t.nodes && p in t.info && p != t.root
    ensures Within(t, out, t.info[p]) && |out| + 1 >= Places(t.info[p].level)
    decreases t.info[p].level, 1
  {
    var n, x := t.nodes[p], t.info[p];
    assert NodeOk(t, p) && SizeOk(t, p);
    if x.level == 0 {
      out := n.keys;
      forall i {:trigger out[i]} | 0 <= i < |out| ensures Has(t, out[i]) { assert In(t, p, out[i]); }
      assert Power(INDEXMINR + 1, 1) == (INDEXMINR + 1) * Power(INDEXMINR + 1, 0);
    } else {
      out := OfKids(t, p, |n.keys|);
      More(INDEXMINR + 1, |n.keys| + 1, Places(x.level - 1));
    }
  }

  lemma More(a: nat, b: nat, c: nat)
    requires a <= b
    ensures a * c <= b * c
  {
  }

  /** A tree whose leaves lie n levels below the root has 2 * (INDEXMINR + 1)^n - 1 entries at least. */
  lemma Depth(t: Tree)
    requires Order(t) && Sized(t) && t.root in t.info && t.info[t.root].level > 0
    ensures |AllSlots(t)| + 1 >= 2 * Power(INDEXMINR + 1, t.info[t.root].level)
  {
    var p := t.root;
    assert NodeOk(t, p) && SizeOk(t, p);
    var out := OfKids(t, p, |t.nodes[p].keys|);
    More(2, |t.nodes[p].keys| + 1, Places(t.info[p].level - 1));
    forall i | 0 <= i < |out| ensures out[i] in AllSlots(t) { SlotsHas(t, out[i]); }
    WalkFits(out, AllSlots(t));
  }
}

/** The shape and order of the index tree, on values.

    An index page is seen here as the keys and child pages inside its window and the page
    it names as its parent.  A ghost `Info` gives each page its level above the leaves and the
    open key interval its subtree occupies.  All conditions are local to one page and its
    children, so an operation that rewrites three pages has three pages to check. */
module TreeShape {
  import opened Common

  /** One entry of an index page: the first bytes of its key, their number if that is all of the
      key, and the place of the record.  `key` stands for the whole key, by its rank in the order
      of keys (module KeyOrder): what is said of the tree is said of it, the search does not read
      it. */
  datatype Slot = Slot(key: real, head: Bytes, len: nat, recPage: nat, recPos: nat)

  datatype Node = Node(keys: seq<Slot>, kids: seq<nat>, up: nat)

  datatype Bound = NegInf | At(k: real) | PosInf

  datatype Info = Info(level: nat, lo: Bound, hi: Bound)

  datatype Tree = Tree(nodes: map<nat, Node>, info: map<nat, Info>, root: nat)

  predicate Gt(k: real, b: Bound) {
    match b case NegInf => true case At(x) => x < k case PosInf => false
  }

  predicate Lt(k: real, b: Bound) {
    match b case NegInf => false case At(x) => k < x case PosInf => true
  }

  /** k lies strictly between the bounds. */
  predicate Inside(x: Info, k: real) {
    Gt(k, x.lo) && Lt(k, x.hi)
  }

  ghost predicate Sorted(s: seq<Slot>) {
    forall i, j :: 0 <= i < j < |s| ==> s[i].key < s[j].key
  }

  /** What the i-th child of a page must look like. */
  function KidInfo(n: Node, x: Info, i: nat): Info
    requires i <= |n.keys| && x.level > 0
  {
    Info(x.level - 1,
         if i == 0 then x.lo else At(n.keys[i-1].key),
         if i == |n.keys| then x.hi else At(n.keys[i].key))
  }

  ghost predicate KidOk(t: Tree, p: nat, i: nat)
    requires p in t.nodes && p in t.info && t.info[p].level > 0
    requires i < |t.nodes[p].kids| == |t.nodes[p].keys| + 1
  {
    var c := t.nodes[p].kids[i];
    && c in t.nodes && c in t.info && c != t.root
    && t.nodes[c].up == p
    && t.info[c] == KidInfo(t.nodes[p], t.info[p], i)
  }

  /** The part of a page's invariant that mentions no other page. */
  ghost predicate KeysOk(n: Node, x: Info) {
    && Sorted(n.keys)
    && (forall i :: 0 <= i < |n.keys| ==> Inside(x, n.keys[i].key))
    && |n.kids| == if x.level == 0 then 0 else |n.keys| + 1
  }

  ghost predicate NodeOk(t: Tree, p: nat) {
    && p in t.nodes && p in t.info
    && KeysOk(t.nodes[p], t.info[p])
    && forall i :: 0 <= i < |t.nodes[p].kids| ==> KidOk(t, p, i)
  }

  /** c is one of the child pages from position `from` on. */
  ghost predicate Among(kids: seq<nat>, from: nat, c: nat) {
    exists i :: from <= i < |kids| && kids[i] == c
  }

  ghost predicate UpOk(t: Tree, p: nat) {
    && p in t.nodes && p in t.info && t.root in t.info
    && t.nodes[p].up in t.nodes
    && Among(t.nodes[t.nodes[p].up].kids, 0, p)
    && t.info[p].level < t.info[t.root].level
  }

  /** The search tree: one root, all leaves at level 0, keys in strict order across pages,
      every page but the root the child of exactly the page it names. */
  ghost predicate Order(t: Tree) {
    && t.root in t.nodes
    && 0 !in t.nodes
    && t.nodes.Keys == t.info.Keys
    && t.nodes[t.root].up == 0
    && t.info[t.root].lo == NegInf && t.info[t.root].hi == PosInf
    && (forall p {:trigger NodeOk(t, p)} :: p in t.nodes ==> NodeOk(t, p))
    && (forall p {:trigger UpOk(t, p)} :: p in t.nodes && p != t.root ==> UpOk(t, p))
  }

  ghost predicate In(t: Tree, p: nat, s: Slot) {
    p in t.nodes && exists i :: 0 <= i < |t.nodes[p].keys| && t.nodes[p].keys[i] == s
  }

  /** s is stored somewhere in the tree. */
  ghost predicate Has(t: Tree, s: Slot) {
    exists p :: In(t, p, s)
  }

  // ---------------------------------------------------------------- climbing

  /** The parent of p is one level up and its interval encloses that of p. */
  lemma Climb(t: Tree, p: nat) returns (q: nat, i: nat)
    requires Order(t) && p in t.nodes && p != t.root
    ensures q in t.nodes && q == t.nodes[p].up && i < |t.nodes[q].kids| && t.nodes[q].kids[i] == p
    ensures NodeOk(t, q) && t.info[q].level == t.info[p].level + 1 <= t.info[t.root].level
    ensures KidOk(t, q, i)
    ensures forall k :: Inside(t.info[p], k) ==> Inside(t.info[q], k)
  {
    assert UpOk(t, p);
    q := t.nodes[p].up;
    assert NodeOk(t, q);
    i :| 0 <= i < |t.nodes[q].kids| && t.nodes[q].kids[i] == p;
    assert KidOk(t, q, i);
  }

  /** A way down from the root, child by child. */
  ghost predicate WayDown(t: Tree, way: seq<nat>) {
    && way != []
    && var n := |way| - 1;
       if n == 0 then way[0] == t.root
       else WayDown(t, way[..n]) && way[n - 1] in t.nodes && way[n] in t.nodes[way[n - 1]].kids
  }

  /** Every page of the tree is reached from the root. */
  lemma {:induction false} Reached(t: Tree, p: nat) returns (way: seq<nat>)
    requires Order(t) && p in t.nodes
    ensures WayDown(t, way) && way[|way| - 1] == p
    decreases t.info[t.root].level - t.info[p].level
  {
    if p == t.root {
      way := [p];
    } else {
      var q, i := Climb(t, p);
      var front := Reached(t, q);
      way := front + [p];
      assert way[..|front|] == front && way[|front| - 1] == q;
    }
  }

  lemma KidsApart(t: Tree, p: nat)
    requires NodeOk(t, p)
    ensures var kids := t.nodes[p].kids;
            && (forall i :: 0 <= i < |kids| ==> kids[i] in t.nodes && t.nodes[kids[i]].up == p && kids[i] != t.root)
            && (forall i, j :: 0 <= i < j < |kids| ==> kids[i] != kids[j])
  {
    var kids := t.nodes[p].kids;
    forall i | 0 <= i < |kids| ensures kids[i] in t.nodes && t.nodes[kids[i]].up == p && kids[i] != t.root {
      assert KidOk(t, p, i);
    }
    forall i, j | 0 <= i < j < |kids| ensures kids[i] != kids[j] {
      assert KidOk(t, p, i) && KidOk(t, p, j);
    }
  }

  /** Intervals on one level are disjoint. */
  lemma {:induction false} Disjoint(t: Tree, p: nat, q: nat, k: real)
    requires Order(t) && p in t.nodes && q in t.nodes
    requires t.info[p].level == t.info[q].level
    requires Inside(t.info[p], k) && Inside(t.info[q], k)
    ensures p == q
    decreases t.info[t.root].level - t.info[p].level
  {
    if p == t.root || q == t.root {
      assert (p != t.root ==> UpOk(t, p)) && (q != t.root ==> UpOk(t, q));
    } else {
      var a, i := Climb(t, p);
      var b, j := Climb(t, q);
      Disjoint(t, a, b, k);
    }
  }

  /** A key strictly inside the interval of c is stored in c or below it. */
  lemma {:induction false} Home(t: Tree, c: nat, p: nat, s: Slot)
    requires Order(t) && c in t.nodes && In(t, p, s)
    requires Inside(t.info[c], s.key) && t.info[c].level <= t.info[p].level
    ensures c == p
    decreases t.info[t.root].level - t.info[c].level
  {
    assert NodeOk(t, p);
    if t.info[c].level == t.info[p].level {
      Disjoint(t, c, p, s.key);
    } else {
      assert p != t.root ==> UpOk(t, p);
      var q, i := Climb(t, c);
      Home(t, q, p, s);
    }
  }

  /** No key is stored twice. */
  lemma OneHome(t: Tree, p: nat, q: nat, s: Slot, r: Slot)
    requires Order(t) && In(t, p, s) && In(t, q, r) && s.key == r.key
    ensures p == q && s == r
  {
    assert NodeOk(t, p) && NodeOk(t, q);
    if t.info[p].level <= t.info[q].level {
      Home(t, p, q, r);
    } else {
      Home(t, q, p, s);
    }
  }

  // ---------------------------------------------------------------- rewriting steps

  /** The child pages from position `from` on now name `up` as their parent. */
  ghost function Reparent(nodes: map<nat, Node>, kids: seq<nat>, from: nat, up: nat): map<nat, Node> {
    map c | c in nodes :: if Among(kids, from, c) then nodes[c].(up := up) else nodes[c]
  }

  /** The child list in front of key m, and the one behind it; a leaf has none. */
  function KidsBefore(kids: seq<nat>, m: nat): seq<nat>
    requires kids == [] || m < |kids|
  { if kids == [] then [] else kids[..m+1] }

  function KidsAfter(kids: seq<nat>, m: nat): seq<nat>
    requires kids == [] || m < |kids|
  { if kids == [] then [] else kids[m+1..] }

  /** p, the j-th child of q, gives its keys behind the m-th to the new page s and its m-th
      key to q. */
  ghost function SplitTree(t: Tree, p: nat, s: nat, q: nat, j: nat, m: nat): Tree
    requires p in t.nodes && q in t.nodes && p in t.info
    requires m < |t.nodes[p].keys| && (t.nodes[p].kids == [] || |t.nodes[p].kids| == |t.nodes[p].keys| + 1)
    requires j <= |t.nodes[q].keys| && j < |t.nodes[q].kids|
  {
    var n, a, x := t.nodes[p], t.nodes[q], t.info[p];
    var mid := n.keys[m];
    t.(nodes := Reparent(t.nodes, n.kids, m + 1, s)
         [p := Node(n.keys[..m], KidsBefore(n.kids, m), q)]
         [s := Node(n.keys[m+1..], KidsAfter(n.kids, m), q)]
         [q := Node(a.keys[..j] + [mid] + a.keys[j..], a.kids[..j] + [p, s] + a.kids[j+1..], a.up)],
       info := t.info[p := x.(hi := At(mid.key))][s := x.(lo := At(mid.key))])
  }

  ghost predicate SplitPre(t: Tree, p: nat, s: nat, q: nat, j: nat, m: nat) {
    && Order(t) && p in t.nodes && q in t.nodes && s !in t.nodes && s != 0
    && p != t.root && t.nodes[p].up == q
    && NodeOk(t, p) && NodeOk(t, q) && t.info[q].level > 0
    && m < |t.nodes[p].keys|
    && j < |t.nodes[q].kids| && t.nodes[q].kids[j] == p
  }

  lemma SplitKeys(n: Node, a: Node, x: Info, y: Info, j: nat, m: nat, p: nat, s: nat, q: nat)
    requires KeysOk(n, x) && KeysOk(a, y) && m < |n.keys| && j < |a.kids|
    requires y.level == x.level + 1 && x == KidInfo(a, y, j)
    ensures var mid := n.keys[m];
            && KeysOk(Node(n.keys[..m], KidsBefore(n.kids, m), q), x.(hi := At(mid.key)))
            && KeysOk(Node(n.keys[m+1..], KidsAfter(n.kids, m), q), x.(lo := At(mid.key)))
            && KeysOk(Node(a.keys[..j] + [mid] + a.keys[j..], a.kids[..j] + [p, s] + a.kids[j+1..], a.up), y)
  {
    var k := a.keys[..j] + [n.keys[m]] + a.keys[j..];
    assert forall i :: 0 <= i < |k| ==> k[i] == if i < j then a.keys[i] else if i == j then n.keys[m] else a.keys[i-1];
  }

  lemma SplitKidOther(t: Tree, p: nat, s: nat, q: nat, j: nat, m: nat, c: nat, i: nat)
    requires SplitPre(t, p, s, q, j, m) && c != q && c != s
    requires c in t.nodes && i < |SplitTree(t, p, s, q, j, m).nodes[c].kids|
    requires KeysOk(SplitTree(t, p, s, q, j, m).nodes[c], SplitTree(t, p, s, q, j, m).info[c])
    ensures KidOk(SplitTree(t, p, s, q, j, m), c, i)
  {
    KidsApart(t, p);
    assert KidOk(t, q, j) && NodeOk(t, c) && KidOk(t, c, i);
  }

  lemma SplitKidNew(t: Tree, p: nat, s: nat, q: nat, j: nat, m: nat, i: nat)
    requires SplitPre(t, p, s, q, j, m)
    requires i < |SplitTree(t, p, s, q, j, m).nodes[s].kids|
    requires KeysOk(SplitTree(t, p, s, q, j, m).nodes[s], SplitTree(t, p, s, q, j, m).info[s])
    ensures KidOk(SplitTree(t, p, s, q, j, m), s, i)
  {
    KidsApart(t, p);
    assert KidOk(t, q, j) && KidOk(t, p, m + 1 + i);
  }

  lemma SplitKidParent(t: Tree, p: nat, s: nat, q: nat, j: nat, m: nat, i: nat)
    requires SplitPre(t, p, s, q, j, m)
    requires i < |SplitTree(t, p, s, q, j, m).nodes[q].kids|
    requires KeysOk(SplitTree(t, p, s, q, j, m).nodes[q], SplitTree(t, p, s, q, j, m).info[q])
    ensures KidOk(SplitTree(t, p, s, q, j, m), q, i)
  {
    KidsApart(t, p);
    assert KidOk(t, q, j);
    if i != j && i != j + 1 { assert KidOk(t, q, if i < j then i else i - 1); }
  }

  lemma SplitNodes(t: Tree, p: nat, s: nat, q: nat, j: nat, m: nat, c: nat)
    requires SplitPre(t, p, s, q, j, m) && (c in t.nodes || c == s)
    ensures NodeOk(SplitTree(t, p, s, q, j, m), c)
  {
    var t' := SplitTree(t, p, s, q, j, m);
    assert KidOk(t, q, j);
    SplitKeys(t.nodes[p], t.nodes[q], t.info[p], t.info[q], j, m, p, s, q);
    assert c in t.nodes ==> NodeOk(t, c);
    assert KeysOk(t'.nodes[c], t'.info[c]);
    forall i | 0 <= i < |t'.nodes[c].kids| ensures KidOk(t', c, i) {
      if c == s { SplitKidNew(t, p, s, q, j, m, i); }
      else if c == q { SplitKidParent(t, p, s, q, j, m, i); }
      else { SplitKidOther(t, p, s, q, j, m, c, i); }
    }
  }

  lemma SplitUpsKid(t: Tree, p: nat, s: nat, q: nat, j: nat, m: nat, i: nat)
    requires SplitPre(t, p, s, q, j, m) && i < |t.nodes[p].kids|
    requires UpOk(t, t.nodes[p].kids[i])
    ensures UpOk(SplitTree(t, p, s, q, j, m), t.nodes[p].kids[i])
  {
    var t' := SplitTree(t, p, s, q, j, m);
    KidsApart(t, p);
    assert KidOk(t, q, j) && KidOk(t, p, i);
    assert if i > m then t'.nodes[s].kids[i-m-1] == t.nodes[p].kids[i] else t'.nodes[p].kids[i] == t.nodes[p].kids[i];
  }

  lemma SplitUpsOther(t: Tree, p: nat, s: nat, q: nat, j: nat, m: nat, c: nat)
    requires SplitPre(t, p, s, q, j, m) && c in t.nodes && c != t.root && c != p
    ensures UpOk(SplitTree(t, p, s, q, j, m), c)
  {
    assert UpOk(t, c);
    var b, i := Climb(t, c);
    if b == p {
      SplitUpsKid(t, p, s, q, j, m, i);
    } else {
      var t' := SplitTree(t, p, s, q, j, m);
      KidsApart(t, p);
      assert t'.nodes[c].up == b;
      assert t'.nodes[b].kids[if b == q && i > j then i + 1 else i] == c;
    }
  }

  lemma SplitUps(t: Tree, p: nat, s: nat, q: nat, j: nat, m: nat, c: nat)
    requires SplitPre(t, p, s, q, j, m) && (c in t.nodes || c == s) && c != t.root
    ensures UpOk(SplitTree(t, p, s, q, j, m), c)
  {
    if c == p || c == s {
      var t' := SplitTree(t, p, s, q, j, m);
      KidsApart(t, p);
      assert KidOk(t, q, j) && UpOk(t, p);
      assert t'.nodes[q].kids[j] == p && t'.nodes[q].kids[j+1] == s;
    } else {
      SplitUpsOther(t, p, s, q, j, m, c);
    }
  }

  lemma SplitOrder(t: Tree, p: nat, s: nat, q: nat, j: nat, m: nat)
    requires SplitPre(t, p, s, q, j, m)
    ensures Order(SplitTree(t, p, s, q, j, m))
  {
    var t' := SplitTree(t, p, s, q, j, m);
    KidsApart(t, p);
    forall c {:trigger NodeOk(t', c)} | c in t'.nodes ensures NodeOk(t', c) { SplitNodes(t, p, s, q, j, m, c); }
    forall c {:trigger UpOk(t', c)} | c in t'.nodes && c != t'.root ensures UpOk(t', c) { SplitUps(t, p, s, q, j, m, c); }
  }

  ghost predicate KeyAt(t: Tree, p: nat, i: nat, r: Slot) {
    p in t.nodes && i < |t.nodes[p].keys| && t.nodes[p].keys[i] == r
  }

  lemma HasAt(t: Tree, p: nat, i: nat, r: Slot)
    requires KeyAt(t, p, i, r)
    ensures Has(t, r)
  {
    assert In(t, p, r);
  }

  lemma AtOf(t: Tree, r: Slot) returns (p: nat, i: nat)
    requires Has(t, r)
    ensures KeyAt(t, p, i, r)
  {
    p :| In(t, p, r);
    i :| 0 <= i < |t.nodes[p].keys| && t.nodes[p].keys[i] == r;
  }

  ghost predicate SplitShape(t: Tree, p: nat, s: nat, q: nat, j: nat, m: nat) {
    && p in t.nodes && q in t.nodes && p in t.info && p != q && s !in t.nodes
    && m < |t.nodes[p].keys| && (t.nodes[p].kids == [] || |t.nodes[p].kids| == |t.nodes[p].keys| + 1)
    && j <= |t.nodes[q].keys| && j < |t.nodes[q].kids|
  }

  /** Splitting neither adds nor loses a key. */
  lemma SplitHas(t: Tree, p: nat, s: nat, q: nat, j: nat, m: nat, r: Slot)
    requires SplitShape(t, p, s, q, j, m)
    ensures Has(SplitTree(t, p, s, q, j, m), r) <==> Has(t, r)
  {
    var t' := SplitTree(t, p, s, q, j, m);
    if Has(t, r) {
      var c, i := AtOf(t, r);
      if c == p {
        if i < m { HasAt(t', p, i, r); } else if i == m { HasAt(t', q, j, r); } else { HasAt(t', s, i - m - 1, r); }
      } else {
        HasAt(t', c, if c == q && i >= j then i + 1 else i, r);
      }
    }
    if Has(t', r) {
      var c, i := AtOf(t', r);
      if c == s {
        HasAt(t, p, m + 1 + i, r);
      } else if c == q && i == j {
        HasAt(t, p, m, r);
      } else {
        HasAt(t, c, if c == q && i > j then i - 1 else i, r);
      }
    }
  }

  /** p takes over its right neighbour s and the key of q between them. */
  ghost function MergeTree(t: Tree, p: nat, s: nat, q: nat, j: nat): Tree
    requires p in t.nodes && q in t.nodes && s in t.nodes && p in t.info && s in t.info
    requires j < |t.nodes[q].keys| && j + 1 < |t.nodes[q].kids|
  {
    var n, r, a := t.nodes[p], t.nodes[s], t.nodes[q];
    t.(nodes := Reparent(t.nodes, r.kids, 0, p)
         [p := Node(n.keys + [a.keys[j]] + r.keys, n.kids + r.kids, q)]
         [q := Node(a.keys[..j] + a.keys[j+1..], a.kids[..j+1] + a.kids[j+2..], a.up)] - {s},
       info := t.info[p := t.info[p].(hi := t.info[s].hi)] - {s})
  }

  ghost predicate MergePre(t: Tree, p: nat, s: nat, q: nat, j: nat) {
    && Order(t) && p in t.nodes && q in t.nodes && s in t.nodes
    && NodeOk(t, p) && NodeOk(t, q) && NodeOk(t, s) && t.info[q].level > 0
    && j < |t.nodes[q].keys|
    && t.nodes[q].kids[j] == p && t.nodes[q].kids[j+1] == s
  }

  lemma MergeApart(t: Tree, p: nat, s: nat, q: nat, j: nat)
    requires MergePre(t, p, s, q, j)
    ensures p != s && p != q && s != q && p != t.root && s != t.root
    ensures t.nodes[p].up == q && t.nodes[s].up == q
    ensures t.info[p] == KidInfo(t.nodes[q], t.info[q], j) && t.info[s] == KidInfo(t.nodes[q], t.info[q], j + 1)
  {
    assert KidOk(t, q, j) && KidOk(t, q, j + 1);
    KidsApart(t, q);
  }

  lemma MergeKeys(n: Node, r: Node, a: Node, x: Info, z: Info, y: Info, j: nat, q: nat)
    requires KeysOk(n, x) && KeysOk(r, z) && KeysOk(a, y) && y.level > 0 && j < |a.keys|
    requires x == KidInfo(a, y, j) && z == KidInfo(a, y, j + 1)
    ensures KeysOk(Node(n.keys + [a.keys[j]] + r.keys, n.kids + r.kids, q), x.(hi := z.hi))
    ensures KeysOk(Node(a.keys[..j] + a.keys[j+1..], a.kids[..j+1] + a.kids[j+2..], a.up), y)
  {
    var k := n.keys + [a.keys[j]] + r.keys;
    assert forall i :: 0 <= i < |k| ==>
      k[i] == if i < |n.keys| then n.keys[i] else if i == |n.keys| then a.keys[j] else r.keys[i - |n.keys| - 1];
  }

  lemma MergeKidMerged(t: Tree, p: nat, s: nat, q: nat, j: nat, i: nat)
    requires MergePre(t, p, s, q, j) && p != s && p != q
    requires i < |MergeTree(t, p, s, q, j).nodes[p].kids|
    requires KeysOk(MergeTree(t, p, s, q, j).nodes[p], MergeTree(t, p, s, q, j).info[p])
    ensures KidOk(MergeTree(t, p, s, q, j), p, i)
  {
    MergeApart(t, p, s, q, j);
    KidsApart(t, s);
    var l := |t.nodes[p].kids|;
    if i < l { assert KidOk(t, p, i); } else { assert KidOk(t, s, i - l); }
  }

  lemma MergeKidParent(t: Tree, p: nat, s: nat, q: nat, j: nat, i: nat)
    requires MergePre(t, p, s, q, j) && q != s
    requires i < |MergeTree(t, p, s, q, j).nodes[q].kids|
    requires KeysOk(MergeTree(t, p, s, q, j).nodes[q], MergeTree(t, p, s, q, j).info[q])
    ensures KidOk(MergeTree(t, p, s, q, j), q, i)
  {
    MergeApart(t, p, s, q, j);
    KidsApart(t, q);
    KidsApart(t, s);
    assert KidOk(t, q, if i <= j then i else i + 1) && KidOk(t, q, j + 1);
  }

  lemma MergeKidOther(t: Tree, p: nat, s: nat, q: nat, j: nat, c: nat, i: nat)
    requires MergePre(t, p, s, q, j) && c in t.nodes && c != p && c != q && c != s
    requires i < |t.nodes[c].kids|
    requires c in MergeTree(t, p, s, q, j).info && t.info[c].level > 0
    requires KeysOk(MergeTree(t, p, s, q, j).nodes[c], MergeTree(t, p, s, q, j).info[c])
    ensures KidOk(MergeTree(t, p, s, q, j), c, i)
  {
    MergeApart(t, p, s, q, j);
    KidsApart(t, s);
    assert NodeOk(t, c) && KidOk(t, c, i);
  }

  lemma MergeNodes(t: Tree, p: nat, s: nat, q: nat, j: nat, c: nat)
    requires MergePre(t, p, s, q, j) && c in t.nodes && c != s
    ensures NodeOk(MergeTree(t, p, s, q, j), c)
  {
    var t' := MergeTree(t, p, s, q, j);
    MergeApart(t, p, s, q, j);
    MergeKeys(t.nodes[p], t.nodes[s], t.nodes[q], t.info[p], t.info[s], t.info[q], j, q);
    assert NodeOk(t, c);
    assert KeysOk(t'.nodes[c], t'.info[c]);
    forall i | 0 <= i < |t'.nodes[c].kids| ensures KidOk(t', c, i) {
      if c == p { MergeKidMerged(t, p, s, q, j, i); }
      else if c == q { MergeKidParent(t, p, s, q, j, i); }
      else { MergeKidOther(t, p, s, q, j, c, i); }
    }
  }

  lemma MergeUps(t: Tree, p: nat, s: nat, q: nat, j: nat, c: nat)
    requires MergePre(t, p, s, q, j) && c in t.nodes && c != s && c != t.root
    ensures UpOk(MergeTree(t, p, s, q, j), c)
  {
    MergeApart(t, p, s, q, j);
    assert UpOk(t, c) && NodeOk(t, s);
    var b, i := Climb(t, c);
    var t' := MergeTree(t, p, s, q, j);
    if b == s {
      assert t'.nodes[p].kids[|t.nodes[p].kids| + i] == c;
    } else {
      KidsApart(t, s);
      assert t'.nodes[c].up == b;
      assert t'.nodes[b].kids[if b == q && i > j then i - 1 else i] == c;
    }
  }

  lemma MergeOrder(t: Tree, p: nat, s: nat, q: nat, j: nat)
    requires MergePre(t, p, s, q, j)
    ensures Order(MergeTree(t, p, s, q, j))
  {
    var t' := MergeTree(t, p, s, q, j);
    MergeApart(t, p, s, q, j);
    KidsApart(t, s);
    forall c {:trigger NodeOk(t', c)} | c in t'.nodes ensures NodeOk(t', c) { MergeNodes(t, p, s, q, j, c); }
    forall c {:trigger UpOk(t', c)} | c in t'.nodes && c != t'.root ensures UpOk(t', c) { MergeUps(t, p, s, q, j, c); }
  }

  ghost predicate MergeShape(t: Tree, p: nat, s: nat, q: nat, j: nat) {
    && p in t.nodes && q in t.nodes && s in t.nodes && p in t.info && s in t.info
    && p != q && p != s && q != s
    && j < |t.nodes[q].keys| && j + 1 < |t.nodes[q].kids|
  }

  /** Merging neither adds nor loses a key. */
  lemma MergeHas(t: Tree, p: nat, s: nat, q: nat, j: nat, r: Slot)
    requires MergeShape(t, p, s, q, j)
    ensures Has(MergeTree(t, p, s, q, j), r) <==> Has(t, r)
  {
    var t' := MergeTree(t, p, s, q, j);
    var l := |t.nodes[p].keys|;
    if Has(t, r) {
      var c, i := AtOf(t, r);
      if c == s {
        HasAt(t', p, l + 1 + i, r);
      } else if c == q && i == j {
        HasAt(t', p, l, r);
      } else {
        HasAt(t', c, if c == q && i > j then i - 1 else i, r);
      }
    }
    if Has(t', r) {
      var c, i := AtOf(t', r);
      if c == p {
        if i < l { HasAt(t, p, i, r); } else if i == l { HasAt(t, q, j, r); } else { HasAt(t, s, i - l - 1, r); }
      } else if c == q {
        var a := t.nodes[q].keys;
        var x := if i < j then i else i + 1;
        assert (a[..j] + a[j+1..])[i] == a[x];
        HasAt(t, q, x, r);
      } else {
        HasAt(t, c, i, r);
      }
    }
  }

  // ---------------------------------------------------------------- root changes

  /** A new page q above the root, without keys. */
  ghost function GrowTree(t: Tree, q: nat): Tree
    requires t.root in t.nodes && t.root in t.info
  {
    Tree(t.nodes[t.root := t.nodes[t.root].(up := q)][q := Node([], [t.root], 0)],
         t.info[q := Info(t.info[t.root].level + 1, NegInf, PosInf)],
         q)
  }

  lemma GrowOrder(t: Tree, q: nat)
    requires Order(t) && q !in t.nodes && q != 0
    ensures Order(GrowTree(t, q))
    ensures forall r :: Has(GrowTree(t, q), r) <==> Has(t, r)
  {
    var t' := GrowTree(t, q);
    assert NodeOk(t, t.root);
    forall c {:trigger NodeOk(t', c)} | c in t'.nodes ensures NodeOk(t', c) {
      if c == q {
        assert KidOk(t', q, 0);
      } else {
        assert NodeOk(t, c);
        forall i | 0 <= i < |t.nodes[c].kids| ensures KidOk(t', c, i) { assert KidOk(t, c, i); }
      }
    }
    forall c {:trigger UpOk(t', c)} | c in t'.nodes && c != q ensures UpOk(t', c) {
      if c == t.root {
        assert t'.nodes[q].kids[0] == c;
      } else {
        assert UpOk(t, c);
      }
    }
    forall r ensures Has(t', r) <==> Has(t, r) {
      if Has(t, r) { var c, i := AtOf(t, r); HasAt(t', c, i, r); }
      if Has(t', r) { var c, i := AtOf(t', r); HasAt(t, c, i, r); }
    }
  }

  /** The root has one child and no key left: the child becomes the root. */
  ghost function CollapseTree(t: Tree): Tree
    requires t.root in t.nodes && |t.nodes[t.root].kids| == 1 && t.nodes[t.root].kids[0] in t.nodes
  {
    var p := t.nodes[t.root].kids[0];
    Tree(t.nodes[p := t.nodes[p].(up := 0)] - {t.root}, t.info - {t.root}, p)
  }

  lemma CollapseOrder(t: Tree)
    requires Order(t) && t.nodes[t.root].keys == [] && t.info[t.root].level > 0
    requires |t.nodes[t.root].kids| == 1 && t.nodes[t.root].kids[0] in t.nodes
    ensures Order(CollapseTree(t))
    ensures forall r :: Has(CollapseTree(t), r) <==> Has(t, r)
  {
    var t' := CollapseTree(t);
    var q, p := t.root, t'.root;
    assert NodeOk(t, q) && KidOk(t, q, 0);
    forall c {:trigger NodeOk(t', c)} | c in t'.nodes ensures NodeOk(t', c) {
      assert NodeOk(t, c);
      forall i | 0 <= i < |t.nodes[c].kids| ensures KidOk(t', c, i) { assert KidOk(t, c, i); }
    }
    forall c {:trigger UpOk(t', c)} | c in t'.nodes && c != p ensures UpOk(t', c) {
      assert UpOk(t, c);
      var b, i := Climb(t, c);
      if b != q { assert UpOk(t, b); assert t'.nodes[b].kids[i] == c; }
    }
    forall r ensures Has(t', r) <==> Has(t, r) {
      if Has(t, r) { var c, i := AtOf(t, r); HasAt(t', c, i, r); }
      if Has(t', r) { var c, i := AtOf(t', r); HasAt(t, c, i, r); }
    }
  }

  // ---------------------------------------------------------------- one key in, one key out

  ghost function AddTree(t: Tree, p: nat, j: nat, r: Slot): Tree
    requires p in t.nodes && j <= |t.nodes[p].keys|
  {
    var n := t.nodes[p];
    t.(nodes := t.nodes[p := n.(keys := n.keys[..j] + [r] + n.keys[j..])])
  }

  /** Same pages, same children, same intervals; only the keys of the leaf p differ. */
  lemma LeafChange(t: Tree, t': Tree, p: nat)
    requires Order(t) && p in t.nodes && t.info[p].level == 0
    requires t'.root == t.root && t'.info == t.info && t'.nodes.Keys == t.nodes.Keys
    requires forall c :: c in t.nodes && c != p ==> t'.nodes[c] == t.nodes[c]
    requires t'.nodes[p].kids == t.nodes[p].kids && t'.nodes[p].up == t.nodes[p].up
    requires KeysOk(t'.nodes[p], t.info[p])
    ensures Order(t')
  {
    assert NodeOk(t, p);
    forall c {:trigger NodeOk(t', c)} | c in t'.nodes ensures NodeOk(t', c) {
      assert NodeOk(t, c);
      forall i | 0 <= i < |t.nodes[c].kids| ensures KidOk(t', c, i) { assert KidOk(t, c, i); }
    }
    forall c {:trigger UpOk(t', c)} | c in t'.nodes && c != t'.root ensures UpOk(t', c) { assert UpOk(t, c); }
  }

  lemma AddHas(t: Tree, p: nat, j: nat, r: Slot, x: Slot)
    requires p in t.nodes && j <= |t.nodes[p].keys|
    ensures Has(AddTree(t, p, j, r), x) <==> x == r || Has(t, x)
  {
    var t' := AddTree(t, p, j, r);
    if Has(t, x) { var c, i := AtOf(t, x); HasAt(t', c, if c == p && i >= j then i + 1 else i, x); }
    if x == r { HasAt(t', p, j, r); }
    if Has(t', x) && x != r { var c, i := AtOf(t', x); HasAt(t, c, if c == p && i > j then i - 1 else i, x); }
  }

  lemma AddOrder(t: Tree, p: nat, j: nat, r: Slot)
    requires Order(t) && p in t.nodes && t.info[p].level == 0 && j <= |t.nodes[p].keys|
    requires Inside(t.info[p], r.key)
    requires j > 0 ==> t.nodes[p].keys[j-1].key < r.key
    requires j < |t.nodes[p].keys| ==> r.key < t.nodes[p].keys[j].key
    ensures Order(AddTree(t, p, j, r))
  {
    var t' := AddTree(t, p, j, r);
    assert NodeOk(t, p);
    var a, k := t.nodes[p].keys, t'.nodes[p].keys;
    assert forall i :: 0 <= i < |k| ==> k[i] == if i < j then a[i] else if i == j then r else a[i-1];
    LeafChange(t, t', p);
  }

  ghost function DropTree(t: Tree, p: nat, j: nat): Tree
    requires p in t.nodes && j < |t.nodes[p].keys|
  {
    var n := t.nodes[p];
    t.(nodes := t.nodes[p := n.(keys := n.keys[..j] + n.keys[j+1..])])
  }

  lemma DropHas(t: Tree, p: nat, j: nat, x: Slot)
    requires Order(t) && p in t.nodes && j < |t.nodes[p].keys|
    ensures Has(DropTree(t, p, j), x) <==> x != t.nodes[p].keys[j] && Has(t, x)
  {
    var t' := DropTree(t, p, j);
    var r := t.nodes[p].keys[j];
    assert NodeOk(t, p) && In(t, p, r);
    if Has(t, x) && x != r { var c, i := AtOf(t, x); HasAt(t', c, if c == p && i > j then i - 1 else i, x); }
    if Has(t', x) {
      var c, i := AtOf(t', x);
      HasAt(t, c, if c == p && i >= j then i + 1 else i, x);
      if x == r { assert In(t, c, x); OneHome(t, p, c, r, x); }
    }
  }

  lemma DropOrder(t: Tree, p: nat, j: nat)
    requires Order(t) && p in t.nodes && t.info[p].level == 0 && j < |t.nodes[p].keys|
    ensures Order(DropTree(t, p, j))
  {
    var t' := DropTree(t, p, j);
    assert NodeOk(t, p);
    var a, k := t.nodes[p].keys, t'.nodes[p].keys;
    assert forall i :: 0 <= i < |k| ==> k[i] == if i < j then a[i] else a[i+1];
    LeafChange(t, t', p);
  }

  function Sub(b: Bound, k: real, k': real): Bound {
    if b == At(k) then At(k') else b
  }

  /** The j-th key of the internal page q gives way to the last key of the leaf p in front
      of it; the bounds that named the old key name the new one. */
  ghost function SwapTree(t: Tree, q: nat, j: nat, p: nat): Tree
    requires p in t.nodes && q in t.nodes && j < |t.nodes[q].keys| && t.nodes[p].keys != []
  {
    var n, a := t.nodes[p], t.nodes[q];
    var r, k := n.keys[|n.keys| - 1], a.keys[j].key;
    t.(nodes := t.nodes[p := n.(keys := n.keys[..|n.keys| - 1])][q := a.(keys := a.keys[j := r])],
       info := map c | c in t.info :: Info(t.info[c].level, Sub(t.info[c].lo, k, r.key), Sub(t.info[c].hi, k, r.key)))
  }

  ghost predicate SwapPre(t: Tree, q: nat, j: nat, p: nat) {
    && Order(t) && p in t.nodes && q in t.nodes && p != q
    && NodeOk(t, p) && NodeOk(t, q)
    && t.info[p].level == 0 && t.info[q].level > 0
    && t.nodes[p].keys != [] && j < |t.nodes[q].keys|
    && t.info[p].hi == At(t.nodes[q].keys[j].key)
  }

  /** A page whose interval ends at a key of q lies inside the interval of q. */
  lemma {:induction false} Spine(t: Tree, c: nat, q: nat, j: nat, k: real)
    requires Order(t) && c in t.nodes && q in t.nodes && j < |t.nodes[q].keys|
    requires t.info[c].hi == At(t.nodes[q].keys[j].key)
    requires Inside(t.info[c], k)
    ensures Inside(t.info[q], k)
    decreases t.info[t.root].level - t.info[c].level
  {
    var b, i := Climb(t, c);
    if i == |t.nodes[b].keys| {
      Spine(t, b, q, j, k);
    } else {
      assert In(t, b, t.nodes[b].keys[i]) && In(t, q, t.nodes[q].keys[j]);
      OneHome(t, b, q, t.nodes[b].keys[i], t.nodes[q].keys[j]);
    }
  }

  /** No key elsewhere lies between the last key of p and the key it replaces. */
  lemma SwapGap(t: Tree, q: nat, j: nat, p: nat, c: nat, i: nat)
    requires SwapPre(t, q, j, p) && c in t.nodes && i < |t.nodes[c].keys| && c != p
    ensures var r, k, x := t.nodes[p].keys[|t.nodes[p].keys| - 1].key, t.nodes[q].keys[j].key, t.nodes[c].keys[i].key;
            && r < k && (x < k ==> x < r) && (x == k ==> c == q && i == j)
  {
    var l := |t.nodes[p].keys| - 1;
    var r, k, x := t.nodes[p].keys[l].key, t.nodes[q].keys[j].key, t.nodes[c].keys[i];
    assert NodeOk(t, c) && In(t, c, x) && Inside(t.info[p], t.nodes[p].keys[l].key);
    if r <= x.key < k { Home(t, p, c, x); }
    if x.key == k {
      assert In(t, q, t.nodes[q].keys[j]);
      OneHome(t, c, q, x, t.nodes[q].keys[j]);
    }
  }

  lemma SwapKeys(t: Tree, q: nat, j: nat, p: nat, c: nat)
    requires SwapPre(t, q, j, p) && c in t.nodes
    ensures KeysOk(SwapTree(t, q, j, p).nodes[c], SwapTree(t, q, j, p).info[c])
  {
    var t' := SwapTree(t, q, j, p);
    assert NodeOk(t, c);
    var l := |t.nodes[p].keys| - 1;
    assert Inside(t.info[p], t.nodes[p].keys[l].key);
    if c != p {
      var r, k := t.nodes[p].keys[l].key, t.nodes[q].keys[j].key;
      forall i | 0 <= i < |t.nodes[c].keys|
        ensures var x := t.nodes[c].keys[i].key; r < k && (x < k ==> x < r) && (x == k ==> c == q && i == j)
      {
        SwapGap(t, q, j, p, c, i);
      }
      if c == q { Spine(t, p, q, j, t.nodes[p].keys[l].key); }
    }
  }

  lemma SwapNodes(t: Tree, q: nat, j: nat, p: nat, c: nat)
    requires SwapPre(t, q, j, p) && c in t.nodes
    ensures NodeOk(SwapTree(t, q, j, p), c)
  {
    var t' := SwapTree(t, q, j, p);
    SwapKeys(t, q, j, p, c);
    assert NodeOk(t, c);
    forall i | 0 <= i < |t.nodes[c].kids| ensures KidOk(t', c, i) {
      assert KidOk(t, c, i);
      if i > 0 { SwapGap(t, q, j, p, c, i - 1); }
      if i < |t.nodes[c].keys| { SwapGap(t, q, j, p, c, i); }
    }
  }

  lemma SwapOrder(t: Tree, q: nat, j: nat, p: nat)
    requires SwapPre(t, q, j, p)
    ensures Order(SwapTree(t, q, j, p))
  {
    var t' := SwapTree(t, q, j, p);
    forall c {:trigger NodeOk(t', c)} | c in t'.nodes ensures NodeOk(t', c) { SwapNodes(t, q, j, p, c); }
    forall c {:trigger UpOk(t', c)} | c in t'.nodes && c != t'.root ensures UpOk(t', c) { assert UpOk(t, c); }
  }

  /** The swap removes exactly the old key of q. */
  lemma SwapHas(t: Tree, q: nat, j: nat, p: nat, x: Slot)
    requires SwapPre(t, q, j, p)
    ensures Has(SwapTree(t, q, j, p), x) <==> x != t.nodes[q].keys[j] && Has(t, x)
  {
    var t' := SwapTree(t, q, j, p);
    var l, prior := |t.nodes[p].keys| - 1, t.nodes[q].keys[j];
    if x != prior && Has(t, x) {
      var c, i := AtOf(t, x);
      if c == p && i == l { HasAt(t', q, j, x); } else { HasAt(t', c, i, x); }
    }
    if Has(t', x) {
      var c, i := AtOf(t', x);
      if c == q && i == j {
        HasAt(t, p, l, x);
        assert Inside(t.info[p], t.nodes[p].keys[l].key);
      } else {
        HasAt(t, c, i, x);
        assert In(t, c, x) && In(t, q, prior);
        if x == prior { OneHome(t, c, q, x, prior); }
      }
    }
  }

  /** Entry j of page p gets another record; its key stays. */
  ghost function ResetTree(t: Tree, p: nat, j: nat, r: Slot): Tree
    requires p in t.nodes && j < |t.nodes[p].keys|
  {
    var n := t.nodes[p];
    t.(nodes := t.nodes[p := n.(keys := n.keys[j := r])])
  }

  lemma ResetOrder(t: Tree, p: nat, j: nat, r: Slot)
    requires Order(t) && p in t.nodes && j < |t.nodes[p].keys| && r.key == t.nodes[p].keys[j].key
    ensures Order(ResetTree(t, p, j, r))
  {
    var t' := ResetTree(t, p, j, r);
    assert NodeOk(t, p);
    assert forall i :: 0 <= i < |t.nodes[p].keys| ==> t'.nodes[p].keys[i].key == t.nodes[p].keys[i].key;
    forall c {:trigger NodeOk(t', c)} | c in t'.nodes ensures NodeOk(t', c) {
      assert NodeOk(t, c);
      forall i | 0 <= i < |t.nodes[c].kids| ensures KidOk(t', c, i) { assert KidOk(t, c, i); }
    }
    forall c {:trigger UpOk(t', c)} | c in t'.nodes && c != t'.root ensures UpOk(t', c) { assert UpOk(t, c); }
  }

  lemma ResetHas(t: Tree, p: nat, j: nat, r: Slot, x: Slot)
    requires Order(t) && p in t.nodes && j < |t.nodes[p].keys| && r.key == t.nodes[p].keys[j].key
    ensures Has(ResetTree(t, p, j, r), x) <==> x == r || (x != t.nodes[p].keys[j] && Has(t, x))
  {
    var t', o := ResetTree(t, p, j, r), t.nodes[p].keys[j];
    assert In(t, p, o);
    if x != o && Has(t, x) { var c, i := AtOf(t, x); HasAt(t', c, i, x); }
    if x == r { HasAt(t', p, j, r); }
    if Has(t', x) && x != r {
      var c, i := AtOf(t', x);
      HasAt(t, c, i, x);
      if x == o { assert In(t, c, x); OneHome(t, p, c, o, x); ResetOnce(t, p, j, c, i, o); }
    }
  }

  lemma ResetOnce(t: Tree, p: nat, j: nat, c: nat, i: nat, o: Slot)
    requires Order(t) && p == c && KeyAt(t, p, j, o) && KeyAt(t, c, i, o)
    ensures i == j
  {
    assert NodeOk(t, p);
  }
}

/** The page store as a whole: an index tree whose entries lead to records in data pages. */
module PageStore {
  import opened Common
  import opened TreeShape
  import opened PagePool
  import opened IndexPages
  import opened Coupling
  import opened IndexTree
  import opened IndexWalk
  import opened Blocks
  import opened DataPages
  import opened Records
  import opened KeyOrder

  type RecordMap = map<Addr, (Bytes, Bytes)>

  /** The entry of the record at a with key k. */
  function SlotOf(a: Addr, k: Bytes): Slot {
    var e := EntryOf(k, a);
    Slot(Rank(k), e.head, e.len, a.page, a.pos)
  }

  function AddrOf(s: Slot): Addr {
    Addr(s.recPage, s.recPos)
  }

  /** Each entry leads to a record with its key, and each record has an entry. */
  ghost predicate Matched(t: Tree, kv: RecordMap) {
    && (forall s {:trigger Has(t, s)} :: Has(t, s) ==> AddrOf(s) in kv && s == SlotOf(AddrOf(s), kv[AddrOf(s)].0))
    && (forall a {:trigger kv[a]} :: a in kv ==> Has(t, SlotOf(a, kv[a].0)))
  }

  /** The records are those of the map m. */
  ghost predicate Kept(kv: RecordMap, at: map<Bytes, Addr>, m: map<Bytes, Bytes>) {
    && at.Keys == m.Keys
    && (forall k {:trigger at[k]} :: k in at ==> at[k] in kv && kv[at[k]] == (k, m[k]))
    && (forall a {:trigger kv[a]} :: a in kv ==> kv[a].0 in at && at[kv[a].0] == a)
  }

  /** Keys the store takes: not empty, and short enough for their lengths to be compared. */
  predicate KeyOk(k: Bytes) {
    k != [] && |k| < MAXKEY
  }

  ghost predicate KeysFit(m: map<Bytes, Bytes>) {
    forall k {:trigger k in m} :: k in m ==> KeyOk(k)
  }

  /** Index and records together show the map m. */
  ghost predicate Shown(t: Tree, kv: RecordMap, at: map<Bytes, Addr>, m: map<Bytes, Bytes>) {
    Matched(t, kv) && Kept(kv, at, m) && KeysFit(m)
  }

  /** Different keys have different ranks. */
  lemma SameRank(a: Bytes, b: Bytes)
    requires Rank(a) == Rank(b)
    ensures a == b
  {
    RankOrder(a, b);
  }

  /** The key of an entry is that of its record; the order of entries is that of keys. */
  lemma EntryKey(t: Tree, kv: RecordMap, at: map<Bytes, Addr>, m: map<Bytes, Bytes>, s: Slot)
    requires Matched(t, kv) && Kept(kv, at, m) && Has(t, s)
    ensures AddrOf(s) in kv && var k := kv[AddrOf(s)].0; k in m && at[k] == AddrOf(s) && s.key == Rank(k) && kv[AddrOf(s)].1 == m[k]
  {
  }

  lemma KeyEntry(t: Tree, kv: RecordMap, at: map<Bytes, Addr>, m: map<Bytes, Bytes>, k: Bytes)
    requires Matched(t, kv) && Kept(kv, at, m) && k in m
    ensures k in at && Has(t, SlotOf(at[k], k))
  {
    assert kv[at[k]].0 == k;
  }

  /** A key without entry is not in the map. */
  lemma NoEntry(t: Tree, kv: RecordMap, at: map<Bytes, Addr>, m: map<Bytes, Bytes>, k: Bytes)
    requires Matched(t, kv) && Kept(kv, at, m) && forall s {:trigger Has(t, s)} :: Has(t, s) ==> s.key != Rank(k)
    ensures k !in m
  {
    forall x | x in m ensures x != k {
      KeyEntry(t, kv, at, m, x);
      assert Has(t, SlotOf(at[x], x));
    }
  }

  lemma Added(t: Tree, t': Tree, kv: RecordMap, kv': RecordMap, at: map<Bytes, Addr>, m: map<Bytes, Bytes>, a: Addr, k: Bytes, val: Bytes, s: Slot)
    returns (at': map<Bytes, Addr>, m': map<Bytes, Bytes>)
    requires Shown(t, kv, at, m) && KeyOk(k) && k !in m && a !in kv && kv' == kv[a := (k, val)]
    requires s == SlotOf(a, k) && OneMore(t, t', s)
    ensures Shown(t', kv', at', m') && m' == m[k := val]
  {
    AddedEntry(t, t', kv, kv', a, k, val, s);
    Noted(kv, kv', at, m, a, a, k, val);
    at', m' := at[k := a], m[k := val];
  }

  lemma AddedEntry(t: Tree, t': Tree, kv: RecordMap, kv': RecordMap, a: Addr, k: Bytes, val: Bytes, s: Slot)
    requires Matched(t, kv) && a !in kv && kv' == kv[a := (k, val)] && s == SlotOf(a, k) && OneMore(t, t', s)
    ensures Matched(t', kv')
  {
    forall x {:trigger Has(t', x)} | Has(t', x) ensures AddrOf(x) in kv' && x == SlotOf(AddrOf(x), kv'[AddrOf(x)].0) {
      assert x != s ==> Has(t, x);
    }
    forall b {:trigger kv'[b]} | b in kv' ensures Has(t', SlotOf(b, kv'[b].0)) {
      if b != a { assert kv[b] == kv'[b]; }
    }
  }

  /** The record of key k, at a before or new, is now at g. */
  lemma Noted(kv: RecordMap, kv': RecordMap, at: map<Bytes, Addr>, m: map<Bytes, Bytes>, a: Addr, g: Addr, k: Bytes, val: Bytes)
    requires Kept(kv, at, m) && kv' == (kv - {a})[g := (k, val)] && (g == a || g !in kv)
    requires if a in kv then kv[a].0 == k else k !in m
    ensures Kept(kv', at[k := g], m[k := val])
  {
    var at', m' := at[k := g], m[k := val];
    forall x {:trigger at'[x]} | x in at' ensures at'[x] in kv' && kv'[at'[x]] == (x, m'[x]) {
      if x != k { assert kv[at[x]] == (x, m[x]); }
    }
    forall b {:trigger kv'[b]} | b in kv' ensures kv'[b].0 in at' && at'[kv'[b].0] == b {
      if b != g { assert kv[b].0 in at && at[kv[b].0] == b; }
      if a in kv { assert at[kv[a].0] == a; }
    }
  }

  lemma Removed(t: Tree, t': Tree, kv: RecordMap, kv': RecordMap, at: map<Bytes, Addr>, m: map<Bytes, Bytes>, a: Addr, k: Bytes, s: Slot)
    returns (at': map<Bytes, Addr>, m': map<Bytes, Bytes>)
    requires Shown(t, kv, at, m) && a in kv && kv' == kv - {a} && k == kv[a].0
    requires s == SlotOf(a, k) && OneLess(t, t', s)
    ensures Shown(t', kv', at', m') && m' == m - {k}
  {
    forall x {:trigger Has(t', x)} | Has(t', x) ensures AddrOf(x) in kv' && x == SlotOf(AddrOf(x), kv'[AddrOf(x)].0) {
      assert Has(t, x) && x != s;
    }
    forall b {:trigger kv'[b]} | b in kv' ensures Has(t', SlotOf(b, kv'[b].0)) { assert kv[b] == kv'[b]; }
    at', m' := at - {k}, m - {k};
    forall x {:trigger at'[x]} | x in at' ensures at'[x] in kv' && kv'[at'[x]] == (x, m'[x]) { assert kv[at[x]] == (x, m[x]); }
    forall b {:trigger kv'[b]} | b in kv' ensures kv'[b].0 in at' && at'[kv'[b].0] == b { assert kv[b].0 in at; }
  }

  /** Entry s became r. */
  ghost predicate OneMoved(t: Tree, t': Tree, s: Slot, r: Slot) {
    forall x {:trigger Has(t', x)} {:trigger Has(t, x)} :: Has(t', x) <==> x == r || (x != s && Has(t, x))
  }

  /** The record of key k was rewritten, at g; r is its entry now, s was. */
  lemma Rewritten(t: Tree, t': Tree, kv: RecordMap, kv': RecordMap, at: map<Bytes, Addr>, m: map<Bytes, Bytes>,
                  a: Addr, g: Addr, k: Bytes, val: Bytes, s: Slot, r: Slot)
    returns (at': map<Bytes, Addr>, m': map<Bytes, Bytes>)
    requires Shown(t, kv, at, m) && KeyOk(k) && a in kv && (g == a || g !in kv) && k == kv[a].0 && kv' == (kv - {a})[g := (k, val)]
    requires s == SlotOf(a, k) && r == SlotOf(g, k)
    requires OneMoved(t, t', s, r)
    ensures Shown(t', kv', at', m') && m' == m[k := val]
  {
    assert k in at;
    forall x {:trigger Has(t', x)} | Has(t', x) ensures AddrOf(x) in kv' && x == SlotOf(AddrOf(x), kv'[AddrOf(x)].0) {
      if x != r { assert Has(t, x); }
    }
    forall b {:trigger kv'[b]} | b in kv' ensures Has(t', SlotOf(b, kv'[b].0)) {
      if b != g { assert kv[b] == kv'[b]; }
    }
    Noted(kv, kv', at, m, a, g, k, val);
    at', m' := at[k := g], m[k := val];
  }

  /** The keys of the map are those of the entries. */
  lemma FirstOfMap(t: Tree, kv: RecordMap, at: map<Bytes, Addr>, m: map<Bytes, Bytes>, s: Slot)
    requires Shown(t, kv, at, m) && IndexWalk.NextKey(t, NegInf, s)
    ensures AddrOf(s) in kv && var key := kv[AddrOf(s)].0; key in m && forall k {:trigger k in m} :: k in m ==> Lex(key, k) <= 0
  {
    EntryKey(t, kv, at, m, s);
    var key := kv[AddrOf(s)].0;
    forall k | k in m ensures Lex(key, k) <= 0 {
      KeyEntry(t, kv, at, m, k);
      RankOrder(key, k);
    }
  }

  lemma EmptyMap(t: Tree, kv: RecordMap, at: map<Bytes, Addr>, m: map<Bytes, Bytes>)
    requires Shown(t, kv, at, m) && forall s {:trigger Has(t, s)} :: !Has(t, s)
    ensures m == map[]
  {
    forall k | k in m ensures false { KeyEntry(t, kv, at, m, k); }
  }

  lemma NoneBehind(t: Tree, kv: RecordMap, at: map<Bytes, Addr>, m: map<Bytes, Bytes>, key: Bytes)
    requires Shown(t, kv, at, m) && Nothing(t, At(Rank(key)), PosInf)
    ensures forall k {:trigger k in m} :: k in m ==> Lex(k, key) <= 0
  {
    forall k | k in m ensures Lex(k, key) <= 0 {
      KeyEntry(t, kv, at, m, k);
      RankOrder(k, key);
      var s := SlotOf(at[k], k);
      assert Has(t, s) && Lt(s.key, PosInf);
    }
  }

  lemma KeyBehind(t: Tree, kv: RecordMap, at: map<Bytes, Addr>, m: map<Bytes, Bytes>, key: Bytes, s: Slot)
    requires Shown(t, kv, at, m) && IndexWalk.NextKey(t, At(Rank(key)), s)
    ensures AddrOf(s) in kv && var next := kv[AddrOf(s)].0;
            next in m && Lex(key, next) < 0 && forall k {:trigger k in m} :: k in m && Lex(key, k) < 0 ==> Lex(next, k) <= 0
  {
    EntryKey(t, kv, at, m, s);
    var next := kv[AddrOf(s)].0;
    RankOrder(key, next);
    forall k | k in m && Lex(key, k) < 0 ensures Lex(next, k) <= 0 {
      KeyEntry(t, kv, at, m, k);
      RankOrder(key, k);
      RankOrder(next, k);
    }
  }

  /** The least key behind a key, or none when there is none. */
  ghost predicate IsNext(m: map<Bytes, Bytes>, key: Bytes, r: Option<Bytes>) {
    match r
    case None => forall k {:trigger k in m} :: k in m ==> Lex(k, key) <= 0
    case Some(next) => next in m && Lex(key, next) < 0 && forall k {:trigger k in m} :: k in m && Lex(key, k) < 0 ==> Lex(next, k) <= 0
  }

  /** The one behind that. */
  ghost predicate SkipsOne(m: map<Bytes, Bytes>, key: Bytes, r: Option<Bytes>) {
    exists g: Bytes {:trigger IsNext(m, key, Some(g))} :: IsNext(m, key, Some(g)) && IsNext(m, g, r) && !IsNext(m, key, r)
  }

  /** What is given is the next key, or when one is skipped the one behind it. */
  ghost predicate NextOrSkip(m: map<Bytes, Bytes>, key: Bytes, r: Option<Bytes>, skips: bool) {
    (IsNext(m, key, r) <==> !skips) && (skips ==> SkipsOne(m, key, r))
  }

  ghost predicate BelowAll(m: map<Bytes, Bytes>, key: Bytes) {
    forall k {:trigger k in m} :: k in m ==> Lex(key, k) < 0
  }

  /** What a known key, a key not in the store, and any key in an empty store are answered. */
  ghost predicate NextAnswer(m: map<Bytes, Bytes>, key: Bytes, beyond: nat, r: Option<Bytes>, astray: bool, skips: bool) {
    && (!astray ==> NextOrSkip(m, key, r, skips))
    && (key in m ==> !astray && !skips)
    && (m != map[] && BelowAll(m, key) ==> !astray && skips)
    && (beyond == 0 ==> !astray)
  }

  lemma NextOfKnown(m: map<Bytes, Bytes>, key: Bytes, beyond: nat, r: Option<Bytes>)
    requires key in m && IsNext(m, key, r)
    ensures NextAnswer(m, key, beyond, r, false, false)
  {
    RankOrder(key, key);
  }

  lemma SkipsGives(m: map<Bytes, Bytes>, key: Bytes, g: Bytes, r: Option<Bytes>)
    requires var first, second := IsNext(m, key, Some(g)), IsNext(m, g, r); first && second
    ensures var skips := SkipsOne(m, key, r); skips
  {
    RankOrder(key, g);
    RankOrder(g, key);
    match r
    case None =>
    case Some(next) => RankOrder(g, next); RankOrder(next, g);
  }

  /** The key at the place of a key that is not there is the first one behind it. */
  lemma FirstAbove(v: Pages, t: Tree, kv: RecordMap, at: map<Bytes, Addr>, m: map<Bytes, Bytes>, p: nat, pos: nat, j: nat, key: Bytes) returns (s: Slot, g: Bytes)
    requires Shown(t, kv, at, m) && Order(t) && Coupled(v, t) && Fits(t, p, j, Rank(key)) && j < |t.nodes[p].keys| && p in v && pos == v[p].lPos + j
    ensures var there, next := EntryAt(v, t, p, pos, j, s), IsNext(m, key, Some(g)); there && next && s.key == Rank(g)
  {
    s := t.nodes[p].keys[j];
    EntryShown(v, t, p, j, s);
    HasAt(t, p, j, s);
    FreePlace(t, p, j, Rank(key));
    assert IndexWalk.NextKey(t, At(Rank(key)), s);
    KeyBehind(t, kv, at, m, key, s);
    g := kv[AddrOf(s)].0;
    EntryKey(t, kv, at, m, s);
  }

  /** Behind the last key of a leaf a key is not below all. */
  lemma NotBelowAll(t: Tree, kv: RecordMap, at: map<Bytes, Addr>, m: map<Bytes, Bytes>, p: nat, j: nat, key: Bytes)
    requires Shown(t, kv, at, m) && Fits(t, p, j, Rank(key)) && 0 < j == |t.nodes[p].keys|
    ensures !BelowAll(m, key)
  {
    var s := t.nodes[p].keys[j - 1];
    HasAt(t, p, j - 1, s);
    EntryKey(t, kv, at, m, s);
    RankOrder(key, kv[AddrOf(s)].0);
  }

  // ---------------------------------------------------------------- walks

  /** The records of the entries. */
  ghost predicate Rows(kv: RecordMap, slots: seq<Slot>, out: seq<(Bytes, Bytes)>) {
    |slots| == |out| && forall i {:trigger slots[i]} {:trigger out[i]} :: 0 <= i < |out| ==> AddrOf(slots[i]) in kv && out[i] == kv[AddrOf(slots[i])] && slots[i].key == Rank(out[i].0)
  }

  /** Where a walk is after the entries in slots: before its next entry, or at the end. */
  ghost predicate Standing(v: Pages, t: Tree, slots: seq<Slot>, from: Bound, q: nat, qos: nat, j: nat, k: Slot) {
    if q == 0 then IndexWalk.Listed(t, slots, from, PosInf)
    else EntryAt(v, t, q, qos, j, k) && IndexWalk.Listed(t, slots, from, At(k.key)) && !Lt(k.key, from)
  }

  /** Nothing seen yet, and nothing to be seen in front of the place found. */
  lemma StandingAt(v: Pages, t: Tree, key: real, q: nat, qos: nat, j: nat, k: Slot)
    requires q == 0 ==> NothingFrom(t, key, PosInf)
    requires q != 0 ==> EntryAt(v, t, q, qos, j, k) && key <= k.key && NothingFrom(t, key, At(k.key))
    ensures Standing(v, t, [], At(key), q, qos, j, k)
  {
  }

  /** A walk can go on, or it was ended by the visitor at the last entry in slots. */
  ghost predicate Stepped(v: Pages, t: Tree, slots: seq<Slot>, from: Bound, out: seq<(Bytes, Bytes)>, more: (Bytes, Bytes) -> bool, on: bool,
                          q: nat, qos: nat, j: nat, k: Slot) {
    if on then Standing(v, t, slots, from, q, qos, j, k) && Allowed(out, more, |out|)
    else out != [] && Allowed(out, more, |out| - 1) && !more(out[|out| - 1].0, out[|out| - 1].1) && UpToLast(t, slots, from)
  }

  /** The loop of a walk: what was shown are the records of the entries seen. */
  ghost predicate Walking(v: Pages, t: Tree, kv: RecordMap, slots: seq<Slot>, from: Bound, out: seq<(Bytes, Bytes)>, more: (Bytes, Bytes) -> bool, on: bool,
                          q: nat, qos: nat, j: nat, k: Slot) {
    var rows, stepped := Rows(kv, slots, out), Stepped(v, t, slots, from, out, more, on, q, qos, j, k);
    rows && stepped
  }

  /** A walk is over: it listed all entries from `from` on, or ended with the record that the
      visitor had enough of. */
  ghost predicate Walked(t: Tree, kv: RecordMap, slots: seq<Slot>, from: Bound, out: seq<(Bytes, Bytes)>, more: (Bytes, Bytes) -> bool, done: bool) {
    && Rows(kv, slots, out) && Allowed(out, more, if done || out == [] then |out| else |out| - 1)
    && if done then IndexWalk.Listed(t, slots, from, PosInf)
       else out != [] && !more(out[|out| - 1].0, out[|out| - 1].1) && UpToLast(t, slots, from)
  }

  /** The record of entry k was shown, and the next entry, if there is one, is the second. */
  lemma OneShown(v: Pages, t: Tree, kv: RecordMap, slots: seq<Slot>, slots': seq<Slot>, from: Bound, seen: seq<(Bytes, Bytes)>, out: seq<(Bytes, Bytes)>,
                 more: (Bytes, Bytes) -> bool, q: nat, qos: nat, j: nat, k: Slot, key: Bytes, val: Bytes, q': nat, qos': nat, j': nat, k': Slot)
    requires Walking(v, t, kv, slots, from, seen, more, true, q, qos, j, k) && q != 0 && slots' == slots + [k] && out == seen + [(key, val)]
    requires AddrOf(k) in kv && kv[AddrOf(k)] == (key, val) && k.key == Rank(key) && Standing(v, t, slots', from, q', qos', j', k')
    ensures Walking(v, t, kv, slots', from, out, more, more(key, val), q', qos', j', k')
  {
    assert slots'[..|slots|] == slots;
    EntryHas(v, t, q, qos, j, k);
    forall x {:trigger slots'[x]} {:trigger out[x]} | 0 <= x < |out| ensures AddrOf(slots'[x]) in kv && out[x] == kv[AddrOf(slots'[x])] && slots'[x].key == Rank(out[x].0) {
      if x < |seen| { assert slots'[x] == slots[x] && out[x] == seen[x]; }
    }
    forall x {:trigger out[x]} | 0 <= x < |seen| ensures more(out[x].0, out[x].1) { assert out[x] == seen[x]; }
  }

  lemma WalkEnds(v: Pages, t: Tree, kv: RecordMap, slots: seq<Slot>, from: Bound, out: seq<(Bytes, Bytes)>, more: (Bytes, Bytes) -> bool, on: bool,
                 q: nat, qos: nat, j: nat, k: Slot)
    requires Walking(v, t, kv, slots, from, out, more, on, q, qos, j, k) && (q == 0 || !on)
    ensures Walked(t, kv, slots, from, out, more, on)
  {
  }

  /** One entry further. */
  method Onward(index: PageTree, ghost seen: seq<Slot>, ghost slots: seq<Slot>, ghost from: Bound, p: nat, pos: nat, ghost i: nat, ghost r: Slot)
    returns (q: nat, qos: nat, ghost j: nat, ghost k: Slot)
    requires index.Valid() && p != 0 && Standing(index.pages.view, index.t, seen, from, p, pos, i, r) && slots == seen + [r]
    ensures Standing(index.pages.view, index.t, slots, from, q, qos, j, k) && |seen| < |AllSlots(index.t)|
  {
    q, qos, j, k := Next(index, p, pos, i, r);
    EntryHas(index.pages.view, index.t, p, pos, i, r);
    OneFurther(index.t, seen, from, r, if q == 0 then PosInf else At(k.key));
  }

  /** The visitor asked for more after each of the first n records. */
  ghost predicate Allowed(out: seq<(Bytes, Bytes)>, more: (Bytes, Bytes) -> bool, n: nat) {
    n <= |out| && forall x {:trigger out[x]} :: 0 <= x < n ==> more(out[x].0, out[x].1)
  }

  /** The entries are those from `from` on up to the last of them. */
  ghost predicate UpToLast(t: Tree, slots: seq<Slot>, from: Bound) {
    slots != [] && var n := |slots| - 1;
    && Has(t, slots[n]) && !Lt(slots[n].key, from) && IndexWalk.Listed(t, slots[..n], from, At(slots[n].key))
  }

  ghost predicate Ascending(out: seq<(Bytes, Bytes)>) {
    forall i, j {:trigger out[i], out[j]} :: 0 <= i < j < |out| ==> Lex(out[i].0, out[j].0) < 0
  }

  ghost predicate Skipped(k: Bytes, from: Option<Bytes>) {
    from.Some? && Lex(k, from.value) < 0
  }

  /** The rows are of the map, and none is skipped. */
  ghost predicate OfMap(m: map<Bytes, Bytes>, out: seq<(Bytes, Bytes)>, from: Option<Bytes>) {
    forall x {:trigger x in out} :: x in out ==> x.0 in m && m[x.0] == x.1 && !Skipped(x.0, from)
  }

  /** No key from `from` on is missing. */
  ghost predicate NoneMissing(m: map<Bytes, Bytes>, out: seq<(Bytes, Bytes)>, from: Option<Bytes>) {
    forall k {:trigger k in m} :: k in m && !Skipped(k, from) ==> (k, m[k]) in out
  }

  /** None is missing up to the last one listed. */
  ghost predicate CompleteTo(m: map<Bytes, Bytes>, out: seq<(Bytes, Bytes)>, from: Option<Bytes>)
    requires out != []
  {
    forall k {:trigger k in m} :: k in m && !Skipped(k, from) && Lex(k, out[|out| - 1].0) <= 0 ==> (k, m[k]) in out
  }

  ghost function LowOf(from: Option<Bytes>): Bound {
    if from.None? then NegInf else At(Rank(from.value))
  }

  /** Rows of sorted entries ascend, and come from the map. */
  lemma RowsShown(t: Tree, kv: RecordMap, at: map<Bytes, Addr>, m: map<Bytes, Bytes>, slots: seq<Slot>, out: seq<(Bytes, Bytes)>, from: Option<Bytes>)
    requires Shown(t, kv, at, m) && Rows(kv, slots, out) && Sorted(slots)
    requires forall i :: 0 <= i < |slots| ==> Has(t, slots[i]) && !Lt(slots[i].key, LowOf(from))
    ensures Ascending(out) && OfMap(m, out, from)
  {
    forall i, j | 0 <= i < j < |out| ensures Lex(out[i].0, out[j].0) < 0 {
      assert slots[i].key < slots[j].key;
      RankOrder(out[i].0, out[j].0);
    }
    forall x | x in out ensures x.0 in m && m[x.0] == x.1 && !Skipped(x.0, from) {
      var i :| 0 <= i < |out| && out[i] == x;
      EntryKey(t, kv, at, m, slots[i]);
      if from.Some? { RankOrder(x.0, from.value); }
    }
  }

  /** The record of key k is among the rows when its entry is among the entries. */
  lemma RowOf(t: Tree, kv: RecordMap, at: map<Bytes, Addr>, m: map<Bytes, Bytes>, slots: seq<Slot>, out: seq<(Bytes, Bytes)>, k: Bytes)
    requires Shown(t, kv, at, m) && Rows(kv, slots, out) && k in m && k in at && SlotOf(at[k], k) in slots
    ensures (k, m[k]) in out
  {
    var i :| 0 <= i < |slots| && slots[i] == SlotOf(at[k], k);
    assert kv[at[k]] == (k, m[k]) && out[i] == (k, m[k]);
  }

  lemma AllRows(t: Tree, kv: RecordMap, at: map<Bytes, Addr>, m: map<Bytes, Bytes>, slots: seq<Slot>, out: seq<(Bytes, Bytes)>, from: Option<Bytes>)
    requires Shown(t, kv, at, m) && Rows(kv, slots, out) && IndexWalk.Listed(t, slots, LowOf(from), PosInf)
    ensures Ascending(out) && OfMap(m, out, from)
    ensures NoneMissing(m, out, from)
  {
    Complete(t, slots, LowOf(from));
    RowsShown(t, kv, at, m, slots, out, from);
    forall k {:trigger k in m} | k in m && !Skipped(k, from) ensures (k, m[k]) in out {
      KeyEntry(t, kv, at, m, k);
      if from.Some? { RankOrder(k, from.value); }
      RowOf(t, kv, at, m, slots, out, k);
    }
  }

  lemma RowsToLast(t: Tree, kv: RecordMap, at: map<Bytes, Addr>, m: map<Bytes, Bytes>, slots: seq<Slot>, out: seq<(Bytes, Bytes)>, from: Option<Bytes>)
    requires Order(t) && Shown(t, kv, at, m) && Rows(kv, slots, out) && UpToLast(t, slots, LowOf(from))
    ensures Ascending(out) && OfMap(m, out, from)
    ensures out != [] && CompleteTo(m, out, from)
  {
    Stopped(t, slots, LowOf(from));
    RowsShown(t, kv, at, m, slots, out, from);
    var last := out[|out| - 1];
    forall k {:trigger k in m} | k in m && !Skipped(k, from) && Lex(k, last.0) <= 0 ensures (k, m[k]) in out {
      KeyEntry(t, kv, at, m, k);
      if from.Some? { RankOrder(k, from.value); }
      RankOrder(k, last.0);
      RowOf(t, kv, at, m, slots, out, k);
    }
  }

  /** Index pages and data pages share the pages in use between them, without rest. */
  ghost predicate Shared(used: set<nat>, index: set<nat>, data: set<nat>) {
    used == index + data && index !! data
  }

  lemma IndexChanged(used: set<nat>, index: set<nat>, data: set<nat>, used': set<nat>, index': set<nat>)
    requires Shared(used, index, data) && used' - index' == used - index && index' <= used'
    ensures Shared(used', index', data)
  {
  }

  lemma DataChanged(used: set<nat>, index: set<nat>, data: set<nat>, used': set<nat>, data': set<nat>)
    requires Shared(used, index, data) && used' - data' == used - data && data' <= used'
    ensures Shared(used', index, data') && index <= used'
  {
  }

  /** The key is behind the first a keys, and in front of those from a + n on. */
  ghost predicate Narrowed(keys: seq<Slot>, a: int, n: int, key: real) {
    0 <= a <= a + n <= |keys| && (a > 0 ==> keys[a - 1].key < key) && (a + n < |keys| ==> key < keys[a + n].key)
  }

  /** Which entry of page p is at pos. */
  ghost function PlaceIn(v: Pages, p: nat, pos: nat): nat {
    if p in v && v[p].lPos <= pos then pos - v[p].lPos else 0
  }

  /** What the binary search in a page's keys ends with. */
  ghost predicate Probed(keys: seq<Slot>, j: nat, cmp: int, key: real) {
    && j <= |keys|
    && if cmp == 0 then j < |keys| && keys[j].key == key
       else (j > 0 ==> keys[j - 1].key < key) && (j < |keys| ==> key < keys[j].key)
  }

  lemma RootSpans(t: Tree, key: real)
    requires Order(t) && Sized(t)
    ensures t.root in t.nodes && t.root in t.info && Inside(t.info[t.root], key) && (t.nodes[t.root].keys == [] ==> t.info[t.root].level == 0)
  {
    assert NodeOk(t, t.root) && SizeOk(t, t.root);
  }

  /** A block in use is a slice of the record of some key. */
  lemma KeyOfBlock(v: Space, recs: map<Addr, seq<Addr>>, own: map<Addr, Addr>, kv: RecordMap, at: map<Bytes, Addr>, m: map<Bytes, Bytes>, a: Addr)
      returns (k: Bytes, i: nat)
    requires RecordsOk(v, recs, own) && AllHold(v, recs, kv) && Kept(kv, at, m) && InUse(v, a)
    ensures k in m && k in at && at[k] in recs && i < |recs[at[k]]| && recs[at[k]][i] == a
  {
    assert Owned(v, recs, own, a);
    var h := own[a];
    k := kv[h].0;
    i :| 0 <= i < |recs[h]| && recs[h][i] == a;
  }

  lemma NothingShown(t: Tree, kv: RecordMap)
    requires kv == map[] && forall s :: !Has(t, s)
    ensures Shown(t, kv, map[], map[])
  {
  }

  class Store {
    const pool: PageAllocator
    const index: PageTree
    const recs: RecordStore
    ghost var at: map<Bytes, Addr>        // where the record of a key is
    ghost var contents: map<Bytes, Bytes>

    ghost predicate Linked()
      reads index, recs
    {
      && index.pages.pool == pool && recs.data.pool == pool
    }

    /** Index and records are in order, and the pages in use are shared between them. */
    ghost predicate Sound()
      reads index, index.pages, recs, recs.data, pool
    {
      var sound := Linked() && index.Valid() && recs.Valid() && Shared(pool.used, index.pages.view.Keys, PagesOf(recs.data.blocks));
      sound
    }

    ghost predicate Valid()
      reads this, index, index.pages, recs, recs.data, pool
    {
      var sound, shown := Sound(), Shown(index.t, recs.kv, at, contents);
      sound && shown
    }

    constructor ()
      ensures Valid() && contents == map[]
    {
      var p := new PageAllocator();
      pool := p;
      var i := new PageTree(p);
      index := i;
      var r := new RecordStore(p);
      recs := r;
      at, contents := map[], map[];
      new;
      assert PagesOf(recs.data.blocks) == {};
      assert Sound();
      NothingShown(index.t, recs.kv);
    }

    /** Every page of the file is exactly one of three: on the free list, an index page reached from
        the root, or a data page with a slice of the record of some key. */
    lemma EveryPageOnce(page: nat) returns (way: seq<nat>, k: Bytes, i: nat)
      requires Valid() && 1 <= page <= pool.maxPageIdx
      ensures page in pool.free <==> page !in index.t.nodes && page !in PagesOf(recs.data.blocks)
      ensures page in index.t.nodes ==> page !in PagesOf(recs.data.blocks) && WayDown(index.t, way) && way[|way| - 1] == page
      ensures page in PagesOf(recs.data.blocks) ==>
                k in contents && k in at && at[k] in recs.recs && i < |recs.recs[at[k]]| && recs.recs[at[k]][i].page == page
    {
      way, k, i := [], [], 0;
      assert index.pages.view.Keys == index.t.nodes.Keys;
      if page in index.t.nodes {
        way := Reached(index.t, page);
      } else if page in PagesOf(recs.data.blocks) {
        var a := PageInUse(recs.data.blocks, recs.data.heads, recs.data.stamp, recs.data.now, page);
        k, i := KeyOfBlock(recs.data.blocks, recs.recs, recs.own, recs.kv, at, contents, a);
      }
    }

    /** What index and records show now. */
    ghost method Note(at': map<Bytes, Addr>, m: map<Bytes, Bytes>)
      requires Sound() && Shown(index.t, recs.kv, at', m)
      modifies this
      ensures Valid() && contents == m
    {
      at, contents := at', m;
    }

    /** The sought key against the key of an entry: by the bytes kept in the entry, and by the record
        when they do not decide. */
    method CompareEntry(key: Bytes, s: Slot) returns (r: int)
      requires Valid() && |key| < MAXKEY && Has(index.t, s)
      ensures r < 0 <==> Rank(key) < s.key
      ensures r > 0 <==> Rank(key) > s.key
    {
      EntryKey(index.t, recs.kv, at, contents, s);
      ghost var k := recs.kv[AddrOf(s)].0;
      RankOrder(key, k);
      assert k in contents;
      r := Compare(recs, Entry(s.head, s.len, AddrOf(s)), key, k);
    }

    /** Binary search in the window of page p, which has keys. */
    method SearchPage(p: nat, key: Bytes) returns (pos: nat, cmp: int, ghost j: nat)
      requires Valid() && |key| < MAXKEY && p in index.t.nodes && 0 < |index.t.nodes[p].keys|
      ensures p in index.pages.view && j == PlaceIn(index.pages.view, p, pos) && pos == index.pages.view[p].lPos + j
      ensures Probed(index.t.nodes[p].keys, PlaceIn(index.pages.view, p, pos), cmp, Rank(key))
    {
      ghost var t, keys, k := index.t, index.t.nodes[p].keys, Rank(key);
      KeysShown(index.pages.view, t, p);
      var pg := index.pages.view[p];
      pos := pg.lPos;
      var size := pg.rPos - pg.lPos;
      cmp := 1;
      while size > 0
        invariant pg.lPos <= pos && 0 <= size && pos + size <= pg.rPos && cmp != 0 && Narrowed(keys, pos - pg.lPos, size, k)
        decreases size
      {
        var half := size / 2;
        cmp := CompareAt(p, pos + half, key, pos + half - pg.lPos);
        if cmp > 0 {
          size := size - (half + 1);
          pos := pos + half + 1;
        } else if cmp < 0 {
          size := half;
        } else {
          pos := pos + half;
          j := pos - pg.lPos;
          return;
        }
      }
      j := pos - pg.lPos;
    }

    /** The sought key against entry j of page p, which is at pos. */
    method CompareAt(p: nat, pos: nat, key: Bytes, ghost j: nat) returns (r: int)
      requires Valid() && |key| < MAXKEY && p in index.t.nodes && j < |index.t.nodes[p].keys|
      requires p in index.pages.view && pos == index.pages.view[p].lPos + j
      ensures r < 0 <==> Rank(key) < index.t.nodes[p].keys[j].key
      ensures r > 0 <==> Rank(key) > index.t.nodes[p].keys[j].key
    {
      KeysShown(index.pages.view, index.t, p);
      var s := index.pages.view[p].slot[pos];
      HasAt(index.t, p, j, s);
      r := CompareEntry(key, s);
    }

    /** Descends from the root to the entry with this key, or to its place in a leaf.  An empty
        index has no entry at all. */
    method FindKey(key: Bytes) returns (some: bool, p: nat, pos: nat, cmp: int, ghost j: nat)
      requires Valid() && |key| < MAXKEY
      ensures some ==> j == PlaceIn(index.pages.view, p, pos)
      ensures Sought(index.pages.view, index.t, some, p, pos, cmp, PlaceIn(index.pages.view, p, pos), Rank(key))
    {
      ghost var v, t := index.pages.view, index.t;
      p := index.root;
      pos, cmp, j, some := 0, 1, 0, true;
      KeysShown(v, t, p);
      RootSpans(t, Rank(key));
      if index.pages.view[p].rPos == index.pages.view[p].lPos {
        some := false;
        return;
      }
      while true
        invariant p in t.nodes && p in v && p in t.info && Inside(t.info[p], Rank(key)) && 0 < |t.nodes[p].keys|
        decreases t.info[p].level
      {
        pos, cmp, j := SearchPage(p, key);
        if cmp == 0 { return; }
        DownOne(v, t, p, j, Rank(key));
        var c := index.pages.view[p].child[pos];
        if c == 0 { return; }
        p := c;
      }
    }

    /** Looks for the key in the index.  Found, the entry at the place leads to its record. */
    method Look(key: Bytes) returns (some: bool, p: nat, pos: nat, cmp: int, ghost j: nat)
      requires Valid() && |key| < MAXKEY
      ensures (some && cmp == 0) == (key in contents)
      ensures var looked := Looked(index.pages.view, index.t, recs.kv, key in contents, some, p, pos, cmp, j, key); looked
    {
      some, p, pos, cmp, j := FindKey(key);
      ghost var v, t := index.pages.view, index.t;
      if some && cmp == 0 {
        KeysShown(v, t, p);
        FoundEntry(v, t, recs.kv, at, contents, p, pos, j, key);
      } else if some {
        FreePlace(t, p, j, Rank(key));
        NoEntry(t, recs.kv, at, contents, key);
      } else {
        EmptyHas(t);
        NoEntry(t, recs.kv, at, contents, key);
      }
    }

    method Find(key: Bytes) returns (r: Option<Bytes>)
      requires Valid() && |key| < MAXKEY
      ensures r == if key in contents then Some(contents[key]) else None
    {
      var some, p, pos, cmp;
      ghost var j;
      some, p, pos, cmp, j := Look(key);
      if !some || cmp != 0 { return None; }
      var a := AddrOf(index.pages.view[p].slot[pos]);
      FoundHas(index.pages.view, index.t, recs.kv, at, contents, p, pos, j, key);
      var val := recs.ExtractVal(a);
      r := Some(val);
    }

    /** The first key, if there is any. */
    method FirstKey() returns (r: Option<Bytes>)
      requires Valid()
      ensures r.None? <==> contents == map[]
      ensures r.Some? ==> r.value in contents && forall k {:trigger k in contents} :: k in contents ==> Lex(r.value, k) <= 0
    {
      var p, pos;
      ghost var s;
      p, pos, s := LeftMost(index, index.root);
      if p == 0 {
        EmptyHas(index.t);
        EmptyMap(index.t, recs.kv, at, contents);
        return None;
      }
      FirstOfMap(index.t, recs.kv, at, contents, s);
      var key := recs.ExtractKey(AddrOf(index.pages.view[p].slot[pos]));
      r := Some(key);
    }

    /** The key behind a key; what is at its place is taken for it.  So when the key is not in the
        store, the first key behind it is skipped, unless its place is behind all keys of a leaf:
        there a child link is read behind the window, where `beyond` is found, and followed. */
    method NextKey(key: Bytes, beyond: nat) returns (r: Option<Bytes>, astray: bool, ghost skips: bool)
      requires Valid() && |key| < MAXKEY
      ensures var answer := NextAnswer(contents, key, beyond, r, astray, skips); answer
    {
      var some, p, pos, cmp;
      ghost var j;
      some, p, pos, cmp, j := Look(key);
      if !some {
        NothingStored();
        r, astray, skips := None, false, false;
      } else if cmp == 0 {
        r, astray, skips := NextOfFound(key, beyond, p, pos, j);
      } else {
        r, astray, skips := NextOfAbsent(key, beyond, p, pos, cmp, j);
      }
    }

    lemma NothingStored()
      requires Valid() && index.t.info[index.t.root].level == 0 && index.t.nodes[index.t.root].keys == []
      ensures contents == map[]
    {
      EmptyHas(index.t);
      EmptyMap(index.t, recs.kv, at, contents);
    }

    method NextOfFound(key: Bytes, ghost beyond: nat, p: nat, pos: nat, ghost j: nat) returns (r: Option<Bytes>, astray: bool, ghost skips: bool)
      requires Valid() && key in contents
      requires var found := Found(index.pages.view, index.t, recs.kv, p, pos, j, key); found
      ensures var answer := NextAnswer(contents, key, beyond, r, astray, skips); answer
    {
      ghost var k := index.pages.view[p].slot[pos];
      assert EntryAt(index.pages.view, index.t, p, pos, j, k);
      r := KeyAfter(p, pos, j, k, key);
      astray, skips := false, false;
      NextOfKnown(contents, key, beyond, r);
    }

    method NextOfAbsent(key: Bytes, beyond: nat, p: nat, pos: nat, ghost cmp: int, ghost j: nat) returns (r: Option<Bytes>, astray: bool, ghost skips: bool)
      requires Valid() && key !in contents && cmp != 0
      requires var sought := Sought(index.pages.view, index.t, true, p, pos, cmp, j, Rank(key)); sought
      ensures var answer := NextAnswer(contents, key, beyond, r, astray, skips); answer
    {
      r, astray, skips := None, false, false;
      KeysShown(index.pages.view, index.t, p);
      if pos < index.pages.view[p].rPos {
        r := SkipOne(p, pos, j, key);
        skips := true;
        return;
      }
      NotBelowAll(index.t, recs.kv, at, contents, p, j, key);
      if beyond != 0 {
        astray := true;
      } else {
        r := KeyBehindLeaf(p, pos, j, key);
      }
    }

    method SkipOne(p: nat, pos: nat, ghost j: nat, ghost key: Bytes) returns (r: Option<Bytes>)
      requires Valid() && Fits(index.t, p, j, Rank(key)) && p in index.pages.view && pos == index.pages.view[p].lPos + j
      requires j < |index.t.nodes[p].keys|
      ensures var skips := SkipsOne(contents, key, r); skips
    {
      ghost var s, g := FirstAbove(index.pages.view, index.t, recs.kv, at, contents, p, pos, j, key);
      r := KeyAfter(p, pos, j, s, g);
      SkipsGives(contents, key, g, r);
    }

    /** The key behind the one at a place, if there is one. */
    method KeyAfter(p: nat, pos: nat, ghost j: nat, ghost k: Slot, ghost key: Bytes) returns (r: Option<Bytes>)
      requires Valid() && EntryAt(index.pages.view, index.t, p, pos, j, k) && k.key == Rank(key)
      ensures IsNext(contents, key, r)
    {
      ghost var t := index.t;
      var q, qos;
      ghost var i, s;
      q, qos, i, s := Next(index, p, pos, j, k);
      if q == 0 {
        NoneBehind(t, recs.kv, at, contents, key);
        return None;
      }
      KeyBehind(t, recs.kv, at, contents, key, s);
      var next := recs.ExtractKey(AddrOf(index.pages.view[q].slot[qos]));
      r := Some(next);
    }

    /** The key behind a place at the end of a leaf, if there is one. */
    method KeyBehindLeaf(p: nat, pos: nat, ghost j: nat, ghost key: Bytes) returns (r: Option<Bytes>)
      requires Valid() && Fits(index.t, p, j, Rank(key)) && p in index.pages.view && pos == index.pages.view[p].lPos + j
      requires j == |index.t.nodes[p].keys| > 0
      ensures IsNext(contents, key, r)
    {
      ghost var v, t := index.pages.view, index.t;
      ghost var k := t.nodes[p].keys[j - 1];
      EntryShown(v, t, p, j - 1, k);
      var q, qos;
      ghost var i, s;
      q, qos, i, s := Next(index, p, pos - 1, j - 1, k);
      if q == 0 {
        NoneBehind(t, recs.kv, at, contents, key);
        return None;
      }
      AbovePlace(t, p, j, Rank(key), s);
      KeyBehind(t, recs.kv, at, contents, key, s);
      var next := recs.ExtractKey(AddrOf(index.pages.view[q].slot[qos]));
      r := Some(next);
    }

    /** The entry a walk starts with, if there is one. */
    method Start(from: Option<Bytes>) returns (p: nat, pos: nat, ghost i: nat, ghost r: Slot)
      requires Valid() && (from.Some? ==> |from.value| < MAXKEY)
      ensures Standing(index.pages.view, index.t, [], LowOf(from), p, pos, i, r)
    {
      if from.Some? {
        p, pos, i, r := StartAt(from.value);
        return;
      }
      i := 0;
      p, pos, r := LeftMost(index, index.root);
      if p == 0 { EmptyHas(index.t); } else { EntryHas(index.pages.view, index.t, p, pos, i, r); }
    }

    method StartAt(key: Bytes) returns (p: nat, pos: nat, ghost i: nat, ghost r: Slot)
      requires Valid() && |key| < MAXKEY
      ensures var standing := Standing(index.pages.view, index.t, [], At(Rank(key)), p, pos, i, r); standing
    {
      var some, q, qos, cmp;
      ghost var j;
      some, q, qos, cmp, j := FindKey(key);
      p, pos, i, r := GreatEqual(index, some, q, qos, cmp, j, Rank(key));
      StandingAt(index.pages.view, index.t, Rank(key), p, pos, i, r);
    }

    /** Visits the records from entry pos of page p on, in the order of keys, until the visitor has
        had enough.  `slots` are the entries visited. */
    method WalkOn(p: nat, pos: nat, ghost i: nat, ghost r: Slot, ghost from: Bound, more: (Bytes, Bytes) -> bool)
      returns (out: seq<(Bytes, Bytes)>, done: bool, ghost slots: seq<Slot>)
      requires Valid()
      requires Standing(index.pages.view, index.t, [], from, p, pos, i, r)
      ensures Walked(index.t, recs.kv, slots, from, out, more, done)
    {
      ghost var v, t, kv := index.pages.view, index.t, recs.kv;
      var q, qos := p, pos;
      ghost var j, k := i, r;
      out, slots, done := [], [], true;
      while q != 0 && done
        invariant Walking(v, t, kv, slots, from, out, more, done, q, qos, j, k)
        decreases if q == 0 || !done then 0 else 1, |AllSlots(t)| - |slots|
      {
        out, done, slots, q, qos, j, k := Step(out, more, slots, from, q, qos, j, k);
      }
      WalkEnds(v, t, kv, slots, from, out, more, done, q, qos, j, k);
    }

    /** Visits all records, or those whose key is not below `from`. */
    method Walk(from: Option<Bytes>, more: (Bytes, Bytes) -> bool) returns (out: seq<(Bytes, Bytes)>, done: bool)
      requires Valid() && (from.Some? ==> |from.value| < MAXKEY)
      ensures Ascending(out) && OfMap(contents, out, from)
      ensures Allowed(out, more, if done || out == [] then |out| else |out| - 1)
      ensures done ==> NoneMissing(contents, out, from)
      ensures !done ==> out != [] && !more(out[|out| - 1].0, out[|out| - 1].1) && CompleteTo(contents, out, from)
    {
      var p, pos;
      ghost var i, r, slots;
      p, pos, i, r := Start(from);
      out, done, slots := WalkOn(p, pos, i, r, LowOf(from), more);
      if done { AllRows(index.t, recs.kv, at, contents, slots, out, from); }
      else { RowsToLast(index.t, recs.kv, at, contents, slots, out, from); }
    }

    /** Shows the record of an entry to the visitor, and goes on to the next entry. */
    method Step(seen: seq<(Bytes, Bytes)>, more: (Bytes, Bytes) -> bool, ghost slots: seq<Slot>, ghost from: Bound, q: nat, qos: nat, ghost j: nat, ghost k: Slot)
      returns (out: seq<(Bytes, Bytes)>, on: bool, ghost slots': seq<Slot>, q': nat, qos': nat, ghost j': nat, ghost k': Slot)
      requires Valid() && q != 0 && Walking(index.pages.view, index.t, recs.kv, slots, from, seen, more, true, q, qos, j, k)
      ensures Walking(index.pages.view, index.t, recs.kv, slots', from, out, more, on, q', qos', j', k')
      ensures |slots| < |AllSlots(index.t)| && |slots'| == |slots| + 1
    {
      var key, val := ReadEntry(q, qos, j, k);
      out, on := seen + [(key, val)], more(key, val);
      slots' := slots + [k];
      q', qos', j', k' := Onward(index, slots, slots', from, q, qos, j, k);
      OneShown(index.pages.view, index.t, recs.kv, slots, slots', from, seen, out, more, q, qos, j, k, key, val, q', qos', j', k');
    }

    /** The record that an entry leads to. */
    method ReadEntry(q: nat, qos: nat, ghost j: nat, ghost k: Slot) returns (key: Bytes, val: Bytes)
      requires Valid() && EntryAt(index.pages.view, index.t, q, qos, j, k)
      ensures AddrOf(k) in recs.kv && recs.kv[AddrOf(k)] == (key, val) && k.key == Rank(key)
    {
      EntryHas(index.pages.view, index.t, q, qos, j, k);
      EntryKey(index.t, recs.kv, at, contents, k);
      var a := AddrOf(index.pages.view[q].slot[qos]);
      key := recs.ExtractKey(a);
      val := recs.ExtractVal(a);
    }

    /** Takes a new key, or a new value for a known key if `replace` says so. */
    method Put(key: Bytes, val: Bytes, replace: bool) returns (ok: bool)
      requires Valid() && KeyOk(key) && |key| + |val| + 8 < MAXLEN
      modifies this, index, index.pages, recs, recs.data, pool
      ensures Valid() && ok == (replace || key !in old(contents)) && contents == if ok then old(contents)[key := val] else old(contents)
    {
      var some, p, pos, cmp;
      ghost var j;
      some, p, pos, cmp, j := Look(key);
      ok := !some || cmp != 0 || replace;
      if ok { PutAt(some, p, pos, cmp, key, val, j); }
    }

    method PutAt(some: bool, p: nat, pos: nat, cmp: int, key: Bytes, val: Bytes, ghost j: nat)
      requires Valid() && KeyOk(key) && |key| + |val| + 8 < MAXLEN && (some && cmp == 0) == (key in contents)
      requires var looked := Looked(index.pages.view, index.t, recs.kv, key in contents, some, p, pos, cmp, j, key); looked
      modifies this, index, index.pages, recs, recs.data, pool
      ensures Valid() && contents == old(contents)[key := val]
    {
      if some && cmp == 0 {
        Replace(p, pos, key, val, j);
      } else {
        Insert(some, p, pos, key, val, cmp, j);
      }
    }

    /** A new record and its entry, at the place a search found. */
    method Insert(some: bool, p: nat, pos: nat, key: Bytes, val: Bytes, ghost cmp: int, ghost j: nat)
      requires Valid() && KeyOk(key) && |key| + |val| + 8 < MAXLEN && key !in contents && !(some && cmp == 0)
      requires var sought := Sought(index.pages.view, index.t, some, p, pos, cmp, j, Rank(key)); sought
      modifies this, index, index.pages, recs, recs.data, pool
      ensures Valid() && contents == old(contents)[key := val]
    {
      ghost var t, kv, at0, m := index.t, recs.kv, at, contents;
      var a := AddRecord(key, val);
      var s := SlotOf(a, key);
      AddEntry(some, p, pos, s, cmp, j);
      ghost var at1, m1 := Added(t, index.t, kv, recs.kv, at0, m, a, key, val, s);
      Note(at1, m1);
    }

    /** Writes a record that no entry leads to yet. */
    method AddRecord(key: Bytes, val: Bytes) returns (a: Addr)
      requires Sound() && |key| + |val| + 8 < MAXLEN
      modifies recs, recs.data, pool
      ensures Sound() && a !in old(recs.kv) && recs.kv == old(recs.kv)[a := (key, val)]
    {
      ghost var used, data := pool.used, PagesOf(recs.data.blocks);
      a := recs.CreateNode(key, val);
      DataChanged(used, index.pages.view.Keys, data, pool.used, PagesOf(recs.data.blocks));
    }

    method AddEntry(some: bool, p: nat, pos: nat, s: Slot, ghost cmp: int, ghost j: nat)
      requires Sound() && Sought(index.pages.view, index.t, some, p, pos, cmp, j, s.key) && !(some && cmp == 0)
      modifies index, index.pages, pool
      ensures Sound() && OneMore(old(index.t), index.t, s)
    {
      ghost var used, view := pool.used, index.pages.view.Keys;
      if some { index.InsertLeaf(p, pos, s, j); } else { index.InsertFirst(s); }
      IndexChanged(used, view, PagesOf(recs.data.blocks), pool.used, index.pages.view.Keys);
    }

    method Replace(p: nat, pos: nat, key: Bytes, val: Bytes, ghost j: nat)
      requires Valid() && KeyOk(key) && |key| + |val| + 8 < MAXLEN && key in contents
      requires var found := Found(index.pages.view, index.t, recs.kv, p, pos, j, key); found
      modifies this, index, index.pages, recs, recs.data, pool
      ensures Valid() && contents == old(contents)[key := val]
    {
      ghost var t, kv, at0, m := index.t, recs.kv, at, contents;
      var s := index.pages.view[p].slot[pos];
      var a := AddrOf(s);
      var g := RewriteRecord(a, key, val);
      var r := SlotOf(g, key);
      MoveEntry(p, pos, r, j);
      ghost var at1, m1 := Rewritten(t, index.t, kv, recs.kv, at0, m, a, g, key, val, s, r);
      Note(at1, m1);
    }

    method Rewrite(a: Addr, key: Bytes, val: Bytes) returns (g: Addr)
      requires recs.Valid() && recs.data.pool == pool && a in recs.kv && recs.kv[a].0 == key && |key| + |val| + 8 < MAXLEN
      modifies recs, recs.data, pool
      ensures recs.Valid() && recs.kv == (old(recs.kv) - {a})[g := (key, val)] && (g == a || g !in old(recs.kv))
      ensures pool.used - PagesOf(recs.data.blocks) == old(pool.used - PagesOf(recs.data.blocks)) && recs.data.pool == pool
    {
      g := recs.PutReplace(a, key, val);
    }

    method RewriteRecord(a: Addr, key: Bytes, val: Bytes) returns (g: Addr)
      requires Sound() && a in recs.kv && recs.kv[a].0 == key && |key| + |val| + 8 < MAXLEN
      modifies recs, recs.data, pool
      ensures Sound() && recs.kv == (old(recs.kv) - {a})[g := (key, val)] && (g == a || g !in old(recs.kv))
    {
      ghost var used, data := pool.used, PagesOf(recs.data.blocks);
      g := Rewrite(a, key, val);
      DataChanged(used, index.pages.view.Keys, data, pool.used, PagesOf(recs.data.blocks));
    }

    /** Points an entry to where its record is now. */
    method MoveEntry(p: nat, pos: nat, r: Slot, ghost j: nat)
      requires Sound() && p in index.t.nodes && p in index.pages.view && j < |index.t.nodes[p].keys| && pos == index.pages.view[p].lPos + j
      requires r.key == index.t.nodes[p].keys[j].key
      modifies index, index.pages
      ensures Sound() && OneMoved(old(index.t), index.t, old(index.t).nodes[p].keys[j], r)
    {
      ghost var used, view := pool.used, index.pages.view.Keys;
      index.Relocate(p, pos, r, j);
      IndexChanged(used, view, PagesOf(recs.data.blocks), pool.used, index.pages.view.Keys);
    }

    method Del(key: Bytes) returns (ok: bool)
      requires Valid() && |key| < MAXKEY
      modifies this, index, index.pages, recs, recs.data, pool
      ensures Valid() && ok == (key in old(contents)) && contents == if ok then old(contents) - {key} else old(contents)
    {
      var some, p, pos, cmp;
      ghost var j;
      some, p, pos, cmp, j := Look(key);
      ok := some && cmp == 0;
      if ok { RemoveFound(p, pos, key, j); }
    }

    method RemoveFound(p: nat, pos: nat, key: Bytes, ghost j: nat)
      requires Valid() && key in contents
      requires var found := Found(index.pages.view, index.t, recs.kv, p, pos, j, key); found
      modifies this, index, index.pages, recs, recs.data, pool
      ensures Valid() && contents == old(contents) - {key}
    {
      ghost var t, kv, at0, m := index.t, recs.kv, at, contents;
      var s := index.pages.view[p].slot[pos];
      DropRecord(AddrOf(s));
      DropEntry(p, pos, j);
      ghost var at1, m1 := Removed(t, index.t, kv, recs.kv, at0, m, AddrOf(s), key, s);
      Note(at1, m1);
    }

    /** Frees a record whose entry is about to go. */
    method DropRecord(a: Addr)
      requires Sound() && a in recs.kv
      modifies recs, recs.data, pool
      ensures Sound() && recs.kv == old(recs.kv) - {a}
    {
      ghost var used, data := pool.used, PagesOf(recs.data.blocks);
      recs.FreeData(a);
      DataChanged(used, index.pages.view.Keys, data, pool.used, PagesOf(recs.data.blocks));
    }

    method DropEntry(p: nat, pos: nat, ghost j: nat)
      requires Sound() && p in index.t.nodes && p in index.pages.view && j < |index.t.nodes[p].keys| && pos == index.pages.view[p].lPos + j
      modifies index, index.pages, pool
      ensures Sound() && OneLess(old(index.t), index.t, old(index.t).nodes[p].keys[j])
    {
      ghost var used, view := pool.used, index.pages.view.Keys;
      index.Remove(p, pos, j);
      IndexChanged(used, view, PagesOf(recs.data.blocks), pool.used, index.pages.view.Keys);
    }
  }

  /** Entry j of page p, at pos, is that of key k. */
  ghost predicate Found(v: Pages, t: Tree, kv: RecordMap, p: nat, pos: nat, j: nat, k: Bytes) {
    && p in v && p in t.nodes && j < |t.nodes[p].keys| && pos == v[p].lPos + j && pos < |v[p].slot|
    && v[p].slot[pos] == t.nodes[p].keys[j]
    && var s := v[p].slot[pos]; AddrOf(s) in kv && kv[AddrOf(s)].0 == k && s == SlotOf(AddrOf(s), k)
  }

  /** What a look for key k ends with: its entry, or the place for it. */
  ghost predicate Looked(v: Pages, t: Tree, kv: RecordMap, known: bool, some: bool, p: nat, pos: nat, cmp: int, j: nat, k: Bytes) {
    if known then Found(v, t, kv, p, pos, j, k) else Sought(v, t, some, p, pos, cmp, j, Rank(k))
  }

  lemma FoundEntry(v: Pages, t: Tree, kv: RecordMap, at: map<Bytes, Addr>, m: map<Bytes, Bytes>, p: nat, pos: nat, j: nat, k: Bytes)
    requires Matched(t, kv) && Kept(kv, at, m) && p in v && p in t.nodes && j < |t.nodes[p].keys| && pos == v[p].lPos + j && pos < |v[p].slot|
    requires v[p].slot[pos] == t.nodes[p].keys[j] && t.nodes[p].keys[j].key == Rank(k)
    ensures Found(v, t, kv, p, pos, j, k) && k in m
  {
    var s := t.nodes[p].keys[j];
    HasAt(t, p, j, s);
    EntryKey(t, kv, at, m, s);
    SameRank(k, kv[AddrOf(s)].0);
  }

  lemma FoundHas(v: Pages, t: Tree, kv: RecordMap, at: map<Bytes, Addr>, m: map<Bytes, Bytes>, p: nat, pos: nat, j: nat, k: Bytes)
    requires Found(v, t, kv, p, pos, j, k) && Kept(kv, at, m)
    ensures k in m && kv[AddrOf(v[p].slot[pos])] == (k, m[k])
  {
    assert kv[AddrOf(v[p].slot[pos])].0 == k;
  }
}

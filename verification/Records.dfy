/** Records: chains of blocks that hold, one behind the other, the record's length, the length of
    its key, the key and the value. */
module Records {
  import opened Common
  import opened Blocks
  import opened DataPages
  import PagePool

  const MAXLEN: nat := 0x1_0000_0000

  /** A 32-bit number, least significant byte first. */
  function Le32(n: nat): (s: Bytes)
    ensures |s| == 4
  {
    [n % 256, n / 256 % 256, n / 65536 % 256, n / 16777216 % 256]
  }

  function U32(s: Bytes): nat
    requires |s| == 4
  {
    s[0] as int + 256 * s[1] as int + 65536 * s[2] as int + 16777216 * s[3] as int
  }

  lemma Le32RoundTrip(n: nat)
    requires n < MAXLEN
    ensures U32(Le32(n)) == n
  {
    var a, b, c := n / 256, n / 65536, n / 16777216;
    assert a / 256 == b && b / 256 == c && c < 256;
    assert n == 256 * a + n % 256 && a == 256 * b + a % 256 && b == 256 * c + b % 256;
  }

  /** What a record stores. */
  function Stored(key: Bytes, val: Bytes): (s: Bytes)
    ensures |s| == 8 + |key| + |val|
  {
    Le32(|key| + |val| + 8) + Le32(|key|) + key + val
  }

  lemma StoredParts(key: Bytes, val: Bytes)
    ensures var s := Stored(key, val);
            && s[..4] == Le32(|key| + |val| + 8) && s[4..8] == Le32(|key|)
            && s[8..8 + |key|] == key && s[8 + |key|..] == val
  {
  }

  // ---------------------------------------------------------------- chains

  function Slice(b: Block): Bytes
    requires b.size <= |b.bytes|
  {
    b.bytes[..b.size]
  }

  /** The chained blocks, in use, with their bytes in place. */
  ghost predicate Lined(v: Space, ch: seq<Addr>) {
    && (forall i {:trigger ch[i]} :: 0 <= i < |ch| ==> InUse(v, ch[i]) && v[ch[i]].size <= |v[ch[i]].bytes|)
    && (forall i, j :: 0 <= i < j < |ch| ==> ch[i] != ch[j])
  }

  /** Each block links to the next, and the last to none. */
  ghost predicate Links(v: Space, ch: seq<Addr>) {
    forall i {:trigger ch[i]} :: 0 <= i < |ch| ==> ch[i] in v && v[ch[i]].link == if i + 1 < |ch| then ch[i + 1] else NIL
  }

  ghost function Content(v: Space, ch: seq<Addr>): Bytes
    requires Lined(v, ch)
    decreases |ch|
  {
    if ch == [] then []
    else
      var n := |ch| - 1;
      FrontLined(v, ch);
      Content(v, ch[..n]) + Slice(v[ch[n]])
  }

  lemma FrontLined(v: Space, ch: seq<Addr>)
    requires Lined(v, ch) && ch != []
    ensures Lined(v, ch[..|ch| - 1])
  {
  }

  lemma {:induction false} ContentSame(v: Space, w: Space, ch: seq<Addr>)
    requires Lined(v, ch) && forall i {:trigger ch[i]} :: 0 <= i < |ch| ==> ch[i] in w && w[ch[i]] == v[ch[i]]
    ensures Lined(w, ch) && Content(w, ch) == Content(v, ch)
    decreases |ch|
  {
    if ch != [] {
      FrontLined(v, ch);
      ContentSame(v, w, ch[..|ch| - 1]);
      assert ch[|ch| - 1] in w;
    }
  }

  /** The first blocks of the chain, and `at` bytes of the last. */
  ghost function Written(v: Space, ch: seq<Addr>, at: nat): Bytes
    requires Lined(v, ch) && ch != [] && at <= |v[ch[|ch| - 1]].bytes|
  {
    FrontLined(v, ch);
    Content(v, ch[..|ch| - 1]) + v[ch[|ch| - 1]].bytes[..at]
  }

  // ---------------------------------------------------------------- all records

  ghost predicate RecordOk(v: Space, recs: map<Addr, seq<Addr>>, own: map<Addr, Addr>, h: Addr) {
    h in recs ==>
      var ch := recs[h];
      && ch != [] && ch[0] == h && Lined(v, ch) && Links(v, ch)
      && (forall i {:trigger ch[i]} :: 0 <= i < |ch| ==> ch[i] in own && own[ch[i]] == h && (v[ch[i]].first <==> i == 0))
      && v[h].size >= 8
  }

  ghost predicate Owned(v: Space, recs: map<Addr, seq<Addr>>, own: map<Addr, Addr>, a: Addr) {
    InUse(v, a) ==> a in own && own[a] in recs && a in recs[own[a]]
  }

  /** Behind the bytes of block a there is no room for another block. */
  ghost predicate Snug(v: Space, a: Addr) {
    a in v && Capacity(v, a) < PAGEMINSPARE + v[a].size + HDR
  }

  /** From the n-th on, all blocks but the last are whole pages, and the last is not too long. */
  ghost predicate Neat(v: Space, ch: seq<Addr>, n: nat) {
    && ch != [] && Snug(v, Last(ch))
    && forall i {:trigger ch[i]} :: n <= i < |ch| - 1 ==> ch[i] in v && v[ch[i]].size == PAGEMAXSPARE
  }

  /** The first n blocks of the old chain, prior. */
  ghost predicate Begins(prior: seq<Addr>, ch: seq<Addr>, n: nat) {
    1 <= n <= |prior| && ch == prior[..n]
  }

  lemma BeginsMore(prior: seq<Addr>, ch: seq<Addr>, n: nat, b: Addr)
    requires Begins(prior, ch, n) && n < |prior| && b == prior[n]
    ensures Begins(prior, ch + [b], n + 1)
  {
  }

  /** The new chain ch is the old one, prior, for n blocks; it ends there, or prior does, or the next
      block of prior is not a whole page and too small for what is left of `total` bytes. */
  ghost predicate Reuses(v0: Space, v: Space, prior: seq<Addr>, ch: seq<Addr>, n: nat, total: nat) {
    && n <= |ch| && Begins(prior, ch[..n], n) && Neat(v, ch, n)
    && (n == |ch| || n == |prior| || TooSmall(v0, prior[n], v, ch[..n], total))
  }

  ghost predicate Reused(v0: Space, v: Space, prior: seq<Addr>, ch: seq<Addr>, total: nat) {
    exists n :: Reuses(v0, v, prior, ch, n, total)
  }

  /** A record moves when its first block is too small for all of it, or for a whole page of it: then
      it is in new blocks.  Otherwise it stays where it is, in its old blocks as far as they go. */
  ghost predicate Placed(v0: Space, v: Space, h: Addr, g: Addr, prior: seq<Addr>, ch: seq<Addr>, key: Bytes, val: Bytes) {
    var size := |key| + |val| + 8;
    if Moves(v0, h, size) then Neat(v, ch, 0) else g == h && Reused(v0, v, prior, ch, size)
  }

  ghost predicate Moves(v: Space, h: Addr, size: nat) {
    h in v && Capacity(v, h) < if size <= PAGEMAXSPARE then size else PAGEMAXSPARE
  }

  lemma PlacedThere(v0: Space, v: Space, h: Addr, prior: seq<Addr>, ch: seq<Addr>, n: nat, key: Bytes, val: Bytes, size: nat)
    requires size == |key| + |val| + 8 && !Moves(v0, h, size) && Reuses(v0, v, prior, ch, n, size)
    ensures Placed(v0, v, h, h, prior, ch, key, val)
  {
  }

  lemma OnlyEntry<K, V>(m: map<K, V>, k: K, x: V)
    ensures (m - {k})[k := x] == m[k := x]
  {
  }

  ghost predicate TooSmall(v0: Space, b: Addr, v: Space, front: seq<Addr>, total: nat) {
    && b in v0 && v0[b].size != PAGEMAXSPARE
    && Lined(v, front) && |Content(v, front)| + Capacity(v0, b) < total
  }

  ghost predicate SameShape(v: Space, w: Space, ch: seq<Addr>) {
    forall i {:trigger ch[i]} :: 0 <= i < |ch| ==> ch[i] in v && ch[i] in w && w[ch[i]].size == v[ch[i]].size && w[ch[i]].next == v[ch[i]].next
  }

  lemma NeatSame(v: Space, w: Space, ch: seq<Addr>, n: nat)
    requires Neat(v, ch, n) && SameShape(v, w, ch)
    ensures Neat(w, ch, n)
  {
    assert ch[|ch| - 1] in v;
  }

  lemma NeatMore(v: Space, w: Space, ch: seq<Addr>, b: Addr, n: nat)
    requires Neat(v, ch, n) && SameShape(v, w, ch) && Snug(w, b) && (n < |ch| ==> v[Last(ch)].size == PAGEMAXSPARE)
    ensures Neat(w, ch + [b], n)
  {
    assert ch[|ch| - 1] in v;
    forall i | n <= i < |ch| ensures ch[i] in w && w[ch[i]].size == PAGEMAXSPARE { assert ch[i] in v; }
  }

  lemma ShapeTwice(v: Space, w: Space, u: Space, ch: seq<Addr>)
    requires SameShape(v, w, ch) && SameShape(w, u, ch)
    ensures SameShape(v, u, ch)
  {
    forall i | 0 <= i < |ch| ensures ch[i] in v && ch[i] in u && u[ch[i]].size == v[ch[i]].size && u[ch[i]].next == v[ch[i]].next { assert ch[i] in w; }
  }

  lemma ReusesSame(v0: Space, v: Space, w: Space, prior: seq<Addr>, ch: seq<Addr>, n: nat, total: nat)
    requires Reuses(v0, v, prior, ch, n, total) && SameShape(v, w, ch) && Lined(w, ch)
    ensures Reuses(v0, w, prior, ch, n, total)
  {
    NeatSame(v, w, ch, n);
    if n < |ch| && n < |prior| {
      forall i | 0 <= i < n ensures ch[..n][i] == ch[i] && InUse(w, ch[i]) { }
      SameLength(v, w, ch[..n]);
    }
  }

  lemma {:induction false} SameLength(v: Space, w: Space, ch: seq<Addr>)
    requires Lined(v, ch) && Lined(w, ch) && SameShape(v, w, ch)
    ensures |Content(w, ch)| == |Content(v, ch)|
    decreases |ch|
  {
    if ch != [] {
      FrontLined(v, ch);
      FrontLined(w, ch);
      SameLength(v, w, ch[..|ch| - 1]);
      assert ch[|ch| - 1] in v;
    }
  }

  /** Every block in use belongs to exactly one record. */
  ghost predicate RecordsOk(v: Space, recs: map<Addr, seq<Addr>>, own: map<Addr, Addr>) {
    && (forall h {:trigger RecordOk(v, recs, own, h)} :: RecordOk(v, recs, own, h))
    && (forall a {:trigger Owned(v, recs, own, a)} :: Owned(v, recs, own, a))
  }

  ghost predicate Holds(v: Space, recs: map<Addr, seq<Addr>>, h: Addr, key: Bytes, val: Bytes) {
    h in recs && Lined(v, recs[h]) && Content(v, recs[h]) == Stored(key, val)
  }

  /** The records hold the keys and values of kv. */
  ghost predicate AllHold(v: Space, recs: map<Addr, seq<Addr>>, kv: map<Addr, (Bytes, Bytes)>) {
    && recs.Keys == kv.Keys
    && forall h {:trigger kv[h]} :: h in kv ==> Holds(v, recs, h, kv[h].0, kv[h].1) && |kv[h].0| + |kv[h].1| + 8 < MAXLEN
  }

  /** The blocks in use outside the set s are the same. */
  ghost predicate SameBut(v: Space, w: Space, s: set<Addr>) {
    forall c: Addr {:trigger InUse(v, c)} {:trigger InUse(w, c)} :: c !in s ==> (InUse(v, c) <==> InUse(w, c)) && (InUse(v, c) ==> w[c] == v[c])
  }

  ghost function Elems(ch: seq<Addr>): set<Addr> {
    set i | 0 <= i < |ch| :: ch[i]
  }

  /** The chain of record h is now ch; no block outside the old and the new chain changed. */
  lemma RecordsUpdated(v: Space, w: Space, recs: map<Addr, seq<Addr>>, own: map<Addr, Addr>, h: Addr, prior: seq<Addr>, ch: seq<Addr>)
    returns (own': map<Addr, Addr>)
    requires RecordsOk(v, recs, own) && prior == if h in recs then recs[h] else []
    requires ch != [] && ch[0] == h && Lined(w, ch) && Links(w, ch) && w[h].size >= 8
    requires forall i {:trigger ch[i]} :: 0 <= i < |ch| ==> (w[ch[i]].first <==> i == 0) && (InUse(v, ch[i]) ==> ch[i] in prior)
    requires SameBut(v, w, Elems(prior) + Elems(ch))
    requires forall a :: a in prior && a !in ch ==> !InUse(w, a)
    ensures RecordsOk(w, recs[h := ch], own')
  {
    own' := map a | a in own.Keys + Elems(ch) :: if a in Elems(ch) then h else own[a];
    var recs' := recs[h := ch];
    forall g: Addr ensures RecordOk(w, recs', own', g) {
      assert RecordOk(v, recs, own, g);
      if g in recs && g != h { OtherRecord(v, w, recs, own, own', g, h, prior, ch); }
      if g == h { forall i | 0 <= i < |ch| ensures ch[i] in own' && own'[ch[i]] == h { assert ch[i] in Elems(ch); } }
    }
    forall a: Addr ensures Owned(w, recs', own', a) {
      assert Owned(v, recs, own, a);
      if InUse(w, a) && a !in ch {
        assert a !in Elems(ch) && a !in Elems(prior);
        assert InUse(v, a);
        assert RecordOk(v, recs, own, h);
      }
    }
  }

  lemma OtherRecord(v: Space, w: Space, recs: map<Addr, seq<Addr>>, own: map<Addr, Addr>, own': map<Addr, Addr>, g: Addr, h: Addr, prior: seq<Addr>, ch: seq<Addr>)
    requires RecordsOk(v, recs, own) && g in recs && g != h && prior == if h in recs then recs[h] else []
    requires forall i {:trigger ch[i]} :: 0 <= i < |ch| ==> InUse(v, ch[i]) ==> ch[i] in prior
    requires SameBut(v, w, Elems(prior) + Elems(ch))
    requires own' == map a | a in own.Keys + Elems(ch) :: if a in Elems(ch) then h else own[a]
    ensures RecordOk(w, recs[h := ch], own', g)
    ensures Lined(v, recs[g]) && Lined(w, recs[g]) && Content(w, recs[g]) == Content(v, recs[g])
  {
    var cg := recs[g];
    assert RecordOk(v, recs, own, g) && RecordOk(v, recs, own, h);
    forall i | 0 <= i < |cg| ensures cg[i] !in Elems(prior) && cg[i] !in Elems(ch) && cg[i] in w && w[cg[i]] == v[cg[i]] {
      assert InUse(v, cg[i]) && own[cg[i]] == g;
    }
    ContentSame(v, w, cg);
  }

  // ---------------------------------------------------------------- a chain being written

  /** The chain so far, each block linked to the next. */
  ghost predicate Begun(v0: Space, v: Space, prior: seq<Addr>, ch: seq<Addr>) {
    && ch != [] && Lined(v, ch)
    && (forall i {:trigger ch[i]} :: 0 <= i < |ch| ==> (v[ch[i]].first <==> i == 0) && (InUse(v0, ch[i]) ==> ch[i] in prior))
    && (forall i :: 0 <= i < |ch| - 1 ==> v[ch[i]].link == ch[i + 1])
  }

  /** Of the old chain, the blocks from position j on are still as they were. */
  ghost predicate Waiting(v0: Space, v: Space, prior: seq<Addr>, ch: seq<Addr>, j: nat) {
    && (forall x {:trigger prior[x]} :: j <= x < |prior| ==> prior[x] in v0 && InUse(v, prior[x]) && v[prior[x]] == v0[prior[x]] && prior[x] !in ch)
    && (forall x {:trigger prior[x]} :: 0 <= x < j && x < |prior| ==> prior[x] in ch)
  }

  /** Between the writes of an operation that started from v0: the chain so far is ch; of the
      record's old chain prior, the blocks from position j on are still to be used or freed. */
  ghost predicate Growing(v0: Space, v: Space, prior: seq<Addr>, ch: seq<Addr>, j: nat) {
    && Begun(v0, v, prior, ch) && Waiting(v0, v, prior, ch, j)
    && Lined(v0, prior) && j <= |prior| && SameBut(v0, v, Elems(prior) + Elems(ch))
  }

  function Last(ch: seq<Addr>): Addr
    requires ch != []
  {
    ch[|ch| - 1]
  }

  /** The last block of the chain changed, but for where it ends and whether it starts a record. */
  lemma LastChanged(v0: Space, v: Space, w: Space, prior: seq<Addr>, ch: seq<Addr>, j: nat, a: Addr)
    requires Growing(v0, v, prior, ch, j) && a == Last(ch) && SameUse(v, w, a) && InUse(w, a) && w[a].size <= |w[a].bytes|
    requires w[a].first == v[a].first
    ensures Growing(v0, w, prior, ch, j)
    ensures FrontSame(v, w, ch)
  {
    var n := |ch| - 1;
    assert ch[n] == a;
    forall i | 0 <= i < n ensures ch[i] != a && InUse(w, ch[i]) && w[ch[i]] == v[ch[i]] { assert InUse(v, ch[i]); }
    forall x | j <= x < |prior| ensures InUse(w, prior[x]) && w[prior[x]] == v0[prior[x]] { assert InUse(v, prior[x]); }
    assert a in Elems(ch);
    forall c: Addr | c !in Elems(prior) + Elems(ch) ensures (InUse(v0, c) <==> InUse(w, c)) && (InUse(v0, c) ==> w[c] == v0[c]) {
      assert InUse(v, c) <==> InUse(v0, c);
    }
    FrontLined(v, ch);
    ContentSame(v, w, ch[..n]);
  }

  /** All but the last block hold the same bytes. */
  ghost predicate FrontSame(v: Space, w: Space, ch: seq<Addr>) {
    ch != [] && Lined(v, ch[..|ch| - 1]) && Lined(w, ch[..|ch| - 1]) && Content(v, ch[..|ch| - 1]) == Content(w, ch[..|ch| - 1])
  }

  lemma WriteGrows(v: Space, w: Space, ch: seq<Addr>, at: nat, s: Bytes, end: nat)
    requires ch != [] && Lined(v, ch) && Lined(w, ch) && FrontSame(v, w, ch)
    requires at + |s| == end <= |v[Last(ch)].bytes| && w[Last(ch)] == Overwritten(v[Last(ch)], at, s)
    ensures Written(w, ch, end) == Written(v, ch, at) + s
  {
    var a := Last(ch);
    assert w[a].bytes[..end] == v[a].bytes[..at] + s;
  }

  lemma BegunMore(v0: Space, v: Space, prior: seq<Addr>, ch: seq<Addr>, b: Addr)
    requires Begun(v0, v, prior, ch) && v[Last(ch)].link == b && InUse(v, b) && b !in ch
    requires !v[b].first && v[b].size <= |v[b].bytes| && (InUse(v0, b) ==> b in prior)
    ensures Begun(v0, v, prior, ch + [b]) && Written(v, ch + [b], 0) == Written(v, ch, v[Last(ch)].size)
  {
    var c := ch + [b];
    assert c[..|ch|] == ch;
    forall i, k | 0 <= i < k < |c| ensures c[i] != c[k] { }
    forall i | 0 <= i < |c| - 1 ensures v[c[i]].link == c[i + 1] { if i < |ch| - 1 { assert v[ch[i]].link == ch[i + 1]; } }
  }

  lemma ElemsMore(v0: Space, v: Space, prior: seq<Addr>, ch: seq<Addr>, b: Addr)
    requires SameBut(v0, v, Elems(prior) + Elems(ch))
    ensures SameBut(v0, v, Elems(prior) + Elems(ch + [b]))
  {
    forall c | c in Elems(ch) ensures c in Elems(ch + [b]) {
      var i :| 0 <= i < |ch| && ch[i] == c;
      assert (ch + [b])[i] == c;
    }
    forall c: Addr | c !in Elems(prior) + Elems(ch + [b]) ensures (InUse(v0, c) <==> InUse(v, c)) && (InUse(v0, c) ==> v[c] == v0[c]) {
      assert c !in Elems(prior) + Elems(ch);
    }
  }

  /** The next block of the old chain at the end of the new one. */
  lemma OldSlice(v0: Space, v: Space, prior: seq<Addr>, ch: seq<Addr>, j: nat, b: Addr)
    requires Growing(v0, v, prior, ch, j) && v[Last(ch)].link == b && j < |prior| && b == prior[j] && !v0[b].first
    ensures Growing(v0, v, prior, ch + [b], j + 1) && Written(v, ch + [b], 0) == Written(v, ch, v[Last(ch)].size)
  {
    assert InUse(v, prior[j]);
    BegunMore(v0, v, prior, ch, b);
    ElemsMore(v0, v, prior, ch, b);
  }

  /** Block b was allocated and linked behind the last block a. */
  lemma SliceAllocated(v0: Space, v: Space, w: Space, u: Space, prior: seq<Addr>, ch: seq<Addr>, j: nat, a: Addr, b: Addr)
    requires Growing(v0, v, prior, ch, j) && a == Last(ch) && SameUse(v, w, b) && !InUse(v, b) && InUse(w, b)
    requires a in w && u == w[a := w[a].(link := b)] && !w[b].first && w[b].size <= |w[b].bytes|
    ensures Growing(v0, u, prior, ch + [b], j) && Written(u, ch + [b], 0) == Written(v, ch, v[a].size)
  {
    forall i | 0 <= i < |ch| ensures InUse(w, ch[i]) && w[ch[i]] == v[ch[i]] && ch[i] != b { assert InUse(v, ch[i]); }
    forall x | 0 <= x < |prior| ensures prior[x] != b { assert InUse(v0, prior[x]); }
    NotBefore(v0, v, prior, ch, j, b);
    assert a == ch[|ch| - 1];
    assert Begun(v0, u, prior, ch);
    BegunMore(v0, u, prior, ch, b);
    assert Waiting(v0, u, prior, ch + [b], j) by {
      forall x | j <= x < |prior| ensures InUse(u, prior[x]) && u[prior[x]] == v0[prior[x]] && prior[x] !in ch + [b] { assert InUse(v, prior[x]); }
    }
    GrownBut(v0, v, w, u, prior, ch, a, b);
    FrontLined(v, ch);
    ContentSame(v, u, ch[..|ch| - 1]);
  }

  lemma NotBefore(v0: Space, v: Space, prior: seq<Addr>, ch: seq<Addr>, j: nat, b: Addr)
    requires Growing(v0, v, prior, ch, j) && !InUse(v, b)
    ensures !InUse(v0, b)
  {
    forall i | 0 <= i < |ch| ensures ch[i] != b { assert InUse(v, ch[i]); }
    forall x | 0 <= x < |prior| ensures prior[x] != b { if x >= j { assert InUse(v, prior[x]); } else { assert prior[x] in ch; } }
  }

  lemma GrownBut(v0: Space, v: Space, w: Space, u: Space, prior: seq<Addr>, ch: seq<Addr>, a: Addr, b: Addr)
    requires SameBut(v0, v, Elems(prior) + Elems(ch)) && SameUse(v, w, b) && a in w && u == w[a := w[a].(link := b)] && ch != [] && a == Last(ch)
    ensures SameBut(v0, u, Elems(prior) + Elems(ch + [b]))
  {
    var s := Elems(prior) + Elems(ch + [b]);
    assert (ch + [b])[|ch| - 1] == a && (ch + [b])[|ch|] == b;
    forall c | c in Elems(ch) ensures c in Elems(ch + [b]) {
      var i :| 0 <= i < |ch| && ch[i] == c;
      assert (ch + [b])[i] == c;
    }
    forall c: Addr | c !in s ensures (InUse(v0, c) <==> InUse(u, c)) && (InUse(v0, c) ==> u[c] == v0[c]) {
      assert c !in Elems(prior) + Elems(ch) && c != b && c != a;
      assert InUse(v, c) <==> InUse(w, c);
    }
  }

  class RecordStore {
    const data: DataPages
    ghost var recs: map<Addr, seq<Addr>>
    ghost var own: map<Addr, Addr>
    ghost var kv: map<Addr, (Bytes, Bytes)>   // what the records hold

    ghost predicate Valid()
      reads this, data, data.pool
    {
      var laidOut, owned, held := data.Valid(), RecordsOk(data.blocks, recs, own), AllHold(data.blocks, recs, kv);
      laidOut && owned && held
    }

    constructor (pool: PagePool.PageAllocator)
      requires pool.Valid()
      ensures Valid() && fresh(data) && data.pool == pool && kv == map[] && data.blocks == map[]
    {
      data := new DataPages(pool);
      recs, own, kv := map[], map[], map[];
    }

    /** A block behind the last block a of the chain, for up to `size` bytes. */
    method AppendSlice(a: Addr, size: nat, ghost v0: Space, ghost prior: seq<Addr>, ghost ch: seq<Addr>, ghost j: nat) returns (b: Addr)
      requires data.Valid() && Growing(v0, data.blocks, prior, ch, j) && a == Last(ch) && size > 0
      modifies data, data.pool
      ensures data.Valid() && Growing(v0, data.blocks, prior, ch + [b], j)
      ensures InUse(data.blocks, b) && InUse(data.blocks, ch[0]) && data.blocks[b].size <= |data.blocks[b].bytes|
      ensures Written(data.blocks, ch + [b], 0) == old(Written(data.blocks, ch, data.blocks[a].size))
      ensures data.blocks[b].size == if size < PAGEMAXSPARE then size else PAGEMAXSPARE
      ensures data.blocks[ch[0]].size == old(data.blocks)[ch[0]].size
      ensures SameShape(old(data.blocks), data.blocks, ch) && Snug(data.blocks, b)
      ensures data.pool.used - PagesOf(data.blocks) == old(data.pool.used - PagesOf(data.blocks))
    {
      ghost var v := data.blocks;
      assert InUse(v, ch[|ch| - 1]);
      b := data.AllocData(size, false);
      ghost var w := data.blocks;
      assert InUse(w, a) && InUse(v, ch[0]);
      data.SetLink(a, b);
      SliceAllocated(v0, v, w, data.blocks, prior, ch, j, a, b);
      LinkedShape(v, w, data.blocks, ch, a, b);
      assert (ch + [b])[|ch|] == b;
    }

    /** Puts s behind the first `at` bytes of the last block a. */
    method Append(a: Addr, at: nat, s: Bytes, ghost v0: Space, ghost prior: seq<Addr>, ghost ch: seq<Addr>, ghost j: nat, ghost end: nat)
      requires data.Valid() && Growing(v0, data.blocks, prior, ch, j) && a == Last(ch) && end == at + |s| <= |data.blocks[a].bytes|
      modifies data`blocks
      ensures data.Valid() && Growing(v0, data.blocks, prior, ch, j) && InUse(data.blocks, a) && InUse(data.blocks, ch[0])
      ensures data.blocks[a].size == old(data.blocks)[a].size && |data.blocks[a].bytes| == |old(data.blocks)[a].bytes|
      ensures data.blocks[a].next == old(data.blocks)[a].next && data.blocks[a].link == old(data.blocks)[a].link
      ensures Written(data.blocks, ch, end) == old(Written(data.blocks, ch, at)) + s
      ensures data.blocks[ch[0]].size == old(data.blocks)[ch[0]].size
      ensures PagesOf(data.blocks) == old(PagesOf(data.blocks)) && SameShape(old(data.blocks), data.blocks, ch)
    {
      ghost var v := data.blocks;
      assert InUse(v, ch[|ch| - 1]) && InUse(v, ch[0]);
      data.Write(a, at, s);
      LastChanged(v0, v, data.blocks, prior, ch, j, a);
      WriteGrows(v, data.blocks, ch, at, s, end);
      PatchedShape(v, data.blocks, ch, a);
    }

    /** Frees the chain of blocks that starts at a. */
    method FreeChain(a: Addr, ghost ch: seq<Addr>)
      requires data.Valid() && ch != [] && ch[0] == a && Lined(data.blocks, ch) && Links(data.blocks, ch)
      modifies data, data.pool
      ensures data.Valid() && SameBut(old(data.blocks), data.blocks, Elems(ch))
      ensures forall i {:trigger ch[i]} :: 0 <= i < |ch| ==> !InUse(data.blocks, ch[i])
      ensures data.pool.used - PagesOf(data.blocks) == old(data.pool.used - PagesOf(data.blocks))
    {
      ghost var v := data.blocks;
      var cur, more := a, true;
      ghost var k := 0;
      while more
        invariant data.Valid() && 0 <= k <= |ch| && (more <==> k < |ch|) && (more ==> cur == ch[k])
        invariant forall i {:trigger ch[i]} :: 0 <= i < k ==> !InUse(data.blocks, ch[i])
        invariant forall i {:trigger ch[i]} :: k <= i < |ch| ==> InUse(data.blocks, ch[i]) && data.blocks[ch[i]] == v[ch[i]]
        invariant SameBut(v, data.blocks, Elems(ch))
        invariant data.pool.used - PagesOf(data.blocks) == old(data.pool.used - PagesOf(data.blocks))
        decreases |ch| - k
      {
        ghost var w := data.blocks;
        assert InUse(data.blocks, ch[k]) && v[ch[k]].link == if k + 1 < |ch| then ch[k + 1] else NIL;
        var next := data.blocks[cur].link;
        data.FreeOne(cur);
        OneFreed(v, w, data.blocks, ch, k);
        cur, more := next, next.page != 0;
        k := k + 1;
        if k < |ch| { NilFree(data.blocks); assert InUse(data.blocks, ch[k]) && BlockOk(data.blocks, ch[k]); }
      }
    }

    /** The first block of a record, with the lengths in it. */
    method StartNode(key: Bytes, val: Bytes) returns (h: Addr, capacity: nat, ghost ch: seq<Addr>)
      requires Valid()
      modifies data, data.pool
      ensures data.Valid() && ch == [h] && Growing(old(data.blocks), data.blocks, [], ch, 0) && !InUse(old(data.blocks), h)
      ensures InUse(data.blocks, h)
      ensures 8 <= capacity == data.blocks[h].size == if |key| + |val| + 8 < PAGEMAXSPARE then |key| + |val| + 8 else PAGEMAXSPARE
      ensures capacity <= |data.blocks[h].bytes| && Neat(data.blocks, ch, 0)
      ensures Written(data.blocks, ch, 8) == Stored(key, val)[..8]
      ensures data.pool.used - PagesOf(data.blocks) == old(data.pool.used - PagesOf(data.blocks))
    {
      ghost var v := data.blocks;
      var size := |key| + |val| + 8;
      h := data.AllocData(size, true);
      ch := [h];
      ghost var w := data.blocks;
      capacity := data.blocks[h].size;
      FirstSlice(v, w, h);
      ghost var u := data.blocks;
      Append(h, 0, Le32(size), v, [], ch, 0, 4);
      NeatSame(u, data.blocks, ch, 0);
      u := data.blocks;
      Append(h, 4, Le32(|key|), v, [], ch, 0, 8);
      NeatSame(u, data.blocks, ch, 0);
      StoredParts(key, val);
      assert Stored(key, val)[..8] == Le32(size) + Le32(|key|);
    }

    /** Ends the chain at its last block a; it is the record of key and val from now on. */
    method EndNode(a: Addr, ghost v0: Space, ghost prior: seq<Addr>, ghost ch: seq<Addr>, ghost key: Bytes, ghost val: Bytes)
      requires data.Valid() && Finished(v0, data.blocks, prior, ch, Stored(key, val)) && a == Last(ch) && |key| + |val| + 8 < MAXLEN
      requires InUse(data.blocks, ch[0]) && 8 <= data.blocks[ch[0]].size
      requires RecordsOk(v0, recs, own) && AllHold(v0, recs, kv)
      requires prior == if ch[0] in recs then recs[ch[0]] else []
      modifies this, data`blocks
      ensures Valid() && kv == old(kv)[ch[0] := (key, val)] && recs == old(recs)[ch[0] := ch]
      ensures SameShape(old(data.blocks), data.blocks, ch)
      ensures PagesOf(data.blocks) == old(PagesOf(data.blocks))
    {
      ghost var v := data.blocks;
      assert InUse(v, ch[|ch| - 1]);
      data.SetLink(a, NIL);
      PatchedShape(v, data.blocks, ch, a);
      own, recs, kv := NodeEnded(v0, v, data.blocks, recs, own, kv, prior, ch, a, key, val);
    }

    /** Fills the last block a with s and goes on in a new block, for up to `size` bytes. */
    method Spill(a: Addr, at: nat, s: Bytes, size: nat, ghost v0: Space, ghost ch: seq<Addr>, ghost d: Bytes) returns (b: Addr, room: nat, ghost ch': seq<Addr>)
      requires data.Valid() && Building(v0, data.blocks, ch, a, at, |s|, d) && size > 0
      requires Neat(data.blocks, ch, 0) && data.blocks[a].size == PAGEMAXSPARE
      modifies data, data.pool
      ensures data.Valid() && ch' == ch + [b] && Building(v0, data.blocks, ch', b, 0, room, d + s)
      ensures Neat(data.blocks, ch', 0) && data.blocks[b].size == room
      ensures room == if size < PAGEMAXSPARE then size else PAGEMAXSPARE
      ensures data.pool.used - PagesOf(data.blocks) == old(data.pool.used - PagesOf(data.blocks))
    {
      ghost var end, u := at + |s|, data.blocks;
      Append(a, at, s, v0, [], ch, 0, end);
      NeatSame(u, data.blocks, ch, 0);
      u := data.blocks;
      b := AppendSlice(a, size, v0, [], ch, 0);
      NeatMore(u, data.blocks, ch, b, 0);
      ch' := ch + [b];
      room := data.blocks[b].size;
    }

    /** Copies the key behind the lengths, into more blocks as one after the other fills up. */
    method WriteKey(a: Addr, room: nat, key: Bytes, val: Bytes, ghost v0: Space, ghost ch: seq<Addr>)
      returns (b: Addr, at: nat, left: nat, ghost ch': seq<Addr>)
      requires data.Valid() && ch != [] && Building(v0, data.blocks, ch, a, 8, room, Stored(key, val)[..8]) && room <= |key| + |val|
      requires Neat(data.blocks, ch, 0) && (room < |key| + |val| ==> data.blocks[a].size == PAGEMAXSPARE)
      modifies data, data.pool
      ensures ch' != [] && Neat(data.blocks, ch', 0) && (left < |val| ==> data.blocks[Last(ch')].size == PAGEMAXSPARE)
      ensures data.Valid() && ch' != [] && ch'[0] == ch[0] && left <= |val|
      ensures Building(v0, data.blocks, ch', b, at, left, Upto(key, val, 0))
      ensures data.pool.used - PagesOf(data.blocks) == old(data.pool.used - PagesOf(data.blocks))
    {
      b, at, left, ch' := a, 8, room, ch;
      var k: nat, size := 0, |key| + |val|;
      while left < |key| - k
        invariant data.Valid() && ch' != [] && ch'[0] == ch[0] && k <= |key| && size == |key| - k + |val| && left <= size
        invariant Building(v0, data.blocks, ch', b, at, left, Stored(key, val)[..8 + k])
        invariant Neat(data.blocks, ch', 0) && (left < size ==> data.blocks[b].size == PAGEMAXSPARE)
        invariant data.pool.used - PagesOf(data.blocks) == old(data.pool.used - PagesOf(data.blocks))
        decreases |key| - k + (if left == 0 then 1 else 0)
      {
        var k' := k + left;
        KeyPart(key, val, k, k');
        b, left, ch' := Spill(b, at, key[k..k'], size - left, v0, ch', Stored(key, val)[..8 + k]);
        k, size, at := k', |key| - k' + |val|, 0;
      }
      var end: nat := at + |key| - k;
      KeyPart(key, val, k, |key|);
      ghost var u := data.blocks;
      Append(b, at, key[k..], v0, [], ch', 0, end);
      NeatSame(u, data.blocks, ch', 0);
      at, left := end, left - (|key| - k);
    }

    /** Copies the value behind the first `from` bytes of the last block b, and goes on in new blocks. */
    method WriteVal(b: Addr, from: nat, room: nat, key: Bytes, val: Bytes, ghost v0: Space, ghost ch: seq<Addr>)
      returns (a: Addr, ghost ch': seq<Addr>)
      requires data.Valid() && ch != [] && Building(v0, data.blocks, ch, b, from, room, Upto(key, val, 0)) && room <= |val|
      requires Neat(data.blocks, ch, 0) && (room < |val| ==> data.blocks[b].size == PAGEMAXSPARE)
      modifies data, data.pool
      ensures Neat(data.blocks, ch', 0)
      ensures data.Valid() && ch' != [] && ch'[0] == ch[0]
      ensures a == Last(ch') && Finished(v0, data.blocks, [], ch', Stored(key, val)) && InUse(data.blocks, ch'[0]) && 8 <= data.blocks[ch'[0]].size
      ensures data.pool.used - PagesOf(data.blocks) == old(data.pool.used - PagesOf(data.blocks))
    {
      var at: nat, left: nat, j: nat := from, room, 0;
      a, ch' := b, ch;
      while left < |val| - j
        invariant data.Valid() && ch' != [] && ch'[0] == ch[0] && j <= |val| && left <= |val| - j
        invariant Building(v0, data.blocks, ch', a, at, left, Upto(key, val, j))
        invariant Neat(data.blocks, ch', 0) && (left < |val| - j ==> data.blocks[a].size == PAGEMAXSPARE)
        invariant data.pool.used - PagesOf(data.blocks) == old(data.pool.used - PagesOf(data.blocks))
        decreases |val| - j + (if left == 0 then 1 else 0)
      {
        var j' := j + left;
        ValPart(key, val, j, j');
        a, left, ch' := Spill(a, at, val[j..j'], |val| - j', v0, ch', Upto(key, val, j));
        j, at := j', 0;
      }
      var end: nat := at + |val| - j;
      ValPart(key, val, j, |val|);
      ghost var u := data.blocks;
      Append(a, at, val[j..], v0, [], ch', 0, end);
      NeatSame(u, data.blocks, ch', 0);
      AllWritten(v0, data.blocks, ch', a, end, Stored(key, val));
    }

    /** Writes the record of key and val into new blocks: whole pages, and one block more that is
        as long as need be. */
    method CreateNode(key: Bytes, val: Bytes) returns (h: Addr)
      requires Valid() && |key| + |val| + 8 < MAXLEN
      modifies this, data, data.pool
      ensures h in recs && Neat(data.blocks, recs[h], 0)
      ensures Valid() && h !in old(kv) && kv == old(kv)[h := (key, val)]
      ensures data.pool.used - PagesOf(data.blocks) == old(data.pool.used - PagesOf(data.blocks))
    {
      ghost var v0 := data.blocks;
      var capacity, a, at, left;
      ghost var ch;
      h, capacity, ch := StartNode(key, val);
      NotARecord(v0, recs, own, h);
      StoredParts(key, val);
      a, at, left, ch := WriteKey(h, capacity - 8, key, val, v0, ch);
      a, ch := WriteVal(a, at, left, key, val, v0, ch);
      ghost var u := data.blocks;
      EndNode(a, v0, [], ch, key, val);
      NeatSame(u, data.blocks, ch, 0);
    }

    /** Frees the record h with all its blocks. */
    method FreeData(h: Addr)
      requires Valid() && h in kv
      modifies this, data, data.pool
      ensures Valid() && kv == old(kv) - {h}
      ensures data.pool.used - PagesOf(data.blocks) == old(data.pool.used - PagesOf(data.blocks))
    {
      ghost var v := data.blocks;
      assert RecordOk(v, recs, own, h) && Holds(v, recs, h, kv[h].0, kv[h].1);
      FreeChain(h, recs[h]);
      recs, kv := RecordDropped(v, data.blocks, recs, own, kv, h);
    }

    /** The two lengths at the beginning of record h. */
    method Lengths(h: Addr) returns (size: nat, keyLen: nat)
      requires Valid() && h in kv
      ensures size == |kv[h].0| + |kv[h].1| + 8 && keyLen == |kv[h].0|
    {
      WholeRecord(data.blocks, recs, own, kv, h);
      HeadBytes(data.blocks, recs[h], kv[h].0, kv[h].1);
      size := U32(data.blocks[h].bytes[..4]);
      keyLen := U32(data.blocks[h].bytes[4..8]);
      Le32RoundTrip(|kv[h].0| + |kv[h].1| + 8);
      Le32RoundTrip(|kv[h].0|);
    }

    /** The block of record h in which byte `pass` of the record lies, or that it ends, and its
        place there. */
    method Locate(h: Addr, pass: nat, ghost ch: seq<Addr>) returns (a: Addr, at: nat, ghost i: nat)
      requires ch != [] && ch[0] == h && InUse(data.blocks, h) && Lined(data.blocks, ch) && Links(data.blocks, ch)
      requires 0 < pass <= |Content(data.blocks, ch)|
      ensures Passed(data.blocks, ch, a, at, i, pass) && at <= data.blocks[a].size
    {
      ghost var v := data.blocks;
      a, at, i := h, pass, 0;
      assert ch[..0] == [];
      while at > data.blocks[a].size
        invariant Passed(v, ch, a, at, i, pass)
        decreases |ch| - i
      {
        PassOn(v, ch, a, at, i, pass);
        at := at - data.blocks[a].size;
        a := data.blocks[a].link;
        i := i + 1;
      }
    }

    /** The value of record h. */
    method ExtractVal(h: Addr) returns (val: Bytes)
      requires Valid() && h in kv
      ensures val == kv[h].1
    {
      ghost var v, ch := data.blocks, recs[h];
      WholeRecord(v, recs, own, kv, h);
      var size, keyLen := Lengths(h);
      var pass := keyLen + 8;
      var a, at;
      ghost var i;
      a, at, i := Locate(h, pass, ch);
      ghost var n := i + 1;
      ReadFirst(v, ch, a, at, i, n, pass);
      val := data.blocks[a].bytes[at..data.blocks[a].size];
      while data.blocks[a].link.page != 0
        invariant i < |ch| && n == i + 1 && a == ch[i] && InUse(v, a) && Read(v, ch, n, pass, val)
        decreases |ch| - i
      {
        ghost var n1 := n + 1;
        ReadOn(v, ch, h, i, n, n1, pass, val, kv[h].0, kv[h].1);
        a := data.blocks[a].link;
        i, n := n, n1;
        val := val + data.blocks[a].bytes[..data.blocks[a].size];
      }
      AtLast(v, ch, i);
      assert ch[..n] == ch;
      StoredParts(kv[h].0, kv[h].1);
    }

    /** The key of record h. */
    method ExtractKey(h: Addr) returns (key: Bytes)
      requires Valid() && h in kv
      ensures key == kv[h].0
    {
      ghost var v, ch := data.blocks, recs[h];
      WholeRecord(v, recs, own, kv, h);
      var size, keyLen := Lengths(h);
      var min: nat := data.blocks[h].size - 8;
      StoredParts(kv[h].0, kv[h].1);
      KeyFirst(v, ch, h, kv[h].0, kv[h].1);
      if keyLen <= min { return data.blocks[h].bytes[8..8 + keyLen]; }
      key := data.blocks[h].bytes[8..8 + min];
      var left, a := keyLen - min, h;
      ghost var i, n := 0, 1;
      while left != 0
        invariant i < |ch| && n == i + 1 && a == ch[i] && InUse(v, a) && |key| + left == keyLen && key <= kv[h].0
        invariant left > 0 ==> Lined(v, ch[..n]) && |Content(v, ch[..n])| == 8 + |key|
        decreases |ch| - i
      {
        ghost var n1 := n + 1;
        KeyOn(v, ch, h, i, n, n1, key, left, kv[h].0, kv[h].1);
        a := data.blocks[a].link;
        i, n := n, n1;
        min := if left < data.blocks[a].size then left else data.blocks[a].size;
        key := key + data.blocks[a].bytes[..min];
        left := left - min;
      }
    }

    /** Record h gets a new value, in its old place as far as that reaches.  Blocks no longer
        needed are freed.  When the first block is too small the record moves. */
    method PutReplace(h: Addr, key: Bytes, val: Bytes) returns (g: Addr)
      requires Valid() && h in kv && kv[h].0 == key && |key| + |val| + 8 < MAXLEN
      modifies this, data, data.pool
      ensures Valid() && kv == (old(kv) - {h})[g := (key, val)] && (g == h || g !in old(kv))
      ensures g in recs && h in old(recs)
      ensures var placed := Placed(old(data.blocks), data.blocks, h, g, old(recs)[h], recs[g], key, val); placed
      ensures data.pool.used - PagesOf(data.blocks) == old(data.pool.used - PagesOf(data.blocks))
    {
      WholeRecord(data.blocks, recs, own, kv, h);
      var pass := |key| + 8;
      var size := pass + |val|;
      var capacity := Capacity(data.blocks, h);
      assert BlockOk(data.blocks, h);
      if (size <= PAGEMAXSPARE && capacity < size) || (size > PAGEMAXSPARE && capacity < PAGEMAXSPARE) {
        g := Move(h, key, val);
        return;
      }
      g := h;
      OnlyEntry(kv, h, (key, val));
      ReplaceInPlace(h, key, val, size, pass);
    }

    /** Record h goes to new blocks. */
    method Move(h: Addr, key: Bytes, val: Bytes) returns (g: Addr)
      requires Valid() && h in kv && h in recs && |key| + |val| + 8 < MAXLEN && Moves(data.blocks, h, |key| + |val| + 8)
      modifies this, data, data.pool
      ensures Valid() && kv == (old(kv) - {h})[g := (key, val)] && (g == h || g !in old(kv))
      ensures g in recs
      ensures var placed := Placed(old(data.blocks), data.blocks, h, g, old(recs)[h], recs[g], key, val); placed
      ensures data.pool.used - PagesOf(data.blocks) == old(data.pool.used - PagesOf(data.blocks))
    {
      FreeData(h);
      g := CreateNode(key, val);
    }

    method ReplaceInPlace(h: Addr, key: Bytes, val: Bytes, size: nat, pass: nat)
      requires Valid() && h in kv && kv[h].0 == key && size == |key| + |val| + 8 < MAXLEN && pass == |key| + 8
      requires !Moves(data.blocks, h, size)
      modifies this, data, data.pool
      ensures Valid() && kv == old(kv)[h := (key, val)]
      ensures h in recs && h in old(recs)
      ensures var placed := Placed(old(data.blocks), data.blocks, h, h, old(recs)[h], recs[h], key, val); placed
      ensures data.pool.used - PagesOf(data.blocks) == old(data.pool.used - PagesOf(data.blocks))
    {
      ghost var v0, prior := data.blocks, recs[h];
      WholeRecord(v0, recs, own, kv, h);
      var a, rest;
      ghost var ch, n;
      a, rest, ch, n := Overwrite(h, key, val, size, pass);
      EndReplace(h, a, rest, v0, prior, ch, n, key, val, size);
    }

    /** Frees what is left of the old chain, and ends the new one. */
    method EndReplace(h: Addr, a: Addr, rest: Addr, ghost v0: Space, ghost prior: seq<Addr>, ghost ch: seq<Addr>, ghost n: nat, ghost key: Bytes, ghost val: Bytes, ghost size: nat)
      requires data.Valid() && ch != [] && a == Last(ch) && ch[0] == h && h in recs && prior == recs[h] && size == |key| + |val| + 8 < MAXLEN
      requires Refilled(v0, data.blocks, prior, ch, n, rest, Stored(key, val)) && Tiled(v0) && Links(v0, prior)
      requires Reuses(v0, data.blocks, prior, ch, n, size) && !Moves(v0, h, size)
      requires RecordsOk(v0, recs, own) && AllHold(v0, recs, kv)
      modifies this, data, data.pool
      ensures Valid() && kv == old(kv)[h := (key, val)] && h in recs
      ensures var placed := Placed(v0, data.blocks, h, h, prior, recs[h], key, val); placed
      ensures data.pool.used - PagesOf(data.blocks) == old(data.pool.used - PagesOf(data.blocks))
    {
      ghost var v := data.blocks;
      FreeRest(rest, v0, prior, ch, n, Stored(key, val));
      ghost var w := data.blocks;
      EndNode(a, v0, prior, ch, key, val);
      assert RecordOk(data.blocks, recs, own, ch[0]);
      ShapeTwice(v, w, data.blocks, ch);
      ReusesSame(v0, v, data.blocks, prior, ch, n, size);
      PlacedThere(v0, data.blocks, h, prior, ch, n, key, val, size);
    }

    /** The bytes of the new value go where the old ones were, and on in new blocks. */
    method Overwrite(h: Addr, key: Bytes, val: Bytes, size: nat, pass: nat) returns (a: Addr, rest: Addr, ghost ch: seq<Addr>, ghost n: nat)
      requires Valid() && h in kv && kv[h].0 == key && size == |key| + |val| + 8 < MAXLEN && pass == |key| + 8
      modifies data, data.pool
      ensures h in old(recs) && data.Valid() && ch != [] && ch[0] == h && a == Last(ch)
      ensures Refilled(old(data.blocks), data.blocks, old(recs)[h], ch, n, rest, Stored(key, val))
      ensures Reuses(old(data.blocks), data.blocks, old(recs)[h], ch, n, size)
      ensures data.pool.used - PagesOf(data.blocks) == old(data.pool.used - PagesOf(data.blocks))
    {
      ghost var v0, prior := data.blocks, recs[h];
      OldChain(v0, recs, own, kv, h);
      var at;
      a, at, ch, n := FindPlace(h, key, val, size, pass);
      var room: nat := |data.blocks[a].bytes| - at;
      if |val| <= room {
        rest := ReplaceThere(a, at, key, val, v0, prior, ch, n);
      } else {
        a, rest, ch, n := ReplaceOn(a, at, room, key, val, v0, prior, ch, n);
      }
    }

    /** The whole value fits into block a, where it starts. */
    method ReplaceThere(a: Addr, at: nat, key: Bytes, val: Bytes, ghost v0: Space, ghost prior: seq<Addr>, ghost ch: seq<Addr>, ghost n: nat) returns (rest: Addr)
      requires data.Valid() && Filling(v0, data.blocks, prior, ch, n, a, at, Upto(key, val, 0)) && at + |val| <= |data.blocks[a].bytes|
      requires 0 < at && (a == ch[0] ==> 8 <= at) && Begins(prior, ch, n) && data.blocks[a].link == Following(prior, n)
      modifies data, data.pool
      ensures data.Valid() && Refilled(v0, data.blocks, prior, ch, n, rest, Stored(key, val))
      ensures Reuses(v0, data.blocks, prior, ch, n, |key| + |val| + 8)
      ensures data.pool.used - PagesOf(data.blocks) == old(data.pool.used - PagesOf(data.blocks))
    {
      rest := ReplaceHere(a, at, val, v0, prior, ch, n, Upto(key, val, 0));
      ValPart(key, val, 0, |val|);
      assert val[0..|val|] == val;
      AllReused(v0, data.blocks, prior, ch, n, |key| + |val| + 8);
    }

    /** Writes the new length, and finds the place where the value starts. */
    method FindPlace(h: Addr, key: Bytes, val: Bytes, size: nat, pass: nat) returns (a: Addr, at: nat, ghost ch: seq<Addr>, ghost n: nat)
      requires Valid() && h in kv && kv[h].0 == key && size == |key| + |val| + 8 < MAXLEN && pass == |key| + 8
      modifies data`blocks
      ensures h in old(recs) && data.Valid() && Begins(old(recs)[h], ch, n) && ch[0] == h
      ensures Filling(old(data.blocks), data.blocks, old(recs)[h], ch, n, a, at, Upto(key, val, 0))
      ensures data.blocks[a].link == Following(old(recs)[h], n) && 0 < at && (a == h ==> at == 8 + |key|)
      ensures PagesOf(data.blocks) == old(PagesOf(data.blocks))
    {
      ghost var v0, prior, was := data.blocks, recs[h], kv[h].1;
      WholeRecord(v0, recs, own, kv, h);
      OldChain(v0, recs, own, kv, h);
      data.Write(h, 0, Le32(size));
      Repatched(v0, data.blocks, prior, h, key, was, val);
      ghost var i;
      a, at, i := Locate(h, pass, prior);
      n := i + 1;
      ch := prior[..n];
      ReplaceStarts(v0, data.blocks, prior, h, a, at, i, n, key, was, val);
    }

    /** The rest of the value fits into the last block a. */
    method ReplaceHere(a: Addr, at: nat, s: Bytes, ghost v0: Space, ghost prior: seq<Addr>, ghost ch: seq<Addr>, ghost n: nat, ghost d: Bytes) returns (rest: Addr)
      requires data.Valid() && Filling(v0, data.blocks, prior, ch, n, a, at, d) && at + |s| <= |data.blocks[a].bytes|
      requires 0 < at + |s| && (a == ch[0] ==> 8 <= at + |s|)
      requires data.blocks[a].link == Following(prior, n)
      modifies data, data.pool
      ensures data.Valid() && Refilled(v0, data.blocks, prior, ch, n, rest, d + s) && Snug(data.blocks, a)
      ensures data.pool.used - PagesOf(data.blocks) == old(data.pool.used - PagesOf(data.blocks))
    {
      ghost var end := at + |s|;
      Append(a, at, s, v0, prior, ch, n, end);
      ghost var v := data.blocks;
      data.SetSize(a, at + |s|);
      LastChanged(v0, v, data.blocks, prior, ch, n, a);
      WrittenSame(v, data.blocks, ch, end);
      assert InUse(data.blocks, ch[0]);
      rest := Trim(a, v0, prior, ch, n, d + s);
    }

    /** Gives the room behind the end of the chain back. */
    method Trim(a: Addr, ghost v0: Space, ghost prior: seq<Addr>, ghost ch: seq<Addr>, ghost n: nat, ghost d: Bytes) returns (rest: Addr)
      requires data.Valid() && Filled(v0, data.blocks, prior, ch, n, a, d) && data.blocks[a].link == Following(prior, n)
      modifies data, data.pool
      ensures data.Valid() && Refilled(v0, data.blocks, prior, ch, n, rest, d) && Snug(data.blocks, a)
      ensures data.pool.used - PagesOf(data.blocks) == old(data.pool.used - PagesOf(data.blocks))
    {
      ghost var v := data.blocks;
      assert InUse(v, ch[0]);
      rest := data.blocks[a].link;
      data.AdjustHead(a, data.blocks[a].size);
      LastChanged(v0, v, data.blocks, prior, ch, n, a);
      WrittenSame(v, data.blocks, ch, v[a].size);
      assert InUse(data.blocks, ch[0]);
    }

    /** The value goes beyond the last block a: into the following full blocks, then into the
        next one if it is big enough, else into new ones. */
    method ReplaceOn(b: Addr, from: nat, room: nat, key: Bytes, val: Bytes, ghost v0: Space, ghost prior: seq<Addr>, ghost ch0: seq<Addr>, ghost n0: nat)
      returns (a: Addr, rest: Addr, ghost ch: seq<Addr>, ghost n: nat)
      requires data.Valid() && Filling(v0, data.blocks, prior, ch0, n0, b, from, Upto(key, val, 0))
      requires from + room == |data.blocks[b].bytes| && room < |val| && 0 < from && (b == ch0[0] ==> 8 <= from) && 1 <= n0
      requires data.blocks[b].link == Following(prior, n0) && Tiled(v0) && Links(v0, prior) && Begins(prior, ch0, n0)
      requires forall i {:trigger prior[i]} :: 0 < i < |prior| ==> prior[i] in v0 && !v0[prior[i]].first
      modifies data, data.pool
      ensures data.Valid() && ch != [] && ch[0] == ch0[0] && a == Last(ch)
      ensures Refilled(v0, data.blocks, prior, ch, n, rest, Stored(key, val))
      ensures Reuses(v0, data.blocks, prior, ch, n, |key| + |val| + 8)
      ensures data.pool.used - PagesOf(data.blocks) == old(data.pool.used - PagesOf(data.blocks))
    {
      var j;
      a, rest, j, ch, n := ReuseSome(b, from, room, key, val, v0, prior, ch0, n0);
      a, rest, ch, n := ReplaceRest(a, rest, j, key, val, v0, prior, ch, n);
    }

    /** Fills the last block b to its end, and the full blocks that follow it. */
    method ReuseSome(b: Addr, from: nat, room: nat, key: Bytes, val: Bytes, ghost v0: Space, ghost prior: seq<Addr>, ghost ch0: seq<Addr>, ghost n0: nat)
      returns (a: Addr, rest: Addr, j: nat, ghost ch: seq<Addr>, ghost n: nat)
      requires data.Valid() && Filling(v0, data.blocks, prior, ch0, n0, b, from, Upto(key, val, 0)) && Begins(prior, ch0, n0)
      requires from + room == |data.blocks[b].bytes| && room < |val| && 0 < from && (b == ch0[0] ==> 8 <= from)
      requires data.blocks[b].link == Following(prior, n0) && Chained(v0, prior)
      modifies data`blocks
      ensures data.Valid() && ch != [] && ch[0] == ch0[0] && j < |val|
      ensures Reusing(v0, data.blocks, prior, ch, n, a, rest, Upto(key, val, j)) && Begins(prior, ch, n)
      ensures rest.page != 0 ==> data.blocks[rest].size >= |val| - j || data.blocks[rest].size != PAGEMAXSPARE
      ensures PagesOf(data.blocks) == old(PagesOf(data.blocks))
    {
      ValPart(key, val, 0, room);
      assert val[0..room] == val[..room];
      FillUp(b, from, val[..room], v0, prior, ch0, n0, Upto(key, val, 0));
      a, rest, j, ch, n := ReuseBlocks(b, data.blocks[b].link, room, key, val, v0, prior, ch0, n0);
    }

    /** What is left of the value goes into the next block of the old chain if it is big enough, else
        into new ones. */
    method ReplaceRest(b: Addr, next: Addr, j: nat, key: Bytes, val: Bytes, ghost v0: Space, ghost prior: seq<Addr>, ghost ch0: seq<Addr>, ghost n0: nat)
      returns (a: Addr, rest: Addr, ghost ch: seq<Addr>, ghost n: nat)
      requires data.Valid() && ch0 != [] && j < |val| && Reusing(v0, data.blocks, prior, ch0, n0, b, next, Upto(key, val, j)) && Begins(prior, ch0, n0)
      requires next.page != 0 ==> data.blocks[next].size >= |val| - j || data.blocks[next].size != PAGEMAXSPARE
      requires Tiled(v0) && Links(v0, prior)
      modifies data, data.pool
      ensures data.Valid() && ch != [] && ch[0] == ch0[0] && a == Last(ch)
      ensures Refilled(v0, data.blocks, prior, ch, n, rest, Stored(key, val))
      ensures Reuses(v0, data.blocks, prior, ch, n, |key| + |val| + 8)
      ensures data.pool.used - PagesOf(data.blocks) == old(data.pool.used - PagesOf(data.blocks))
    {
      a, rest, ch, n := b, next, ch0, n0;
      ValPart(key, val, j, |val|);
      if rest.page != 0 && Capacity(data.blocks, rest) >= |val| - j {
        a, rest, ch, n := ReuseLast(a, rest, val[j..], v0, prior, ch, n, Upto(key, val, j));
        AllReused(v0, data.blocks, prior, ch, n, |key| + |val| + 8);
      } else {
        assert rest.page != 0 ==> BlockOk(data.blocks, rest);
        a, ch := AddRest(a, rest, j, key, val, v0, prior, ch, n);
      }
    }

    method AddRest(b: Addr, ghost rest: Addr, j: nat, key: Bytes, val: Bytes, ghost v0: Space, ghost prior: seq<Addr>, ghost front: seq<Addr>, ghost n: nat)
      returns (a: Addr, ghost ch: seq<Addr>)
      requires data.Valid() && front != [] && j < |val| && Filled(v0, data.blocks, prior, front, n, b, Upto(key, val, j)) && Begins(prior, front, n)
      requires rest == Following(prior, n) && Unfit(data.blocks, rest, |val| - j) && Tiled(v0) && Links(v0, prior)
      modifies data, data.pool
      ensures data.Valid() && ch != [] && ch[0] == front[0] && a == Last(ch)
      ensures Refilled(v0, data.blocks, prior, ch, n, rest, Stored(key, val))
      ensures Reuses(v0, data.blocks, prior, ch, n, |key| + |val| + 8)
      ensures data.pool.used - PagesOf(data.blocks) == old(data.pool.used - PagesOf(data.blocks))
    {
      ghost var v := data.blocks;
      RestUnfit(v0, v, prior, front, n, rest, |val| - j);
      a, ch := AddBlocks(b, key, val, j, rest, v0, prior, front, n);
      SomeReused(v0, v, data.blocks, prior, front, ch, n, j, |val|, |val| - j, |key| + |val| + 8);
    }

    /** The full blocks of the old chain that the value fills again. */
    method ReuseBlocks(b: Addr, next: Addr, from: nat, key: Bytes, val: Bytes, ghost v0: Space, ghost prior: seq<Addr>, ghost ch0: seq<Addr>, ghost n0: nat)
      returns (a: Addr, rest: Addr, j: nat, ghost ch: seq<Addr>, ghost n: nat)
      requires data.Valid() && from < |val| && Filled(v0, data.blocks, prior, ch0, n0, b, Upto(key, val, from)) && Begins(prior, ch0, n0)
      requires next == data.blocks[b].link == Following(prior, n0) && Chained(v0, prior)
      modifies data`blocks
      ensures data.Valid() && ch != [] && ch[0] == ch0[0] && j < |val|
      ensures Reusing(v0, data.blocks, prior, ch, n, a, rest, Upto(key, val, j)) && Begins(prior, ch, n)
      ensures rest.page != 0 ==> data.blocks[rest].size >= |val| - j || data.blocks[rest].size != PAGEMAXSPARE
      ensures PagesOf(data.blocks) == old(PagesOf(data.blocks))
    {
      a, rest, j, ch, n := b, next, from, ch0, n0;
      FollowingOk(v0, data.blocks, prior, ch, n);
      while rest.page != 0 && data.blocks[rest].size < |val| - j && data.blocks[rest].size == PAGEMAXSPARE
        invariant data.Valid() && ch != [] && ch[0] == ch0[0] && j < |val|
        invariant Reusing(v0, data.blocks, prior, ch, n, a, rest, Upto(key, val, j)) && Begins(prior, ch, n)
        invariant PagesOf(data.blocks) == old(PagesOf(data.blocks))
        decreases |val| - j
      {
        a, rest, j, ch, n := ReuseNext(a, rest, j, key, val, v0, prior, ch, n);
      }
    }

    /** One full block of the old chain, filled again. */
    method ReuseNext(a: Addr, b: Addr, j: nat, key: Bytes, val: Bytes, ghost v0: Space, ghost prior: seq<Addr>, ghost ch: seq<Addr>, ghost n: nat)
      returns (c: Addr, rest: Addr, j': nat, ghost ch': seq<Addr>, ghost n': nat)
      requires data.Valid() && ch != [] && j + PAGEMAXSPARE < |val| && Chained(v0, prior) && Begins(prior, ch, n)
      requires Reusing(v0, data.blocks, prior, ch, n, a, b, Upto(key, val, j)) && b.page != 0 && data.blocks[b].size == PAGEMAXSPARE
      modifies data`blocks
      ensures data.Valid() && ch' != [] && ch'[0] == ch[0] && j' == j + PAGEMAXSPARE
      ensures Reusing(v0, data.blocks, prior, ch', n', c, rest, Upto(key, val, j')) && Begins(prior, ch', n')
      ensures PagesOf(data.blocks) == old(PagesOf(data.blocks))
    {
      j' := j + PAGEMAXSPARE;
      ValPart(key, val, j, j');
      c, rest, ch', n' := ReuseFull(a, b, val[j..j'], v0, prior, ch, n, Upto(key, val, j));
      FollowingOk(v0, data.blocks, prior, ch', n');
    }

    /** Fills the last block a to its end. */
    method FillUp(a: Addr, at: nat, s: Bytes, ghost v0: Space, ghost prior: seq<Addr>, ghost ch: seq<Addr>, ghost n: nat, ghost d: Bytes)
      requires data.Valid() && Filling(v0, data.blocks, prior, ch, n, a, at, d) && at + |s| == |data.blocks[a].bytes|
      requires 0 < at && (a == ch[0] ==> 8 <= at)
      modifies data`blocks
      ensures data.Valid() && Filled(v0, data.blocks, prior, ch, n, a, d + s) && data.blocks[a].link == old(data.blocks)[a].link
      ensures PagesOf(data.blocks) == old(PagesOf(data.blocks))
    {
      ghost var end := at + |s|;
      Append(a, at, s, v0, prior, ch, n, end);
      ghost var v := data.blocks;
      data.SetSize(a, at + |s|);
      LastChanged(v0, v, data.blocks, prior, ch, n, a);
      WrittenSame(v, data.blocks, ch, end);
      assert InUse(data.blocks, ch[0]);
    }

    /** The next block of the old chain, full before and full again. */
    method ReuseFull(a: Addr, b: Addr, s: Bytes, ghost v0: Space, ghost prior: seq<Addr>, ghost ch: seq<Addr>, ghost n: nat, ghost d: Bytes)
      returns (c: Addr, rest: Addr, ghost ch': seq<Addr>, ghost n': nat)
      requires data.Valid() && Filled(v0, data.blocks, prior, ch, n, a, d) && b == data.blocks[a].link == Following(prior, n) && b.page != 0
      requires b in data.blocks && data.blocks[b].size == |s| && Links(v0, prior) && b in v0 && !v0[b].first && Begins(prior, ch, n)
      modifies data`blocks
      ensures data.Valid() && c == b && ch' == ch + [b] && n' == n + 1 && Begins(prior, ch', n')
      ensures Filled(v0, data.blocks, prior, ch', n', c, d + s)
      ensures rest == data.blocks[c].link == Following(prior, n') && PagesOf(data.blocks) == old(PagesOf(data.blocks))
    {
      c, ch', n' := b, ch + [b], n + 1;
      SliceReused(v0, data.blocks, prior, ch, n, a, b, d);
      BeginsMore(prior, ch, n, b);
      Append(b, 0, s, v0, prior, ch', n', |s|);
      rest := data.blocks[b].link;
    }

    /** The next block of the old chain takes all that is left. */
    method ReuseLast(a: Addr, b: Addr, s: Bytes, ghost v0: Space, ghost prior: seq<Addr>, ghost ch: seq<Addr>, ghost n: nat, ghost d: Bytes)
      returns (c: Addr, rest: Addr, ghost ch': seq<Addr>, ghost n': nat)
      requires data.Valid() && Filled(v0, data.blocks, prior, ch, n, a, d) && b == data.blocks[a].link == Following(prior, n) && b.page != 0
      requires b in data.blocks && Capacity(data.blocks, b) >= |s| > 0 && Links(v0, prior) && b in v0 && !v0[b].first && Begins(prior, ch, n)
      modifies data, data.pool
      ensures data.Valid() && c == b && ch' == ch + [b] && n' == n + 1 && Begins(prior, ch', n')
      ensures Refilled(v0, data.blocks, prior, ch', n', rest, d + s) && Snug(data.blocks, c)
      ensures data.pool.used - PagesOf(data.blocks) == old(data.pool.used - PagesOf(data.blocks))
    {
      c, ch', n' := b, ch + [b], n + 1;
      assert BlockOk(data.blocks, b);
      SliceReused(v0, data.blocks, prior, ch, n, a, b, d);
      BeginsMore(prior, ch, n, b);
      rest := ReplaceHere(b, 0, s, v0, prior, ch', n', d);
    }

    /** New blocks for what is left of the value. */
    method AddBlocks(b: Addr, key: Bytes, val: Bytes, from: nat, ghost rest: Addr, ghost v0: Space, ghost prior: seq<Addr>, ghost ch: seq<Addr>, ghost n: nat)
      returns (a: Addr, ghost ch': seq<Addr>)
      requires data.Valid() && from <= |val| && Filled(v0, data.blocks, prior, ch, n, b, Upto(key, val, from)) && rest == Following(prior, n)
      modifies data, data.pool
      ensures data.Valid() && ch' != [] && ch'[0] == ch[0] && a == Last(ch')
      ensures Refilled(v0, data.blocks, prior, ch', n, rest, Stored(key, val))
      ensures Extended(old(data.blocks), data.blocks, ch, ch', from, |val|)
      ensures data.pool.used - PagesOf(data.blocks) == old(data.pool.used - PagesOf(data.blocks))
    {
      a, ch' := b, ch;
      var j := from;
      while j < |val|
        invariant data.Valid() && j <= |val| && ch' != [] && ch'[0] == ch[0]
        invariant Filled(v0, data.blocks, prior, ch', n, a, Upto(key, val, j)) && Extended(old(data.blocks), data.blocks, ch, ch', from, j)
        invariant from < j < |val| ==> data.blocks[a].size == PAGEMAXSPARE
        invariant data.pool.used - PagesOf(data.blocks) == old(data.pool.used - PagesOf(data.blocks))
      {
        ghost var v, front, was := data.blocks, ch', j;
        a, j, ch' := AddBlock(a, key, val, j, v0, prior, ch', n);
        OneAdded(old(data.blocks), v, data.blocks, ch, front, ch', from, was, j);
      }
      ValPart(key, val, j, |val|);
    }

    method AddBlock(a: Addr, key: Bytes, val: Bytes, j: nat, ghost v0: Space, ghost prior: seq<Addr>, ghost ch: seq<Addr>, ghost n: nat)
      returns (b: Addr, j': nat, ghost ch': seq<Addr>)
      requires data.Valid() && j < |val| && Filled(v0, data.blocks, prior, ch, n, a, Upto(key, val, j))
      modifies data, data.pool
      ensures data.Valid() && j < j' <= |val| && ch' == ch + [b] && Filled(v0, data.blocks, prior, ch', n, b, Upto(key, val, j'))
      ensures SameShape(old(data.blocks), data.blocks, ch) && Snug(data.blocks, b) && (j' < |val| ==> data.blocks[b].size == PAGEMAXSPARE)
      ensures data.pool.used - PagesOf(data.blocks) == old(data.pool.used - PagesOf(data.blocks))
    {
      b := AppendSlice(a, |val| - j, v0, prior, ch, n);
      ch' := ch + [b];
      var capacity := data.blocks[b].size;
      j' := j + capacity;
      ValPart(key, val, j, j');
      Append(b, 0, val[j..j'], v0, prior, ch', n, capacity);
    }

    /** Frees what the new chain does not use of the old one. */
    method FreeRest(rest: Addr, ghost v0: Space, ghost prior: seq<Addr>, ghost ch: seq<Addr>, ghost n: nat, ghost d: Bytes)
      requires data.Valid() && Refilled(v0, data.blocks, prior, ch, n, rest, d) && Tiled(v0) && Links(v0, prior)
      modifies data, data.pool
      ensures data.Valid() && Finished(v0, data.blocks, prior, ch, d) && InUse(data.blocks, ch[0]) && 8 <= data.blocks[ch[0]].size
      ensures SameShape(old(data.blocks), data.blocks, ch)
      ensures data.pool.used - PagesOf(data.blocks) == old(data.pool.used - PagesOf(data.blocks))
    {
      ghost var v := data.blocks;
      RestOf(v0, v, prior, ch, n, rest);
      if rest.page != 0 {
        FreeChain(rest, prior[n..]);
        TailFreed(v0, v, data.blocks, prior, ch, n, d);
      }
    }
  }

  function Following(prior: seq<Addr>, n: nat): Addr {
    if n < |prior| then prior[n] else NIL
  }

  /** The chain ch holds d in its first blocks and the first `at` bytes of the last one, a. */
  ghost predicate Filling(v0: Space, v: Space, prior: seq<Addr>, ch: seq<Addr>, n: nat, a: Addr, at: nat, d: Bytes) {
    && Growing(v0, v, prior, ch, n) && a == Last(ch) && InUse(v, a) && InUse(v, ch[0]) && 8 <= v[ch[0]].size
    && at <= |v[a].bytes| && Written(v, ch, at) == d
  }

  /** The same, to the end of the last block. */
  ghost predicate Filled(v0: Space, v: Space, prior: seq<Addr>, ch: seq<Addr>, n: nat, a: Addr, d: Bytes) {
    a in v && Filling(v0, v, prior, ch, n, a, v[a].size, d)
  }

  /** The chain holds d; what is left of the old chain starts at `rest`. */
  ghost predicate Refilled(v0: Space, v: Space, prior: seq<Addr>, ch: seq<Addr>, n: nat, rest: Addr, d: Bytes) {
    && Growing(v0, v, prior, ch, n) && InUse(v, ch[0]) && 8 <= v[ch[0]].size && Content(v, ch) == d && rest == Following(prior, n)
  }

  /** The chain holds d up to the end of its last block a; the old chain may go on with `rest`. */
  ghost predicate Reusing(v0: Space, v: Space, prior: seq<Addr>, ch: seq<Addr>, n: nat, a: Addr, rest: Addr, d: Bytes) {
    && Filled(v0, v, prior, ch, n, a, d) && rest == v[a].link == Following(prior, n) && 1 <= n
    && (rest.page != 0 ==> n < |prior| && rest in v && rest in v0 && !v0[rest].first)
  }

  ghost predicate Chained(v0: Space, prior: seq<Addr>) {
    Links(v0, prior) && forall i {:trigger prior[i]} :: 0 < i < |prior| ==> prior[i] in v0 && !v0[prior[i]].first
  }

  lemma FollowingOk(v0: Space, v: Space, prior: seq<Addr>, ch: seq<Addr>, n: nat)
    requires Growing(v0, v, prior, ch, n) && 1 <= n && Chained(v0, prior)
    ensures var b := Following(prior, n); b.page != 0 ==> n < |prior| && b in v && b in v0 && !v0[b].first
  {
    if n < |prior| { assert InUse(v, prior[n]); }
  }

  lemma WrittenSame(v: Space, w: Space, ch: seq<Addr>, at: nat)
    requires ch != [] && Lined(v, ch) && Lined(w, ch) && FrontSame(v, w, ch)
    requires at <= |v[Last(ch)].bytes| && at <= |w[Last(ch)].bytes| && w[Last(ch)].bytes[..at] == v[Last(ch)].bytes[..at]
    ensures Written(w, ch, at) == Written(v, ch, at)
  {
  }

  /** The next block of the old chain becomes the last of the new one. */
  lemma SliceReused(v0: Space, v: Space, prior: seq<Addr>, ch: seq<Addr>, n: nat, a: Addr, b: Addr, d: Bytes)
    requires Filled(v0, v, prior, ch, n, a, d) && b == v[a].link == Following(prior, n) && b.page != 0
    requires b in v0 && !v0[b].first && Links(v0, prior)
    ensures n < |prior| && Filling(v0, v, prior, ch + [b], n + 1, b, 0, d) && v[b] == v0[b] && v[b].link == Following(prior, n + 1)
    ensures (ch + [b])[0] == ch[0] && b != ch[0] && v[b].size <= |v[b].bytes|
  {
    assert InUse(v, prior[n]) && prior[n] in v0;
    OldSlice(v0, v, prior, ch, n, b);
    assert ch[0] in ch;
  }

  lemma RestOf(v0: Space, v: Space, prior: seq<Addr>, ch: seq<Addr>, n: nat, rest: Addr)
    requires Growing(v0, v, prior, ch, n) && Tiled(v0) && Links(v0, prior) && rest == Following(prior, n)
    ensures if rest.page != 0 then n < |prior| && prior[n..][0] == rest && Lined(v, prior[n..]) && Links(v, prior[n..]) else n == |prior|
    ensures n == |prior| ==> forall x {:trigger prior[x]} :: 0 <= x < |prior| ==> prior[x] in ch
  {
    if n < |prior| {
      assert InUse(v0, prior[n]) && BlockOk(v0, prior[n]);
      var t := prior[n..];
      forall i | 0 <= i < |t| ensures InUse(v, t[i]) && v[t[i]] == v0[t[i]] && v[t[i]].size <= |v[t[i]].bytes| && v[t[i]].link == if i + 1 < |t| then t[i + 1] else NIL {
        var x := n + i;
        assert t[i] == prior[x] && InUse(v0, prior[x]) && prior[x] in v0;
      }
      forall i, j | 0 <= i < j < |t| ensures t[i] != t[j] { }
    }
  }

  lemma TailFreed(v0: Space, v: Space, w: Space, prior: seq<Addr>, ch: seq<Addr>, n: nat, d: Bytes)
    requires Growing(v0, v, prior, ch, n) && n < |prior| && SameBut(v, w, Elems(prior[n..])) && Content(v, ch) == d
    requires forall i {:trigger prior[n..][i]} :: 0 <= i < |prior[n..]| ==> !InUse(w, prior[n..][i])
    ensures Finished(v0, w, prior, ch, d) && forall i {:trigger ch[i]} :: 0 <= i < |ch| ==> InUse(w, ch[i]) && w[ch[i]] == v[ch[i]]
  {
    var t := prior[n..];
    forall i | 0 <= i < |ch| ensures InUse(w, ch[i]) && w[ch[i]] == v[ch[i]] {
      assert InUse(v, ch[i]);
      NotInTail(prior, ch, n, ch[i]);
    }
    ContentSame(v, w, ch);
    forall x | 0 <= x < |prior| ensures prior[x] in ch || !InUse(w, prior[x]) {
      if x >= n { assert t[x - n] == prior[x]; } else { assert prior[x] in ch; }
    }
    forall c | c in Elems(t) ensures c in Elems(prior) {
      var i :| 0 <= i < |t| && t[i] == c;
      assert prior[n + i] == c;
    }
    forall c: Addr | c !in Elems(prior) + Elems(ch) ensures (InUse(v0, c) <==> InUse(w, c)) && (InUse(v0, c) ==> w[c] == v0[c]) {
      assert InUse(v, c) <==> InUse(v0, c);
    }
  }

  lemma NotInTail(prior: seq<Addr>, ch: seq<Addr>, n: nat, c: Addr)
    requires n <= |prior| && c in ch && forall x {:trigger prior[x]} :: n <= x < |prior| ==> prior[x] !in ch
    ensures c !in Elems(prior[n..])
  {
    forall i | 0 <= i < |prior[n..]| ensures prior[n..][i] != c { var x := n + i; assert prior[n..][i] == prior[x]; }
  }

  // ---------------------------------------------------------------- the start of a replacement

  lemma {:induction false} HeadPatched(v: Space, w: Space, ch: seq<Addr>, s: Bytes, n: nat)
    requires 0 < n <= |ch| && Lined(v, ch) && Lined(w, ch) && |s| == 4 && 8 <= v[ch[0]].size
    requires w[ch[0]] == Overwritten(v[ch[0]], 0, s)
    requires forall i {:trigger ch[i]} :: 0 < i < |ch| ==> ch[i] in v && ch[i] in w && w[ch[i]] == v[ch[i]]
    ensures Lined(v, ch[..n]) && Lined(w, ch[..n]) && |Content(v, ch[..n])| >= 8 && Content(w, ch[..n]) == s + Content(v, ch[..n])[4..]
    decreases n
  {
    var m := n - 1;
    ContentStep(v, ch, m, n);
    ContentStep(w, ch, m, n);
    if m == 0 {
      assert ch[..0] == [];
      assert Slice(w[ch[0]]) == s + Slice(v[ch[0]])[4..];
    } else {
      HeadPatched(v, w, ch, s, m);
      assert w[ch[m]] == v[ch[m]];
      DropCat(Content(v, ch[..m]), Slice(v[ch[m]]), 4);
    }
  }

  /** With the new length in its first block, the old chain begins like the new record. */
  lemma Repatched(v: Space, w: Space, ch: seq<Addr>, h: Addr, key: Bytes, was: Bytes, val: Bytes)
    requires Whole(v, ch, h, key, was) && w == v[h := Overwritten(v[h], 0, Le32(|key| + |val| + 8))]
    ensures Lined(w, ch) && Links(w, ch) && InUse(w, h) && Content(w, ch) == Le32(|key| + |val| + 8) + Stored(key, was)[4..]
    ensures |Content(w, ch)| == 8 + |key| + |was|
  {
    forall i | 0 <= i < |ch| ensures InUse(w, ch[i]) && w[ch[i]].size <= |w[ch[i]].bytes| && w[ch[i]].link == v[ch[i]].link && (i > 0 ==> w[ch[i]] == v[ch[i]]) {
      assert InUse(v, ch[i]);
    }
    forall i | 0 <= i < |ch| ensures ch[i] in w && w[ch[i]].link == if i + 1 < |ch| then ch[i + 1] else NIL { assert ch[i] in v; }
    HeadPatched(v, w, ch, Le32(|key| + |val| + 8), |ch|);
    assert ch[..|ch|] == ch;
  }

  lemma SameStart(key: Bytes, was: Bytes, val: Bytes)
    ensures (Le32(|key| + |val| + 8) + Stored(key, was)[4..])[..8 + |key|] == Stored(key, val)[..8 + |key|]
  {
    StoredParts(key, was);
    StoredParts(key, val);
    assert Stored(key, was)[4..][..4 + |key|] == Le32(|key|) + key;
    assert Stored(key, val)[..8 + |key|] == Le32(|key| + |val| + 8) + (Le32(|key|) + key);
  }

  lemma ReplaceStarts(v0: Space, v: Space, prior: seq<Addr>, h: Addr, a: Addr, at: nat, i: nat, n: nat, key: Bytes, was: Bytes, val: Bytes)
    requires Whole(v0, prior, h, key, was) && v == v0[h := Overwritten(v0[h], 0, Le32(|key| + |val| + 8))]
    requires Lined(v, prior) && Links(v, prior) && Content(v, prior) == Le32(|key| + |val| + 8) + Stored(key, was)[4..]
    requires Passed(v, prior, a, at, i, 8 + |key|) && at <= v[a].size && n == i + 1
    requires forall x {:trigger prior[x]} :: 0 <= x < |prior| ==> (v0[prior[x]].first <==> x == 0)
    ensures Filling(v0, v, prior, prior[..n], n, a, at, Upto(key, val, 0)) && v[a].link == Following(prior, n)
    ensures a == h ==> at == 8 + |key|
  {
    var ch := prior[..n];
    forall x | 0 <= x < |prior| ensures InUse(v0, prior[x]) && prior[x] in v && v[prior[x]].first == v0[prior[x]].first {
      assert InUse(v0, prior[x]);
    }
    StartsGrowing(v0, v, prior, h, n);
    WrittenSoFar(v, prior, ch, a, at, i, n, 8 + |key|);
    SameStart(key, was, val);
    assert InUse(v, ch[0]) && prior[i] in v && ch[0] == h;
    if a == h { assert i == 0 && prior[..0] == []; }
  }

  lemma WrittenSoFar(v: Space, prior: seq<Addr>, ch: seq<Addr>, a: Addr, at: nat, i: nat, n: nat, pass: nat)
    requires Passed(v, prior, a, at, i, pass) && at <= v[a].size <= |v[a].bytes| && n == i + 1 && ch == prior[..n] && Lined(v, ch) && pass <= |Content(v, prior)|
    ensures Last(ch) == a && Written(v, ch, at) == Content(v, prior)[..pass]
  {
    ContentStep(v, prior, i, n);
    ContentPrefix(v, prior, n);
    assert ch[..|ch| - 1] == prior[..i];
    var c, p := Content(v, prior[..i]), v[a];
    assert (c + Slice(p))[..pass] == c + p.bytes[..at];
    assert Content(v, prior)[..|Content(v, ch)|][..pass] == Content(v, prior)[..pass];
  }

  lemma StartsGrowing(v0: Space, v: Space, prior: seq<Addr>, h: Addr, n: nat)
    requires 0 < n <= |prior| && prior[0] == h && Lined(v0, prior) && Links(v0, prior) && Lined(v, prior) && h in v && h in v0 && v == v0[h := v[h]] && v[h].link == v0[h].link
    requires forall x {:trigger prior[x]} :: 0 <= x < |prior| ==> prior[x] in v && (v[prior[x]].first <==> x == 0)
    ensures Growing(v0, v, prior, prior[..n], n)
  {
    var ch := prior[..n];
    assert ch[0] == h && h in Elems(ch);
    StartsBegun(v0, v, prior, ch, h, n);
    StartsWaiting(v0, v, prior, ch, h, n);
    forall c: Addr | c !in Elems(prior) + Elems(ch) ensures (InUse(v0, c) <==> InUse(v, c)) && (InUse(v0, c) ==> v[c] == v0[c]) { assert c != h; }
  }

  lemma StartsBegun(v0: Space, v: Space, prior: seq<Addr>, ch: seq<Addr>, h: Addr, n: nat)
    requires 0 < n <= |prior| && ch == prior[..n] && Links(v0, prior) && Lined(v, prior) && h in v && h in v0 && v == v0[h := v[h]] && v[h].link == v0[h].link
    requires forall x {:trigger prior[x]} :: 0 <= x < |prior| ==> prior[x] in v && (v[prior[x]].first <==> x == 0)
    ensures Begun(v0, v, prior, ch)
  {
    forall i | 0 <= i < |ch| ensures ch[i] == prior[i] && InUse(v, ch[i]) && v[ch[i]].size <= |v[ch[i]].bytes| && (v[ch[i]].first <==> i == 0) && ch[i] in prior { assert InUse(v, prior[i]); }
    forall i | 0 <= i < |ch| - 1 ensures v[ch[i]].link == ch[i + 1] { assert prior[i] in v0 && v0[prior[i]].link == prior[i + 1]; }
  }

  lemma StartsWaiting(v0: Space, v: Space, prior: seq<Addr>, ch: seq<Addr>, h: Addr, n: nat)
    requires 0 < n <= |prior| && ch == prior[..n] && prior[0] == h && Lined(v0, prior) && Lined(v, prior) && h in v && h in v0 && v == v0[h := v[h]]
    ensures Waiting(v0, v, prior, ch, n)
  {
    forall x | n <= x < |prior| ensures prior[x] in v0 && InUse(v, prior[x]) && v[prior[x]] == v0[prior[x]] && prior[x] !in ch { assert InUse(v0, prior[x]); }
    forall x | 0 <= x < n ensures prior[x] in ch { assert ch[x] == prior[x]; }
  }

  /** What the invariant says of the blocks of record h. */
  lemma OldChain(v: Space, recs: map<Addr, seq<Addr>>, own: map<Addr, Addr>, kv: map<Addr, (Bytes, Bytes)>, h: Addr)
    requires Tiled(v) && RecordsOk(v, recs, own) && AllHold(v, recs, kv) && h in kv
    ensures h in recs && Links(v, recs[h]) && forall x {:trigger recs[h][x]} :: 0 <= x < |recs[h]| ==> recs[h][x] in v && (v[recs[h][x]].first <==> x == 0)
  {
    assert RecordOk(v, recs, own, h) && Holds(v, recs, h, kv[h].0, kv[h].1);
  }

  /** The chain ch of record h holds key and val. */
  ghost predicate Whole(v: Space, ch: seq<Addr>, h: Addr, key: Bytes, val: Bytes) {
    && Tiled(v) && ch != [] && ch[0] == h && Lined(v, ch) && Links(v, ch) && Content(v, ch) == Stored(key, val)
    && InUse(v, h) && 8 <= v[h].size <= |v[h].bytes|
  }

  lemma WholeRecord(v: Space, recs: map<Addr, seq<Addr>>, own: map<Addr, Addr>, kv: map<Addr, (Bytes, Bytes)>, h: Addr)
    requires Tiled(v) && RecordsOk(v, recs, own) && AllHold(v, recs, kv) && h in kv
    ensures h in recs && Whole(v, recs[h], h, kv[h].0, kv[h].1) && |kv[h].0| + |kv[h].1| + 8 < MAXLEN
  {
    assert RecordOk(v, recs, own, h) && Holds(v, recs, h, kv[h].0, kv[h].1) && InUse(v, recs[h][0]);
  }

  /** Block a is the i-th of the chain; `at` bytes into it `pass` bytes of the record are passed. */
  ghost predicate Passed(v: Space, ch: seq<Addr>, a: Addr, at: nat, i: nat, pass: nat) {
    && Lined(v, ch) && i < |ch| && a == ch[i] && InUse(v, a) && 0 < at
    && Lined(v, ch[..i]) && |Content(v, ch[..i])| + at == pass
  }

  lemma PassOn(v: Space, ch: seq<Addr>, a: Addr, at: nat, i: nat, pass: nat)
    requires Lined(v, ch) && Links(v, ch) && Passed(v, ch, a, at, i, pass) && at > v[a].size && pass <= |Content(v, ch)|
    ensures i + 1 < |ch| && Passed(v, ch, v[a].link, at - v[a].size, i + 1, pass)
  {
    var n := i + 1;
    ContentStep(v, ch, i, n);
    NotLast(v, ch, n, pass);
    assert ch[i] in v && InUse(v, ch[n]);
  }

  /** val is what the first n blocks hold behind the first `pass` bytes. */
  ghost predicate Read(v: Space, ch: seq<Addr>, n: nat, pass: nat, val: Bytes) {
    n <= |ch| && Lined(v, ch[..n]) && pass <= |Content(v, ch[..n])| && val == Content(v, ch[..n])[pass..]
  }

  lemma ReadFirst(v: Space, ch: seq<Addr>, a: Addr, at: nat, i: nat, n: nat, pass: nat)
    requires Passed(v, ch, a, at, i, pass) && at <= v[a].size <= |v[a].bytes| && n == i + 1
    ensures Read(v, ch, n, pass, v[a].bytes[at..v[a].size])
  {
    ContentStep(v, ch, i, n);
  }

  lemma ReadOn(v: Space, ch: seq<Addr>, h: Addr, i: nat, n: nat, n1: nat, pass: nat, val: Bytes, key: Bytes, all: Bytes)
    requires Whole(v, ch, h, key, all) && n == i + 1 && n1 == n + 1 && Read(v, ch, n, pass, val) && i < |ch| && v[ch[i]].link.page != 0
    ensures n < |ch| && v[ch[i]].link == ch[n] && InUse(v, ch[n]) && v[ch[n]].size <= |v[ch[n]].bytes|
    ensures Read(v, ch, n1, pass, val + Slice(v[ch[n]]))
  {
    LinkGoesOn(v, ch, i, n);
    ContentStep(v, ch, n, n1);
    DropCat(Content(v, ch[..n]), Slice(v[ch[n]]), pass);
  }

  lemma DropCat(a: Bytes, b: Bytes, k: nat)
    requires k <= |a|
    ensures (a + b)[k..] == a[k..] + b
  {
  }

  lemma KeyFirst(v: Space, ch: seq<Addr>, h: Addr, key: Bytes, val: Bytes)
    requires Whole(v, ch, h, key, val)
    ensures Lined(v, ch[..1]) && |Content(v, ch[..1])| == v[h].size
    ensures |key| + 8 <= v[h].size ==> v[h].bytes[8..8 + |key|] == key
    ensures |key| + 8 > v[h].size ==> v[h].bytes[8..v[h].size] <= key
  {
    ContentStep(v, ch, 0, 1);
    ContentPrefix(v, ch, 1);
    assert ch[..0] == [] && Content(v, ch[..1]) == Slice(v[h]);
    KeyIn(v[h].bytes, v[h].size, key, val);
  }

  lemma KeyIn(b: Bytes, n: nat, key: Bytes, val: Bytes)
    requires 8 <= n <= |b| && b[..n] <= Stored(key, val)
    ensures |key| + 8 <= n ==> b[8..8 + |key|] == key
    ensures |key| + 8 > n ==> b[8..n] <= key
  {
    PartOfKey(key, val, b[..n], n);
    if |key| + 8 <= n { assert b[..n][8..8 + |key|] == b[8..8 + |key|]; } else { assert b[..n][8..n] == b[8..n]; }
  }

  /** A prefix of a record that ends in its key ends with a prefix of the key. */
  lemma PartOfKey(key: Bytes, val: Bytes, p: Bytes, n: nat)
    requires p <= Stored(key, val) && n == |p| && 8 <= n
    ensures n <= 8 + |key| ==> p[8..n] == key[..n - 8]
    ensures n >= 8 + |key| ==> p[8..8 + |key|] == key
  {
    var s := Stored(key, val);
    StoredParts(key, val);
    assert n <= 8 + |key| ==> p[8..n] == s[8..8 + |key|][..n - 8];
    assert n >= 8 + |key| ==> p[8..8 + |key|] == s[8..8 + |key|];
  }

  lemma KeyOn(v: Space, ch: seq<Addr>, h: Addr, i: nat, n: nat, n1: nat, got: Bytes, left: nat, key: Bytes, val: Bytes)
    requires Whole(v, ch, h, key, val) && n == i + 1 && n1 == n + 1 && i < |ch| && got <= key && |got| + left == |key| && left > 0
    requires Lined(v, ch[..n]) && |Content(v, ch[..n])| == 8 + |got|
    ensures n < |ch| && v[ch[i]].link == ch[n] && InUse(v, ch[n]) && v[ch[n]].size <= |v[ch[n]].bytes|
    ensures var b := v[ch[n]]; var min := if left < b.size then left else b.size; got + b.bytes[..min] <= key
    ensures left > v[ch[n]].size ==> Lined(v, ch[..n1]) && |Content(v, ch[..n1])| == 8 + |got| + v[ch[n]].size
  {
    NotLast(v, ch, n, 8 + |key|);
    assert ch[i] in v && InUse(v, ch[n]);
    ContentStep(v, ch, n, n1);
    ContentPrefix(v, ch, n1);
    ContentPrefix(v, ch, n);
    KeyGoesOn(Content(v, ch[..n]), v[ch[n]].bytes, v[ch[n]].size, got, left, key, val);
  }

  lemma KeyGoesOn(q: Bytes, b: Bytes, size: nat, got: Bytes, left: nat, key: Bytes, val: Bytes)
    requires size <= |b| && q + b[..size] <= Stored(key, val) && |q| == 8 + |got| && got <= key && |got| + left == |key|
    ensures var min := if left < size then left else size; got + b[..min] <= key
  {
    var s, p := Stored(key, val), q + b[..size];
    var min := if left < size then left else size;
    StoredParts(key, val);
    assert b[..min] == p[|q|..|q| + min] == s[|q|..|q| + min];
    assert s[|q|..|q| + min] == s[8..8 + |key|][|got|..|got| + min];
    assert key[..|got| + min] == got + b[..min];
  }

  lemma ContentStep(v: Space, ch: seq<Addr>, i: nat, n: nat)
    requires Lined(v, ch) && i < |ch| && n == i + 1
    ensures Lined(v, ch[..i]) && Lined(v, ch[..n]) && Content(v, ch[..n]) == Content(v, ch[..i]) + Slice(v[ch[i]])
    ensures |Slice(v[ch[i]])| == v[ch[i]].size
  {
    assert ch[..n][..i] == ch[..i];
  }

  lemma {:induction false} ContentPrefix(v: Space, ch: seq<Addr>, i: nat)
    requires Lined(v, ch) && i <= |ch|
    ensures Lined(v, ch[..i]) && |Content(v, ch[..i])| <= |Content(v, ch)| && Content(v, ch[..i]) == Content(v, ch)[..|Content(v, ch[..i])|]
    decreases |ch| - i
  {
    if i < |ch| {
      ContentStep(v, ch, i, i + 1);
      ContentPrefix(v, ch, i + 1);
    } else {
      assert ch[..i] == ch;
    }
  }

  /** A chain that goes on behind n blocks has another one. */
  lemma NotLast(v: Space, ch: seq<Addr>, n: nat, len: nat)
    requires Lined(v, ch) && n <= |ch| && len <= |Content(v, ch)| && Lined(v, ch[..n]) && |Content(v, ch[..n])| < len
    ensures n < |ch|
  {
    var p := ch[..n];
    assert |p| == |ch| ==> p == ch;
  }

  lemma LinkGoesOn(v: Space, ch: seq<Addr>, i: nat, n: nat)
    requires Lined(v, ch) && Links(v, ch) && i < |ch| && n == i + 1 && v[ch[i]].link.page != 0
    ensures n < |ch| && v[ch[i]].link == ch[n] && InUse(v, ch[n])
  {
    assert ch[i] in v;
    if n < |ch| { assert InUse(v, ch[n]); }
  }

  lemma AtLast(v: Space, ch: seq<Addr>, i: nat)
    requires Tiled(v) && Lined(v, ch) && Links(v, ch) && i < |ch| && v[ch[i]].link.page == 0
    ensures i + 1 == |ch|
  {
    forall k | 0 <= k < |ch| ensures ch[k].page != 0 { assert InUse(v, ch[k]) && BlockOk(v, ch[k]); }
    assert ch[i] in v;
  }

  /** The first block begins with the two lengths. */
  lemma HeadBytes(v: Space, ch: seq<Addr>, key: Bytes, val: Bytes)
    requires ch != [] && Lined(v, ch) && Content(v, ch) == Stored(key, val) && 8 <= v[ch[0]].size <= |v[ch[0]].bytes|
    ensures v[ch[0]].bytes[..4] == Le32(|key| + |val| + 8) && v[ch[0]].bytes[4..8] == Le32(|key|)
  {
    ContentStep(v, ch, 0, 1);
    ContentPrefix(v, ch, 1);
    assert ch[..0] == [];
    StoredParts(key, val);
    SameHead(Slice(v[ch[0]]), Stored(key, val));
    SameHead(Slice(v[ch[0]]), v[ch[0]].bytes);
  }

  lemma SameHead(p: Bytes, s: Bytes)
    requires 8 <= |p| && p <= s
    ensures s[..4] == p[..4] && s[4..8] == p[4..8]
  {
  }

  /** Record h is gone, and its blocks with it. */
  lemma RecordDropped(v: Space, w: Space, recs: map<Addr, seq<Addr>>, own: map<Addr, Addr>, kv: map<Addr, (Bytes, Bytes)>, h: Addr)
    returns (recs': map<Addr, seq<Addr>>, kv': map<Addr, (Bytes, Bytes)>)
    requires RecordsOk(v, recs, own) && AllHold(v, recs, kv) && h in recs && SameBut(v, w, Elems(recs[h]))
    requires forall i {:trigger recs[h][i]} :: 0 <= i < |recs[h]| ==> !InUse(w, recs[h][i])
    ensures recs' == recs - {h} && kv' == kv - {h} && RecordsOk(w, recs', own) && AllHold(w, recs', kv')
  {
    recs', kv' := recs - {h}, kv - {h};
    var prior := recs[h];
    forall g: Addr ensures RecordOk(w, recs', own, g) {
      if g in recs' { KeptRecord(v, w, recs, own, g, h); }
    }
    forall a: Addr ensures Owned(w, recs', own, a) {
      assert Owned(v, recs, own, a);
      if InUse(w, a) {
        assert a !in Elems(prior) && InUse(v, a);
        assert RecordOk(v, recs, own, h);
      }
    }
    forall g | g in kv' ensures Holds(w, recs', g, kv'[g].0, kv'[g].1) && |kv'[g].0| + |kv'[g].1| + 8 < MAXLEN {
      assert Holds(v, recs, g, kv[g].0, kv[g].1);
      KeptRecord(v, w, recs, own, g, h);
    }
  }

  lemma KeptRecord(v: Space, w: Space, recs: map<Addr, seq<Addr>>, own: map<Addr, Addr>, g: Addr, h: Addr)
    requires RecordsOk(v, recs, own) && g in recs && h in recs && g != h && SameBut(v, w, Elems(recs[h]))
    ensures RecordOk(w, recs - {h}, own, g) && Lined(v, recs[g]) && Lined(w, recs[g]) && Content(w, recs[g]) == Content(v, recs[g])
  {
    var cg := recs[g];
    assert RecordOk(v, recs, own, g) && RecordOk(v, recs, own, h);
    forall i | 0 <= i < |cg| ensures cg[i] !in Elems(recs[h]) && cg[i] in w && w[cg[i]] == v[cg[i]] {
      assert InUse(v, cg[i]) && own[cg[i]] == g;
    }
    ContentSame(v, w, cg);
  }

  /** New blocks ch hold d; `room` bytes behind the first `at` of the last one, a, are still free. */
  ghost predicate Building(v0: Space, v: Space, ch: seq<Addr>, a: Addr, at: nat, room: nat, d: Bytes) {
    && Growing(v0, v, [], ch, 0) && a == Last(ch) && InUse(v, a) && InUse(v, ch[0]) && 8 <= v[ch[0]].size
    && at + room == v[a].size <= |v[a].bytes| && Written(v, ch, at) == d
  }

  lemma KeyPart(key: Bytes, val: Bytes, k: nat, m: nat)
    requires k <= m <= |key|
    ensures Stored(key, val)[..8 + k] + key[k..m] == Stored(key, val)[..8 + m]
    ensures key[k..|key|] == key[k..]
  {
  }

  /** A record up to the first j bytes of its value. */
  function Upto(key: Bytes, val: Bytes, j: nat): Bytes
    requires j <= |val|
  {
    Stored(key, val)[..8 + |key| + j]
  }

  lemma ValPart(key: Bytes, val: Bytes, j: nat, m: nat)
    requires j <= m <= |val|
    ensures Upto(key, val, j) + val[j..m] == Upto(key, val, m)
    ensures Upto(key, val, |val|) == Stored(key, val) && val[j..|val|] == val[j..]
  {
  }

  lemma NotARecord(v: Space, recs: map<Addr, seq<Addr>>, own: map<Addr, Addr>, h: Addr)
    requires RecordsOk(v, recs, own) && !InUse(v, h)
    ensures h !in recs
  {
    forall g | g in recs ensures g != h {
      assert RecordOk(v, recs, own, g);
      assert InUse(v, recs[g][0]);
    }
  }

  /** The chain ch is complete but for the end mark; what it does not use of prior is free. */
  ghost predicate Finished(v0: Space, v: Space, prior: seq<Addr>, ch: seq<Addr>, d: Bytes) {
    && Begun(v0, v, prior, ch) && SameBut(v0, v, Elems(prior) + Elems(ch)) && Content(v, ch) == d
    && forall x {:trigger prior[x]} :: 0 <= x < |prior| ==> prior[x] in ch || !InUse(v, prior[x])
  }

  lemma AllWritten(v0: Space, v: Space, ch: seq<Addr>, a: Addr, at: nat, d: Bytes)
    requires Building(v0, v, ch, a, at, 0, d)
    ensures Finished(v0, v, [], ch, d)
  {
  }

  /** The end mark keeps it so. */
  lemma EndMarked(v0: Space, v: Space, w: Space, prior: seq<Addr>, ch: seq<Addr>, a: Addr, d: Bytes)
    requires Finished(v0, v, prior, ch, d) && a == Last(ch) && InUse(v, a) && SameUse(v, w, a) && w == v[a := v[a].(link := NIL)]
    ensures Finished(v0, w, prior, ch, d) && Links(w, ch)
  {
    var n := |ch| - 1;
    assert ch[n] == a && a in Elems(ch);
    ChainMarked(v0, v, w, prior, ch, a);
    forall c: Addr | c !in Elems(prior) + Elems(ch) ensures (InUse(v0, c) <==> InUse(w, c)) && (InUse(v0, c) ==> w[c] == v0[c]) {
      assert InUse(v, c) <==> InUse(v0, c);
    }
    forall x | 0 <= x < |prior| && InUse(w, prior[x]) ensures prior[x] in ch { assert InUse(v, prior[x]); }
  }

  lemma ChainMarked(v0: Space, v: Space, w: Space, prior: seq<Addr>, ch: seq<Addr>, a: Addr)
    requires Begun(v0, v, prior, ch) && a == Last(ch) && InUse(v, a) && w == v[a := v[a].(link := NIL)]
    ensures Begun(v0, w, prior, ch) && Links(w, ch) && Content(w, ch) == Content(v, ch)
  {
    var n := |ch| - 1;
    assert ch[n] == a;
    forall i | 0 <= i < |ch| ensures InUse(w, ch[i]) && w[ch[i]].size == v[ch[i]].size && w[ch[i]].bytes == v[ch[i]].bytes && (i < n ==> w[ch[i]] == v[ch[i]]) { assert InUse(v, ch[i]); }
    FrontLined(v, ch);
    ContentSame(v, w, ch[..n]);
  }

  /** The complete chain ch takes the place of record ch[0]. */
  lemma Entered(v: Space, w: Space, recs: map<Addr, seq<Addr>>, own: map<Addr, Addr>, kv: map<Addr, (Bytes, Bytes)>,
                prior: seq<Addr>, ch: seq<Addr>, key: Bytes, val: Bytes) returns (own': map<Addr, Addr>)
    requires RecordsOk(v, recs, own) && AllHold(v, recs, kv) && Finished(v, w, prior, ch, Stored(key, val)) && Links(w, ch)
    requires prior == if ch[0] in recs then recs[ch[0]] else []
    requires |key| + |val| + 8 < MAXLEN && InUse(w, ch[0]) && 8 <= w[ch[0]].size
    ensures RecordsOk(w, recs[ch[0] := ch], own') && AllHold(w, recs[ch[0] := ch], kv[ch[0] := (key, val)])
  {
    forall a | a in prior && a !in ch ensures !InUse(w, a) {
      var x :| 0 <= x < |prior| && prior[x] == a;
    }
    own' := RecordsUpdated(v, w, recs, own, ch[0], prior, ch);
    OthersHold(v, w, recs, own, kv, ch[0], prior, ch);
    HoldAgain(w, recs, kv, ch[0], ch, key, val);
  }

  lemma HoldAgain(w: Space, recs: map<Addr, seq<Addr>>, kv: map<Addr, (Bytes, Bytes)>, h: Addr, ch: seq<Addr>, key: Bytes, val: Bytes)
    requires recs.Keys == kv.Keys && Lined(w, ch) && Content(w, ch) == Stored(key, val) && |key| + |val| + 8 < MAXLEN
    requires forall g {:trigger kv[g]} :: g in kv && g != h ==> Holds(w, recs[h := ch], g, kv[g].0, kv[g].1) && |kv[g].0| + |kv[g].1| + 8 < MAXLEN
    ensures AllHold(w, recs[h := ch], kv[h := (key, val)])
  {
  }

  lemma NodeEnded(v0: Space, v: Space, w: Space, recs: map<Addr, seq<Addr>>, own: map<Addr, Addr>, kv: map<Addr, (Bytes, Bytes)>,
                  prior: seq<Addr>, ch: seq<Addr>, a: Addr, key: Bytes, val: Bytes)
    returns (own': map<Addr, Addr>, recs': map<Addr, seq<Addr>>, kv': map<Addr, (Bytes, Bytes)>)
    requires Finished(v0, v, prior, ch, Stored(key, val)) && a == Last(ch) && InUse(v, a) && InUse(v, ch[0]) && SameUse(v, w, a)
    requires w == v[a := v[a].(link := NIL)] && |key| + |val| + 8 < MAXLEN && 8 <= v[ch[0]].size
    requires RecordsOk(v0, recs, own) && AllHold(v0, recs, kv)
    requires prior == if ch[0] in recs then recs[ch[0]] else []
    ensures recs' == recs[ch[0] := ch] && kv' == kv[ch[0] := (key, val)]
    ensures RecordsOk(w, recs', own') && AllHold(w, recs', kv')
  {
    EndMarked(v0, v, w, prior, ch, a, Stored(key, val));
    assert InUse(w, ch[0]);
    own' := Entered(v0, w, recs, own, kv, prior, ch, key, val);
    recs', kv' := recs[ch[0] := ch], kv[ch[0] := (key, val)];
  }

  lemma LinkedShape(v: Space, w: Space, u: Space, ch: seq<Addr>, a: Addr, b: Addr)
    requires Lined(v, ch) && SameUse(v, w, b) && !InUse(v, b) && a in w && a in u && u == w[a := w[a].(link := u[a].link)]
    ensures SameShape(v, u, ch)
  {
    forall i | 0 <= i < |ch| ensures ch[i] in v && ch[i] in u && u[ch[i]].size == v[ch[i]].size && u[ch[i]].next == v[ch[i]].next {
      assert InUse(v, ch[i]) && InUse(w, ch[i]);
    }
  }

  lemma PatchedShape(v: Space, w: Space, ch: seq<Addr>, a: Addr)
    requires Lined(v, ch) && a in v && a in w && w == v[a := w[a]] && w[a].size == v[a].size && w[a].next == v[a].next
    ensures SameShape(v, w, ch)
  {
    forall i | 0 <= i < |ch| ensures ch[i] in v && ch[i] in w && w[ch[i]].size == v[ch[i]].size && w[ch[i]].next == v[ch[i]].next {
      assert InUse(v, ch[i]);
    }
  }

  /** From v to w blocks were added to the chain ch for bytes `from` to j of the value. */
  ghost predicate Extended(v: Space, w: Space, ch: seq<Addr>, ch': seq<Addr>, from: nat, j: nat) {
    ch <= ch' && SameShape(v, w, ch) && if from < j then |ch| < |ch'| && Neat(w, ch', |ch|) else ch' == ch
  }

  lemma OneAdded(v: Space, w: Space, u: Space, ch: seq<Addr>, ch1: seq<Addr>, ch': seq<Addr>, from: nat, j: nat, j': nat)
    requires Extended(v, w, ch, ch1, from, j) && from <= j < j' && SameShape(w, u, ch1) && |ch'| > 0 && ch' == ch1 + [Last(ch')] && Snug(u, Last(ch'))
    requires from < j ==> Last(ch1) in w && w[Last(ch1)].size == PAGEMAXSPARE
    ensures Extended(v, u, ch, ch', from, j')
  {
    forall i | 0 <= i < |ch| ensures ch[i] in v && ch[i] in u && u[ch[i]].size == v[ch[i]].size && u[ch[i]].next == v[ch[i]].next {
      assert ch1[i] == ch[i];
    }
    if from < j { NeatMore(w, u, ch1, Last(ch'), |ch|); }
  }

  /** The new chain is the beginning of the old one. */
  lemma AllReused(v0: Space, v: Space, prior: seq<Addr>, ch: seq<Addr>, n: nat, total: nat)
    requires Begins(prior, ch, n) && Snug(v, Last(ch))
    ensures Reuses(v0, v, prior, ch, n, total)
  {
    assert ch[..n] == ch;
  }

  /** Block `rest` of the old chain cannot take the `left` bytes that are left. */
  ghost predicate Unfit(v: Space, rest: Addr, left: nat) {
    rest.page != 0 ==> rest in v && v[rest].size != PAGEMAXSPARE && Capacity(v, rest) < left
  }

  lemma RestUnfit(v0: Space, v: Space, prior: seq<Addr>, front: seq<Addr>, n: nat, rest: Addr, left: nat)
    requires Growing(v0, v, prior, front, n) && Tiled(v0) && Links(v0, prior) && rest == Following(prior, n) && Unfit(v, rest, left)
    ensures n <= |prior| && (n < |prior| ==> prior[n] in v0 && v0[prior[n]].size != PAGEMAXSPARE && Capacity(v0, prior[n]) < left)
  {
    RestOf(v0, v, prior, front, n, rest);
    if n < |prior| { assert rest == prior[n] && v[rest] == v0[rest]; }
  }

  /** Behind what could be used of the old chain come new blocks. */
  lemma SomeReused(v0: Space, v: Space, w: Space, prior: seq<Addr>, front: seq<Addr>, ch: seq<Addr>, n: nat, from: nat, j: nat, left: nat, total: nat)
    requires Begins(prior, front, n) && from < j && Extended(v, w, front, ch, from, j) && Lined(w, ch) && Lined(v, front)
    requires |Written(v, front, v[Last(front)].size)| + left == total
    requires n < |prior| ==> prior[n] in v0 && v0[prior[n]].size != PAGEMAXSPARE && Capacity(v0, prior[n]) < left
    ensures Reuses(v0, w, prior, ch, n, total)
  {
    assert ch[..n] == front;
    forall i | 0 <= i < n ensures ch[i] == front[i] && InUse(w, ch[i]) { }
    FrontLength(v, w, front);
  }

  lemma FrontLength(v: Space, w: Space, front: seq<Addr>)
    requires front != [] && Lined(v, front) && Lined(w, front) && SameShape(v, w, front)
    ensures |Content(w, front)| == |Written(v, front, v[Last(front)].size)|
  {
    SameLength(v, w, front);
  }

  lemma FirstSlice(v: Space, w: Space, h: Addr)
    requires SameUse(v, w, h) && !InUse(v, h) && InUse(w, h) && w[h].first && w[h].size <= |w[h].bytes|
    ensures Growing(v, w, [], [h], 0) && Written(w, [h], 0) == []
  {
    assert [h][0] == h;
    forall c: Addr | c !in Elems([]) + Elems([h]) ensures (InUse(v, c) <==> InUse(w, c)) && (InUse(v, c) ==> w[c] == v[c]) {
      assert c != h;
    }
  }

  /** The other records hold what they held. */
  lemma OthersHold(v: Space, w: Space, recs: map<Addr, seq<Addr>>, own: map<Addr, Addr>, kv: map<Addr, (Bytes, Bytes)>, h: Addr, prior: seq<Addr>, ch: seq<Addr>)
    requires RecordsOk(v, recs, own) && AllHold(v, recs, kv) && prior == if h in recs then recs[h] else []
    requires forall i {:trigger ch[i]} :: 0 <= i < |ch| ==> InUse(v, ch[i]) ==> ch[i] in prior
    requires SameBut(v, w, Elems(prior) + Elems(ch))
    ensures forall g {:trigger kv[g]} :: g in kv && g != h ==> Holds(w, recs[h := ch], g, kv[g].0, kv[g].1)
  {
    var own' := map a | a in own.Keys + Elems(ch) :: if a in Elems(ch) then h else own[a];
    forall g | g in kv && g != h ensures Holds(w, recs[h := ch], g, kv[g].0, kv[g].1) {
      assert Holds(v, recs, g, kv[g].0, kv[g].1);
      OtherRecord(v, w, recs, own, own', g, h, prior, ch);
    }
  }

  lemma OneFreed(v: Space, w: Space, u: Space, ch: seq<Addr>, k: nat)
    requires k < |ch| && SameBut(v, w, Elems(ch)) && SameUse(w, u, ch[k]) && !InUse(u, ch[k])
    requires forall i {:trigger ch[i]} :: 0 <= i < |ch| ==> ch[i] in v
    requires forall i, j :: 0 <= i < j < |ch| ==> ch[i] != ch[j]
    requires forall i {:trigger ch[i]} :: 0 <= i < k ==> !InUse(w, ch[i])
    requires forall i {:trigger ch[i]} :: k <= i < |ch| ==> InUse(w, ch[i]) && w[ch[i]] == v[ch[i]]
    ensures SameBut(v, u, Elems(ch))
    ensures forall i {:trigger ch[i]} :: 0 <= i <= k ==> !InUse(u, ch[i])
    ensures forall i {:trigger ch[i]} :: k < i < |ch| ==> InUse(u, ch[i]) && u[ch[i]] == v[ch[i]]
  {
    assert ch[k] in Elems(ch);
    forall c: Addr | c !in Elems(ch) ensures (InUse(v, c) <==> InUse(u, c)) && (InUse(v, c) ==> u[c] == v[c]) {
      assert InUse(w, c) <==> InUse(v, c);
    }
    forall i | 0 <= i < k ensures !InUse(u, ch[i]) { assert !InUse(w, ch[i]); }
    forall i | k < i < |ch| ensures InUse(u, ch[i]) && u[ch[i]] == v[ch[i]] { assert InUse(w, ch[i]); }
  }
}

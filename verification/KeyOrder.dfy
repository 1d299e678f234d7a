/** The order of keys: byte strings compared from the front, a proper prefix first. */
module KeyOrder {
  import opened Common
  import opened Blocks
  import opened DataPages
  import opened Records

  function Sign(x: int): int {
    if x < 0 then -1 else if x > 0 then 1 else 0
  }

  function Diff(x: byte, y: byte): int {
    x as int - y as int
  }

  /** The order that `compare` is to compute: negative, zero or positive as a comes before b, is b,
      or comes after b. */
  function Lex(a: Bytes, b: Bytes): int
    decreases |a|
  {
    if a == [] then (if b == [] then 0 else -1)
    else if b == [] then 1
    else if a[0] != b[0] then Sign(Diff(a[0], b[0]))
    else Lex(a[1..], b[1..])
  }

  // ---------------------------------------------------------------- keys as numbers

  /** A number for each byte string, in the same order. */
  function Rank(s: Bytes): (r: real)
    ensures 0.0 <= r < 1.0
    decreases |s|
  {
    if s == [] then 0.0 else ((s[0] as int + 1) as real + Rank(s[1..])) / 257.0
  }

  lemma {:induction false} RankOrder(a: Bytes, b: Bytes)
    ensures Lex(a, b) < 0 <==> Rank(a) < Rank(b)
    ensures Lex(a, b) > 0 <==> Rank(a) > Rank(b)
    ensures Lex(a, b) == 0 <==> a == b
    decreases |a|
  {
    if a != [] && b != [] {
      RankOrder(a[1..], b[1..]);
      var x, y := (a[0] as int + 1) as real + Rank(a[1..]), (b[0] as int + 1) as real + Rank(b[1..]);
      assert Rank(a) == x / 257.0 && Rank(b) == y / 257.0;
      if a[0] == b[0] {
        assert a == [a[0]] + a[1..] && b == [b[0]] + b[1..];
      } else if a[0] < b[0] {
        assert (a[0] as int + 1) as real + 1.0 <= (b[0] as int + 1) as real;
      } else {
        assert (b[0] as int + 1) as real + 1.0 <= (a[0] as int + 1) as real;
      }
    }
  }

  /** The order of keys is total, and strict on different keys. */
  lemma LexTotal(a: Bytes, b: Bytes, c: Bytes)
    ensures Sign(Lex(a, b)) == -Sign(Lex(b, a))
    ensures Lex(a, b) == 0 <==> a == b
    ensures Lex(a, b) <= 0 && Lex(b, c) <= 0 ==> Lex(a, c) <= 0
  {
    RankOrder(a, b);
    RankOrder(b, a);
    RankOrder(b, c);
    RankOrder(a, c);
  }

  // ---------------------------------------------------------------- finding the first difference

  lemma {:induction false} LexAt(a: Bytes, b: Bytes, n: nat)
    requires n <= |a| && n <= |b| && a[..n] == b[..n]
    ensures n < |a| && n < |b| && a[n] != b[n] ==> Lex(a, b) == Sign(Diff(a[n], b[n]))
    ensures n == |a| || n == |b| ==> Lex(a, b) == Sign(|a| - |b|)
    decreases n
  {
    if n > 0 {
      assert a[0] == a[..n][0] && b[0] == b[..n][0];
      assert a[1..][..n - 1] == a[..n][1..] && b[1..][..n - 1] == b[..n][1..];
      LexAt(a[1..], b[1..], n - 1);
    }
  }

  /** r tells how the first n bytes of s and t compare. */
  ghost predicate Compared(s: Bytes, t: Bytes, n: nat, r: int)
    requires n <= |s| && n <= |t|
  {
    if r == 0 then s[..n] == t[..n]
    else exists p :: 0 <= p < n && s[..p] == t[..p] && s[p] != t[p] && Sign(r) == Sign(Diff(s[p], t[p]))
  }

  /** A word of four bytes, least significant first. */
  function Word(s: Bytes, i: nat): nat
    requires i + 4 <= |s|
  {
    U32(s[i..i + 4])
  }

  const W8: int := 0x100
  const W16: int := 0x1_0000
  const W24: int := 0x100_0000
  const W32: int := 0x1_0000_0000

  /** How two different words compare: the lowest byte that differs decides. */
  method CompareWords(k1: nat, k2: nat) returns (r: int)
    requires k1 < W32 && k2 < W32 && k1 != k2
    ensures r == WordsCompared(k1, k2)
  {
    var comp := (k1 - k2) % W32;
    if comp % W8 != 0 { return k1 % W8 - k2 % W8; }
    if comp % W16 / W8 != 0 { return k1 % W16 / W8 * W8 - k2 % W16 / W8 * W8; }
    if comp % W24 / W16 != 0 { return k1 % W24 / W16 * W16 - k2 % W24 / W16 * W16; }
    return k1 / W24 - k2 / W24;
  }

  function WordsCompared(k1: nat, k2: nat): int {
    var comp := (k1 - k2) % W32;
    if comp % W8 != 0 then k1 % W8 - k2 % W8
    else if comp % W16 / W8 != 0 then k1 % W16 / W8 * W8 - k2 % W16 / W8 * W8
    else if comp % W24 / W16 != 0 then k1 % W24 / W16 * W16 - k2 % W24 / W16 * W16
    else k1 / W24 - k2 / W24
  }

  lemma Digits(a0: nat, a1: nat, a2: nat, a3: nat, k: nat)
    requires a0 < W8 && a1 < W8 && a2 < W8 && a3 < W8 && k == a0 + W8 * a1 + W16 * a2 + W24 * a3
    ensures k < W32 && k % W8 == a0 && k % W16 / W8 == a1 && k % W24 / W16 == a2 && k / W24 == a3
  {
    assert k / W24 == a3 && k % W24 == a0 + W8 * a1 + W16 * a2;
    assert k % W16 == a0 + W8 * a1;
  }

  /** The first of four byte pairs that differ. */
  function FirstOf(a: Bytes, b: Bytes): (p: nat)
    requires |a| == |b| == 4 && a != b
    ensures p < 4 && a[..p] == b[..p] && a[p] != b[p]
  {
    if a[0] != b[0] then 0 else if a[1] != b[1] then 1 else if a[2] != b[2] then 2 else 3
  }

  lemma WordOrder(a: Bytes, b: Bytes)
    requires |a| == |b| == 4
    ensures U32(a) < W32 && (U32(a) == U32(b) <==> a == b)
    ensures a != b ==> Sign(WordsCompared(U32(a), U32(b))) == Sign(Diff(a[FirstOf(a, b)], b[FirstOf(a, b)]))
  {
    Digits(a[0], a[1], a[2], a[3], U32(a));
    Digits(b[0], b[1], b[2], b[3], U32(b));
    if a != b {
      var p := FirstOf(a, b);
      var c := (U32(a) - U32(b)) % W32;
      var d0, d1, d2, d3 := Diff(a[0], b[0]), Diff(a[1], b[1]), Diff(a[2], b[2]), Diff(a[3], b[3]);
      assert U32(a) - U32(b) == d0 + W8 * d1 + W16 * d2 + W24 * d3;
      Borrow(U32(a) - U32(b), c, d0, d1, d2, d3);
    }
  }

  /** The low bytes of a difference are zero as long as the bytes agree. */
  lemma Borrow(x: int, c: nat, d0: int, d1: int, d2: int, d3: int)
    requires x == d0 + W8 * d1 + W16 * d2 + W24 * d3 && c == x % W32
    requires -W8 < d0 < W8 && -W8 < d1 < W8 && -W8 < d2 < W8
    ensures c % W8 != 0 <==> d0 != 0
    ensures d0 == 0 ==> (c % W16 / W8 != 0 <==> d1 != 0)
    ensures d0 == 0 && d1 == 0 ==> (c % W24 / W16 != 0 <==> d2 != 0)
  {
    var q := x / W32;
    assert x == c + W32 * q;
    Low8(d0, d1 + W8 * d2 + W16 * d3 - W24 * q);
    assert c == d0 + W8 * (d1 + W8 * d2 + W16 * d3 - W24 * q);
    if d0 == 0 {
      assert c == W8 * d1 + W16 * (d2 + W8 * d3 - W16 * q);
      Low16(d1, d2 + W8 * d3 - W16 * q);
      if d1 == 0 {
        assert c == W16 * d2 + W24 * (d3 - W8 * q);
        Low24(d2, d3 - W8 * q);
      }
    }
  }

  lemma Low8(d: int, q: int)
    requires -W8 < d < W8
    ensures (d + W8 * q) % W8 != 0 <==> d != 0
  {
  }

  lemma Low16(d: int, q: int)
    requires -W8 < d < W8
    ensures (W8 * d + W16 * q) % W16 / W8 != 0 <==> d != 0
  {
    var e, p := if d < 0 then d + W8 else d, if d < 0 then q - 1 else q;
    Mod16(W8 * d + W16 * q, p, W8 * e);
    assert W8 * e / W8 == e;
  }

  lemma Mod16(x: int, q: int, r: int)
    requires x == W16 * q + r && 0 <= r < W16
    ensures x % W16 == r
  {
  }

  lemma Low24(d: int, q: int)
    requires -W8 < d < W8
    ensures (W16 * d + W24 * q) % W24 / W16 != 0 <==> d != 0
  {
    var e, p := if d < 0 then d + W8 else d, if d < 0 then q - 1 else q;
    Mod24(W16 * d + W24 * q, p, W16 * e);
    assert W16 * e / W16 == e;
  }

  lemma Mod24(x: int, q: int, r: int)
    requires x == W24 * q + r && 0 <= r < W24
    ensures x % W24 == r
  {
  }

  /** Compares word by word while there are four bytes left, then byte by byte. */
  method MemcmpFast(s: Bytes, t: Bytes, n: nat) returns (r: int)
    requires n <= |s| && n <= |t|
    ensures Compared(s, t, n, r)
  {
    var i := 0;
    while n - i >= 4
      invariant 0 <= i <= n && s[..i] == t[..i]
    {
      var k1, k2 := Word(s, i), Word(t, i);
      WordOrder(s[i..i + 4], t[i..i + 4]);
      if k1 != k2 {
        r := CompareWords(k1, k2);
        WordDiffers(s, t, n, i, r);
        return;
      }
      FourMore(s, t, i);
      i := i + 4;
    }
    while i < n
      invariant 0 <= i <= n && s[..i] == t[..i]
    {
      var comp := Diff(s[i], t[i]);
      if comp != 0 { return comp; }
      i := i + 1;
    }
    r := 0;
  }

  lemma FourMore(s: Bytes, t: Bytes, i: nat)
    requires i + 4 <= |s| && i + 4 <= |t| && s[..i] == t[..i] && s[i..i + 4] == t[i..i + 4]
    ensures s[..i + 4] == t[..i + 4]
  {
    assert s[..i + 4] == s[..i] + s[i..i + 4] && t[..i + 4] == t[..i] + t[i..i + 4];
  }

  lemma WordDiffers(s: Bytes, t: Bytes, n: nat, i: nat, r: int)
    requires i + 4 <= n <= |s| && n <= |t| && s[..i] == t[..i] && s[i..i + 4] != t[i..i + 4]
    requires var a, b := s[i..i + 4], t[i..i + 4]; Sign(r) == Sign(Diff(a[FirstOf(a, b)], b[FirstOf(a, b)]))
    ensures Compared(s, t, n, r)
  {
    var a, b := s[i..i + 4], t[i..i + 4];
    var p := i + FirstOf(a, b);
    assert s[p] == a[p - i] && t[p] == b[p - i];
    assert s[..p] == s[..i] + a[..p - i] && t[..p] == t[..i] + b[..p - i];
    assert r != 0;
  }

  // ---------------------------------------------------------------- comparing with an entry

  const INLINE: nat := 5

  /** An entry of an index page: up to five bytes of its key, their number if that is all, and the
      place of the record. */
  datatype Entry = Entry(head: Bytes, len: nat, rec: Addr)

  function EntryOf(key: Bytes, rec: Addr): Entry {
    if |key| > INLINE then Entry(key[..INLINE], 0, rec) else Entry(key, |key|, rec)
  }

  /** The entry of a record with key ik.  That of an empty key has five bytes of no meaning, and
      looks like that of a long one. */
  predicate EntryFor(e: Entry, ik: Bytes) {
    if ik == [] then |e.head| == INLINE && e.len == 0 else e == EntryOf(ik, e.rec)
  }

  /** What a difference of lengths becomes in a 32-bit int. */
  function Int32(x: int): int {
    (x + 0x8000_0000) % 0x1_0000_0000 - 0x8000_0000
  }

  const MAXKEY: nat := 0x8000_0000

  /** A difference behind the first k bytes decides. */
  lemma DiffersBehind(key: Bytes, ik: Bytes, k: nat, n: nat, s: Bytes, t: Bytes, r: int)
    requires k + n <= |key| && k + n <= |ik| && key[..k] == ik[..k]
    requires n <= |s| && n <= |t| && s[..n] == key[k..k + n] && t[..n] == ik[k..k + n]
    requires Compared(s, t, n, r)
    ensures r != 0 ==> Sign(r) == Lex(key, ik)
    ensures r == 0 ==> key[..k + n] == ik[..k + n]
  {
    if r != 0 {
      var p :| 0 <= p < n && s[..p] == t[..p] && s[p] != t[p] && Sign(r) == Sign(Diff(s[p], t[p]));
      var q := k + p;
      assert key[q] == s[..n][p] == s[p] && ik[q] == t[..n][p] == t[p];
      assert key[..q] == key[..k] + s[..n][..p] && ik[..q] == ik[..k] + t[..n][..p];
      assert s[..n][..p] == s[..p] && t[..n][..p] == t[..p];
      LexAt(key, ik, q);
    } else {
      assert key[..k + n] == key[..k] + key[k..k + n] && ik[..k + n] == ik[..k] + ik[k..k + n];
    }
  }

  /** The sought key against the key of an entry, whose record is read when five bytes do not
      decide.  An entry with an empty key is not found even for that key. */
  method Compare(st: RecordStore, e: Entry, key: Bytes, ghost ik: Bytes) returns (r: int)
    requires st.Valid() && e.rec in st.kv && st.kv[e.rec].0 == ik && EntryFor(e, ik)
    requires |key| < MAXKEY && |ik| < MAXKEY
    ensures ik != [] ==> Sign(r) == Lex(key, ik)
    ensures r == 0 <==> key == ik && ik != []
  {
    RankOrder(key, ik);
    ghost var head := if ik == [] then e.head else ik;
    if e.len != 0 {
      var n := if |key| < e.len then |key| else e.len;
      r := CompareAt(key, 0, e.head, n, n, ik);
      if r == 0 { r := ByLength(key, e.len, n, ik); }
      return;
    }
    if |key| <= INLINE {
      r := CompareAt(key, 0, e.head, |key|, |key|, head);
      if r == 0 {
        LexAt(key, head, |key|);
        r := -1;
      }
      return;
    }
    r := CompareAt(key, 0, e.head, INLINE, INLINE, head);
    if r != 0 { return; }
    r := CompareLong(st, e.rec, key, ik);
  }

  /** The sought key against the key of a record, slice by slice. */
  method CompareLong(st: RecordStore, h: Addr, key: Bytes, ghost ik: Bytes) returns (r: int)
    requires st.Valid() && h in st.kv && st.kv[h].0 == ik && |key| < MAXKEY && |ik| < MAXKEY
    ensures Sign(r) == Lex(key, ik)
  {
    ghost var v, ch, val := st.data.blocks, st.recs[h], st.kv[h].1;
    WholeRecord(v, st.recs, st.own, st.kv, h);
    KeyFirst(v, ch, h, ik, val);
    var size, keyLen := st.Lengths(h);
    var cmpLen := if |key| < keyLen then |key| else keyLen;
    var min: nat := st.data.blocks[h].size - 8;
    var here := if cmpLen <= min then cmpLen else min;
    HeadKey(v[h].bytes, v[h].size, here, ik, val);
    r := CompareAt(key, 0, st.data.blocks[h].bytes[8..], here, here, ik);
    if r != 0 { return; }
    r := CompareRest(st, h, key, ik, here, cmpLen);
    if r == 0 { r := ByLength(key, keyLen, cmpLen, ik); }
  }

  /** Equal as far as the shorter one goes: the lengths decide. */
  method ByLength(key: Bytes, len: nat, n: nat, ghost ik: Bytes) returns (r: int)
    requires len == |ik| < MAXKEY && |key| < MAXKEY && n <= |key| && n <= len && key[..n] == ik[..n] && (n == |key| || n == len)
    ensures Sign(r) == Lex(key, ik)
  {
    LexAt(key, ik, n);
    r := Int32(|key| - len);
    assert r == |key| - len;
  }

  /** The first n blocks of the chain end k bytes into the key. */
  ghost predicate Passed(v: Space, ch: seq<Addr>, n: nat, k: nat) {
    n <= |ch| && Lined(v, ch[..n]) && |Content(v, ch[..n])| == 8 + k
  }

  /** All that is compared so far is the same: the first k bytes, in the first n blocks. */
  ghost predicate SoFar(v: Space, ch: seq<Addr>, i: nat, n: nat, a: Addr, key: Bytes, ik: Bytes, k: nat, left: nat, total: nat) {
    && i < |ch| && n == i + 1 && a == ch[i] && InUse(v, a)
    && k + left == total <= |key| && total <= |ik| && key[..k] == ik[..k] && (left > 0 ==> Passed(v, ch, n, k))
  }

  /** The slices behind the first, until one differs or all `total` bytes have been compared. */
  method CompareRest(st: RecordStore, h: Addr, key: Bytes, ghost ik: Bytes, from: nat, total: nat) returns (r: int)
    requires st.Valid() && h in st.kv && st.kv[h].0 == ik && h in st.recs
    requires from <= total <= |key| && total <= |ik| && key[..from] == ik[..from]
    requires from < total ==> Passed(st.data.blocks, st.recs[h], 1, from)
    ensures r != 0 ==> Sign(r) == Lex(key, ik)
    ensures r == 0 ==> key[..total] == ik[..total]
  {
    ghost var v, ch, val := st.data.blocks, st.recs[h], st.kv[h].1;
    WholeRecord(v, st.recs, st.own, st.kv, h);
    var left: nat, k: nat, a := total - from, from, h;
    ghost var i, n := 0, 1;
    r := 0;
    while left != 0
      invariant var so := SoFar(v, ch, i, n, a, key, ik, k, left, total); so && r == 0
      decreases |ch| - i
    {
      ghost var n1 := n + 1;
      NextSlice(v, ch, h, i, n, n1, k, ik, val);
      a := st.data.blocks[a].link;
      r, k, left := CompareSlice(st.data.blocks, ch, h, i, n, n1, key, ik, val, k, left, total, a);
      if r != 0 { return; }
      i, n := n, n1;
    }
  }

  /** One slice. */
  method CompareSlice(v: Space, ghost ch: seq<Addr>, ghost h: Addr, ghost i: nat, ghost n: nat, ghost n1: nat,
                      key: Bytes, ghost ik: Bytes, ghost val: Bytes, k: nat, left: nat, ghost total: nat, a: Addr)
      returns (r: int, k': nat, left': nat)
    requires Whole(v, ch, h, ik, val) && n == i + 1 && n1 == n + 1 && n < |ch| && a == ch[n] && InUse(v, a)
    requires left > 0 && k + left == total <= |key| && total <= |ik| && key[..k] == ik[..k] && Passed(v, ch, n, k)
    requires v[a].size <= |v[a].bytes|
    ensures if r != 0 then Sign(r) == Lex(key, ik) else SoFar(v, ch, n, n1, a, key, ik, k', left', total)
  {
    var min := if left < v[a].size then left else v[a].size;
    k', left' := k + min, left - min;
    SliceBytes(v, ch, h, i, n, n1, k, min, k', ik, val);
    r := CompareAt(key, k, v[a].bytes, min, k', ik);
  }

  /** Behind the first n blocks the chain goes on as long as the key does. */
  lemma NextSlice(v: Space, ch: seq<Addr>, h: Addr, i: nat, n: nat, n1: nat, k: nat, ik: Bytes, val: Bytes)
    requires Whole(v, ch, h, ik, val) && n == i + 1 && n1 == n + 1 && i < |ch| && k < |ik| && Passed(v, ch, n, k)
    ensures n < |ch| && v[ch[i]].link == ch[n] && InUse(v, ch[n]) && v[ch[n]].size <= |v[ch[n]].bytes|
  {
    KeyOn(v, ch, h, i, n, n1, ik[..k], |ik| - k, ik, val);
  }

  /** The next slice holds the next bytes of the key, or the last of them. */
  lemma SliceBytes(v: Space, ch: seq<Addr>, h: Addr, i: nat, n: nat, n1: nat, k: nat, m: nat, k1: nat, ik: Bytes, val: Bytes)
    requires Whole(v, ch, h, ik, val) && n == i + 1 && n1 == n + 1 && n < |ch| && k < |ik| && Passed(v, ch, n, k)
    requires InUse(v, ch[n]) && v[ch[n]].size <= |v[ch[n]].bytes| && k1 == k + m <= |ik| && m <= v[ch[n]].size
    ensures v[ch[n]].bytes[..m] == ik[k..k1]
    ensures m == v[ch[n]].size && k1 < |ik| ==> Passed(v, ch, n1, k1)
  {
    KeyOn(v, ch, h, i, n, n1, ik[..k], |ik| - k, ik, val);
    NextKey(ik, k, v[ch[n]].bytes, v[ch[n]].size, m);
  }

  method CompareAt(key: Bytes, k: nat, b: Bytes, n: nat, ghost end: nat, ghost ik: Bytes) returns (r: int)
    requires end == k + n <= |key| && end <= |ik| && key[..k] == ik[..k] && n <= |b| && b[..n] == ik[k..end]
    ensures r != 0 ==> Sign(r) == Lex(key, ik)
    ensures r == 0 ==> key[..end] == ik[..end]
  {
    r := MemcmpFast(key[k..], b, n);
    assert key[k..][..n] == key[k..end];
    DiffersBehind(key, ik, k, n, key[k..], b, r);
  }

  lemma HeadKey(b: Bytes, size: nat, n: nat, ik: Bytes, val: Bytes)
    requires 8 <= size <= |b| && n <= |ik| && 8 + n <= size
    requires |ik| + 8 <= size ==> b[8..8 + |ik|] == ik
    requires |ik| + 8 > size ==> b[8..size] <= ik
    ensures b[8..][..n] == ik[..n]
  {
    if |ik| + 8 <= size { assert b[8..][..n] == b[8..8 + |ik|][..n]; } else { assert b[8..][..n] == b[8..size][..n]; }
  }

  lemma NextKey(ik: Bytes, k: nat, b: Bytes, size: nat, min: nat)
    requires size <= |b| && k < |ik| && min <= size && k + min <= |ik|
    requires var m := if |ik| - k < size then |ik| - k else size; ik[..k] + b[..m] <= ik
    ensures b[..min] == ik[k..k + min]
  {
    var m := if |ik| - k < size then |ik| - k else size;
    assert (ik[..k] + b[..m])[k..k + min] == b[..min];
  }
}

/** Variants and their bencoding: numbers, strings, lists and dictionaries, and an `e` for no value. */
module Bencode {
  import opened Common

  /** A dictionary lists its pairs in the order of its keys' texts. */
  datatype Node = Undef | Int(value: int) | Str(text: string) | List(items: seq<Node>) | Dict(pairs: seq<Pair>)
  datatype Pair = Pair(key: Node, val: Node)

  const MAXINT := 0x7fff_ffff_ffff_ffff
  const MAXSIZE := 0x8000_0000

  // ---------------------------------------------------------------- decimal numbers

  predicate IsDigit(c: char) {
    '0' <= c <= '9'
  }

  predicate AllDigits(s: string) {
    forall i :: 0 <= i < |s| ==> IsDigit(s[i])
  }

  function Digit(n: nat): (c: char)
    requires n < 10
    ensures IsDigit(c) && c as int - '0' as int == n
  {
    '0' + n as char
  }

  function Decimal(n: nat): (s: string)
    ensures s != [] && AllDigits(s)
    decreases n
  {
    if n < 10 then [Digit(n)] else Decimal(n / 10) + [Digit(n % 10)]
  }

  function Number(s: string): nat
    requires AllDigits(s)
    decreases |s|
  {
    if s == [] then 0 else 10 * Number(s[..|s| - 1]) + (s[|s| - 1] as int - '0' as int)
  }

  lemma {:induction false} NumberOfDecimal(n: nat)
    ensures Number(Decimal(n)) == n
    decreases n
  {
    var s := Decimal(n);
    if n >= 10 {
      NumberOfDecimal(n / 10);
      assert s[..|s| - 1] == Decimal(n / 10);
    } else {
      assert s[..|s| - 1] == [];
    }
  }

  // ---------------------------------------------------------------- encoding

  function Encode(v: Node): (s: string)
    ensures s != []
    decreases v
  {
    match v
    case Undef => "e"
    case Int(n) => "i" + (if n < 0 then "-" + Decimal(-n) else Decimal(n)) + "e"
    case Str(t) => Decimal(|t|) + ":" + t
    case List(items) => "l" + EncodeAll(items) + "e"
    case Dict(pairs) => "d" + EncodePairs(pairs) + "e"
  }

  function EncodeAll(vs: seq<Node>): string
    decreases vs
  {
    if vs == [] then "" else Encode(vs[0]) + EncodeAll(vs[1..])
  }

  function EncodePairs(ps: seq<Pair>): string
    decreases ps
  {
    if ps == [] then "" else EncodePair(ps[0]) + EncodePairs(ps[1..])
  }

  function EncodePair(p: Pair): string
    decreases p
  {
    Encode(p.key) + Encode(p.val)
  }

  /** What keys are compared by. */
  function Text(v: Node): string {
    match v
    case Undef => ""
    case Int(n) => if n < 0 then "-" + Decimal(-n) else Decimal(n)
    case Str(t) => t
    case List(_) => Encode(v)
    case Dict(_) => Encode(v)
  }

  predicate Less(a: string, b: string)
    decreases |a|
  {
    b != [] && (a == [] || a[0] < b[0] || (a[0] == b[0] && Less(a[1..], b[1..])))
  }

  lemma {:induction false} NotBoth(a: string, b: string)
    requires Less(a, b)
    ensures !Less(b, a) && a != b
    decreases |a|
  {
    if a != [] && a[0] == b[0] { NotBoth(a[1..], b[1..]); }
  }

  ghost predicate Sorted(ps: seq<Pair>) {
    forall i, j :: 0 <= i < j < |ps| ==> Less(Text(ps[i].key), Text(ps[j].key))
  }

  /** A pair enters a dictionary at its place, unless there is one with a key of the same text. */
  function Insert(ps: seq<Pair>, k: Node, v: Node): seq<Pair>
    decreases |ps|
  {
    if ps == [] || Less(Text(k), Text(ps[0].key)) then [Pair(k, v)] + ps
    else if Less(Text(ps[0].key), Text(k)) then [ps[0]] + Insert(ps[1..], k, v)
    else ps
  }

  lemma {:induction false} InsertLast(ps: seq<Pair>, k: Node, v: Node)
    requires forall i :: 0 <= i < |ps| ==> Less(Text(ps[i].key), Text(k))
    ensures Insert(ps, k, v) == ps + [Pair(k, v)]
    decreases |ps|
  {
    if ps != [] {
      NotBoth(Text(ps[0].key), Text(k));
      forall i | 0 <= i < |ps[1..]| ensures Less(Text(ps[1..][i].key), Text(k)) { assert ps[1..][i] == ps[i + 1]; }
      InsertLast(ps[1..], k, v);
      assert ps == [ps[0]] + ps[1..];
    }
  }

  lemma {:induction false} LessTotal(a: string, b: string)
    ensures Less(a, b) || Less(b, a) || a == b
    decreases |a|
  {
    if a != [] && b != [] && a[0] == b[0] {
      LessTotal(a[1..], b[1..]);
      assert a == [a[0]] + a[1..] && b == [b[0]] + b[1..];
    }
  }

  lemma {:induction false} LessThrough(a: string, b: string, c: string)
    requires Less(a, b) && Less(b, c)
    ensures Less(a, c)
    decreases |a|
  {
    if a != [] && a[0] == b[0] == c[0] { LessThrough(a[1..], b[1..], c[1..]); }
  }

  ghost predicate HasKey(ps: seq<Pair>, t: string) {
    exists x {:trigger x in ps} :: x in ps && Text(x.key) == t
  }

  lemma InsertInFront(ps: seq<Pair>, k: Node, v: Node)
    requires Sorted(ps) && ps != [] && Less(Text(k), Text(ps[0].key))
    ensures Sorted([Pair(k, v)] + ps) && !HasKey(ps, Text(k))
  {
    forall i | 0 <= i < |ps| ensures Less(Text(k), Text(ps[i].key)) && Text(ps[i].key) != Text(k) {
      if i > 0 { LessThrough(Text(k), Text(ps[0].key), Text(ps[i].key)); }
      NotBoth(Text(k), Text(ps[i].key));
    }
  }

  lemma SortedTail(ps: seq<Pair>)
    requires Sorted(ps) && ps != []
    ensures Sorted(ps[1..]) && ps == [ps[0]] + ps[1..] && forall x {:trigger x in ps[1..]} :: x in ps[1..] ==> Less(Text(ps[0].key), Text(x.key))
  {
    var t := ps[1..];
    forall i, j | 0 <= i < j < |t| ensures Less(Text(t[i].key), Text(t[j].key)) { assert t[i] == ps[i + 1] && t[j] == ps[j + 1]; }
  }

  lemma InsertBehind(ps: seq<Pair>, k: Node, t: seq<Pair>, r: seq<Pair>)
    requires Sorted(r) && ps != [] && ps == [ps[0]] + t && Text(ps[0].key) != Text(k)
    requires forall x {:trigger x in r} :: x in r ==> Less(Text(ps[0].key), Text(x.key))
    ensures Sorted([ps[0]] + r) && (HasKey(ps, Text(k)) <==> HasKey(t, Text(k)))
  {
    if HasKey(ps, Text(k)) { var x :| x in ps && Text(x.key) == Text(k); assert x in t; }
    if HasKey(t, Text(k)) { var x :| x in t && Text(x.key) == Text(k); assert x in ps; }
    forall i | 0 <= i < |r| ensures Less(Text(ps[0].key), Text(r[i].key)) { assert r[i] in r; }
  }

  /** A pair whose key has a new text enters, at its place; the others stay in order. */
  lemma {:induction false} InsertKeeps(ps: seq<Pair>, k: Node, v: Node)
    requires Sorted(ps)
    ensures Sorted(Insert(ps, k, v))
    ensures if HasKey(ps, Text(k)) then Insert(ps, k, v) == ps else multiset(Insert(ps, k, v)) == multiset(ps) + multiset{Pair(k, v)}
    decreases |ps|
  {
    if ps == [] {
    } else if Less(Text(k), Text(ps[0].key)) {
      InsertInFront(ps, k, v);
    } else if Less(Text(ps[0].key), Text(k)) {
      var t, r := ps[1..], Insert(ps[1..], k, v);
      SortedTail(ps);
      InsertKeeps(t, k, v);
      NotBoth(Text(ps[0].key), Text(k));
      forall x | x in r ensures Less(Text(ps[0].key), Text(x.key)) { assert x in multiset(r); }
      InsertBehind(ps, k, t, r);
    } else {
      LessTotal(Text(k), Text(ps[0].key));
      assert ps[0] in ps;
    }
  }

  // ---------------------------------------------------------------- decoding

  function DigitsEnd(s: string, p: nat): (q: nat)
    requires p <= |s|
    ensures p <= q <= |s| && AllDigits(s[p..q]) && (q < |s| ==> !IsDigit(s[q]))
    decreases |s| - p
  {
    if p < |s| && IsDigit(s[p]) then
      var q := DigitsEnd(s, p + 1);
      assert s[p..q] == [s[p]] + s[p + 1..q];
      q
    else p
  }

  /** The number at p: digits up to an `e` or the end. */
  function IntAt(s: string, p: nat): (r: Option<(Node, nat)>)
    requires p <= |s|
    ensures r.Some? ==> r.value.1 > p
  {
    var q := DigitsEnd(s, p);
    if q == p || (q < |s| && s[q] != 'e') then None
    else
      var n := Number(s[p..q]);
      Some((Int(if n > MAXINT then MAXINT else n), if q < |s| then q + 1 else q))
  }

  function StrAt(s: string, p: nat): (r: Option<(Node, nat)>)
    requires p < |s|
    ensures r.Some? ==> r.value.1 > p
  {
    var q := DigitsEnd(s, p);
    if q == |s| || s[q] != ':' then None
    else
      var n := Number(s[p..q]);
      if n >= MAXSIZE || |s| - (q + 1) < n then None else Some((Str(s[q + 1..q + 1 + n]), q + 1 + n))
  }

  /** The value at p, and the place behind it. */
  function DecodeAt(s: string, p: nat): (r: Option<(Node, nat)>)
    requires p < |s|
    ensures r.Some? ==> r.value.1 > p
    decreases |s| - p, 0
  {
    var c := s[p];
    if c == 'i' then IntAt(s, p + 1)
    else if IsDigit(c) then StrAt(s, p)
    else if c == 'l' then
      match ListAt(s, p + 1) {
        case None => None
        case Some((vs, q)) => Some((List(vs), q))
      }
    else if c == 'd' then
      match DictAt(s, p + 1, []) {
        case None => None
        case Some((ps, q)) => Some((Dict(ps), q))
      }
    else if c == 'e' then Some((Undef, p + 1))
    else None
  }

  function Left(s: string, p: nat): nat {
    if p < |s| then |s| - p else 0
  }

  function ListAt(s: string, p: nat): (r: Option<(seq<Node>, nat)>)
    ensures r.Some? ==> r.value.1 > p
    decreases Left(s, p), 1
  {
    if p >= |s| || s[p] == 'e' then Some(([], p + 1))
    else
      match DecodeAt(s, p) {
        case None => None
        case Some((v, q)) =>
          match ListAt(s, q) {
            case None => None
            case Some((vs, e)) => Some(([v] + vs, e))
          }
      }
  }

  function DictAt(s: string, p: nat, ps: seq<Pair>): (r: Option<(seq<Pair>, nat)>)
    ensures r.Some? ==> r.value.1 > p
    decreases Left(s, p), 1
  {
    if p >= |s| || s[p] == 'e' then Some((ps, p + 1))
    else
      match DecodeAt(s, p) {
        case None => None
        case Some((k, q)) =>
          if q >= |s| then None
          else
            match DecodeAt(s, q) {
              case None => None
              case Some((v, e)) => DictAt(s, e, Insert(ps, k, v))
            }
      }
  }

  // ---------------------------------------------------------------- round trips

  /** Values as they can be held: 64-bit numbers, strings whose length fits the encoder's buffer,
      keys in order. */
  ghost predicate Held(v: Node)
    decreases v
  {
    match v
    case Undef => true
    case Int(n) => -MAXINT - 1 <= n <= MAXINT
    case Str(t) => |t| < 1_000_000
    case List(items) => ItemsHeld(items)
    case Dict(pairs) => Sorted(pairs) && PairsHeld(pairs)
  }

  ghost predicate ItemsHeld(vs: seq<Node>)
    decreases vs
  {
    vs == [] || (Held(vs[0]) && ItemsHeld(vs[1..]))
  }

  ghost predicate PairsHeld(ps: seq<Pair>)
    decreases ps
  {
    ps == [] || (PairHeld(ps[0]) && PairsHeld(ps[1..]))
  }

  ghost predicate PairHeld(p: Pair)
    decreases p
  {
    Held(p.key) && Held(p.val)
  }

  /** No negative number, and no missing value as an element of a list or as a key. */
  ghost predicate Sendable(v: Node)
    decreases v
  {
    match v
    case Undef => true
    case Int(n) => n >= 0
    case Str(_) => true
    case List(items) => ItemsSendable(items)
    case Dict(pairs) => PairsSendable(pairs)
  }

  ghost predicate ItemsSendable(vs: seq<Node>)
    decreases vs
  {
    vs == [] || (vs[0] != Undef && Sendable(vs[0]) && ItemsSendable(vs[1..]))
  }

  ghost predicate PairsSendable(ps: seq<Pair>)
    decreases ps
  {
    ps == [] || (PairSendable(ps[0]) && PairsSendable(ps[1..]))
  }

  ghost predicate PairSendable(p: Pair)
    decreases p
  {
    p.key != Undef && Sendable(p.key) && Sendable(p.val)
  }

  ghost predicate Occurs(s: string, p: nat, t: string) {
    p + |t| <= |s| && s[p..p + |t|] == t
  }

  lemma OccursParts(s: string, p: nat, a: string, b: string)
    requires Occurs(s, p, a + b)
    ensures Occurs(s, p, a) && Occurs(s, p + |a|, b)
  {
    var t := a + b;
    assert s[p..p + |a|] == s[p..p + |t|][..|a|];
    assert s[p + |a|..p + |a| + |b|] == s[p..p + |t|][|a|..];
  }

  lemma {:induction false} EndOfDigits(s: string, p: nat, d: string)
    requires Occurs(s, p, d) && AllDigits(d) && p + |d| < |s| && !IsDigit(s[p + |d|])
    ensures DigitsEnd(s, p) == p + |d|
    decreases |d|
  {
    if d != [] {
      assert s[p] == s[p..p + |d|][0];
      assert s[p + 1..p + |d|] == s[p..p + |d|][1..];
      EndOfDigits(s, p + 1, d[1..]);
    }
  }

  /** The digits d are the number n. */
  ghost predicate Shows(d: string, n: nat) {
    d != [] && AllDigits(d) && Number(d) == n
  }

  lemma IntBack(s: string, p: nat, n: nat, d: string, q: nat)
    requires n <= MAXINT && Shows(d, n) && Occurs(s, p, d + "e") && q == p + |d|
    ensures IntAt(s, p) == Some((Int(n), q + 1))
  {
    OccursParts(s, p, d, "e");
    assert s[q] == s[q..q + 1][0];
    EndOfDigits(s, p, d);
    assert s[p..q] == d;
  }

  lemma StrBack(s: string, p: nat, t: string, d: string, q: nat, q1: nat, end: nat)
    requires |t| < MAXSIZE && Shows(d, |t|) && Occurs(s, p, d + ":" + t) && q == p + |d| && q1 == q + 1 && end == q1 + |t|
    ensures p < |s| && IsDigit(s[p]) && StrAt(s, p) == Some((Str(t), end))
  {
    OccursParts(s, p, d + ":", t);
    OccursParts(s, p, d, ":");
    assert s[p] == s[p..q][0] == d[0];
    assert s[q] == s[q..q1][0];
    EndOfDigits(s, p, d);
    assert s[p..q] == d && s[q1..end] == t;
    StrIs(s, p, q, q1, |t|, end);
  }

  lemma StrIs(s: string, p: nat, q: nat, q1: nat, n: nat, end: nat)
    requires p < |s| && q == DigitsEnd(s, p) && q < |s| && s[q] == ':' && q1 == q + 1 && n == Number(s[p..q]) && n < MAXSIZE && end == q1 + n <= |s|
    ensures StrAt(s, p) == Some((Str(s[q1..end]), end))
  {
  }

  /** Only a missing value starts with `e`. */
  lemma FirstChar(v: Node)
    requires Sendable(v) && v != Undef
    ensures Encode(v)[0] != 'e'
  {
    if v.Str? { assert Encode(v)[0] == Decimal(|v.text|)[0]; }
  }

  lemma Framed(s: string, p: nat, a: string, b: string, e: string)
    requires |a| == 1 && e == a + b + "e" && Occurs(s, p, e)
    ensures Occurs(s, p + 1, b + "e") && |e| == |b| + 2 && s[p] == a[0]
  {
    assert e == a + (b + "e");
    OccursParts(s, p, a, b + "e");
    assert s[p] == s[p..p + 1][0];
  }

  lemma IntCase(s: string, p: nat, n: nat)
    requires n <= MAXINT && Occurs(s, p, Encode(Int(n)))
    ensures p < |s| && DecodeAt(s, p) == Some((Int(n), p + |Encode(Int(n))|))
  {
    var d, p1 := Decimal(n), p + 1;
    Framed(s, p, "i", d, Encode(Int(n)));
    NumberOfDecimal(n);
    IntBack(s, p1, n, d, p1 + |d|);
  }

  lemma StrCase(s: string, p: nat, t: string)
    requires |t| < 1_000_000 && Occurs(s, p, Encode(Str(t)))
    ensures p < |s| && DecodeAt(s, p) == Some((Str(t), p + |Encode(Str(t))|))
  {
    var d := Decimal(|t|);
    var q := p + |d|;
    var q1 := q + 1;
    NumberOfDecimal(|t|);
    StrBack(s, p, t, d, q, q1, q1 + |t|);
  }

  lemma UndefCase(s: string, p: nat)
    requires Occurs(s, p, Encode(Undef))
    ensures p < |s| && DecodeAt(s, p) == Some((Undef, p + |Encode(Undef)|))
  {
    var q := p + 1;
    assert s[p] == s[p..q][0];
  }

  /** Where the encoding of a value stands, decoding finds the value and stops right behind it. */
  lemma {:induction false} Back(s: string, p: nat, v: Node, end: nat)
    requires Held(v) && Sendable(v) && Occurs(s, p, Encode(v)) && end == p + |Encode(v)|
    ensures p < |s| && DecodeAt(s, p) == Some((v, end))
    decreases v, 1
  {
    match v
    case Undef => UndefCase(s, p);
    case Int(n) => IntCase(s, p, n);
    case Str(t) => StrCase(s, p, t);
    case List(items) => ListCase(s, p, v, end);
    case Dict(pairs) => DictCase(s, p, v, end);
  }

  lemma ListIs(s: string, p: nat, p1: nat, vs: seq<Node>, end: nat)
    requires p < |s| && s[p] == 'l' && p1 == p + 1 && ListAt(s, p1) == Some((vs, end))
    ensures DecodeAt(s, p) == Some((List(vs), end))
  {
  }

  lemma DictIs(s: string, p: nat, p1: nat, ps: seq<Pair>, end: nat)
    requires p < |s| && s[p] == 'd' && p1 == p + 1 && DictAt(s, p1, []) == Some((ps, end))
    ensures DecodeAt(s, p) == Some((Dict(ps), end))
  {
  }

  lemma {:induction false} ListCase(s: string, p: nat, v: Node, end: nat)
    requires v.List? && Held(v) && Sendable(v) && Occurs(s, p, Encode(v)) && end == p + |Encode(v)|
    ensures p < |s| && DecodeAt(s, p) == Some((v, end))
    decreases v, 0
  {
    var vs, b, p1 := v.items, EncodeAll(v.items), p + 1;
    Framed(s, p, "l", b, Encode(v));
    OccursClosed(s, p1, b);
    ListBack(s, p1, vs, b, end);
    ListIs(s, p, p1, vs, end);
  }

  lemma {:induction false} DictCase(s: string, p: nat, v: Node, end: nat)
    requires v.Dict? && Held(v) && Sendable(v) && Occurs(s, p, Encode(v)) && end == p + |Encode(v)|
    ensures p < |s| && DecodeAt(s, p) == Some((v, end))
    decreases v, 0
  {
    var ps, b, p1 := v.pairs, EncodePairs(v.pairs), p + 1;
    Framed(s, p, "d", b, Encode(v));
    OccursClosed(s, p1, b);
    assert ps[0..] == ps;
    DictBack(s, p1, 0, ps, ps, b, end);
    EnteredInOrder(ps, |ps|);
    assert ps[..|ps|] == ps;
    DictIs(s, p, p1, ps, end);
  }

  lemma OccursClosed(s: string, p: nat, b: string)
    requires Occurs(s, p, b + "e")
    ensures Occurs(s, p, b) && Closed(s, p + |b|)
  {
    OccursParts(s, p, b, "e");
    assert s[p + |b|] == s[p + |b|..p + |b| + 1][0];
  }

  lemma {:induction false} ListBack(s: string, p: nat, vs: seq<Node>, b: string, end: nat)
    requires ItemsHeld(vs) && ItemsSendable(vs) && b == EncodeAll(vs) && Occurs(s, p, b) && Closed(s, p + |b|) && end == p + |b| + 1
    ensures ListAt(s, p) == Some((vs, end))
    decreases vs, 2
  {
    if vs != [] {
      var e, b1 := Encode(vs[0]), EncodeAll(vs[1..]);
      var p1 := p + |e|;
      OccursParts(s, p, e, b1);
      FirstChar(vs[0]);
      Back(s, p, vs[0], p1);
      assert s[p] == s[p..p1][0];
      ListBack(s, p1, vs[1..], b1, end);
      assert vs == [vs[0]] + vs[1..];
    }
  }

  /** The key and the value of a pair. */
  lemma {:induction false} PairBack(s: string, p: nat, x: Pair, p1: nat, p2: nat)
    requires PairHeld(x) && PairSendable(x) && Occurs(s, p, EncodePair(x)) && p1 == p + |Encode(x.key)| && p2 == p + |EncodePair(x)|
    ensures p < |s| && s[p] != 'e' && DecodeAt(s, p) == Some((x.key, p1))
    ensures p1 < |s| && DecodeAt(s, p1) == Some((x.val, p2))
    decreases x, 2
  {
    OccursParts(s, p, Encode(x.key), Encode(x.val));
    FirstChar(x.key);
    assert s[p] == s[p..p1][0];
    Back(s, p, x.key, p1);
    Back(s, p1, x.val, p2);
  }

  /** The first n pairs put into a dictionary one after the other. */
  function Entered(ps: seq<Pair>, n: nat): seq<Pair>
    requires n <= |ps|
  {
    if n == 0 then [] else Insert(Entered(ps, n - 1), ps[n - 1].key, ps[n - 1].val)
  }

  /** Pairs in order stay as they are. */
  lemma {:induction false} EnteredInOrder(ps: seq<Pair>, n: nat)
    requires Sorted(ps) && n <= |ps|
    ensures Entered(ps, n) == ps[..n]
    decreases n
  {
    if n > 0 {
      EnteredInOrder(ps, n - 1);
      var m := n - 1;
      forall i | 0 <= i < m ensures Less(Text(ps[..m][i].key), Text(ps[m].key)) { }
      InsertLast(ps[..m], ps[m].key, ps[m].val);
      assert ps[..n] == ps[..m] + [Pair(ps[m].key, ps[m].val)];
    }
  }

  /** One of the first n pairs has a key of text t. */
  ghost predicate Seen(ps: seq<Pair>, n: nat, t: string) {
    exists i {:trigger ps[i]} :: 0 <= i < n && i < |ps| && Text(ps[i].key) == t
  }

  /** x is the first of the first n pairs with its key's text. */
  ghost predicate IsFirst(ps: seq<Pair>, n: nat, x: Pair) {
    exists i: nat {:trigger Seen(ps, i, Text(x.key))} :: i < n && i < |ps| && ps[i] == x && !Seen(ps, i, Text(x.key))
  }

  /** No two of the first n pairs have keys of the same text. */
  ghost predicate KeysDiffer(ps: seq<Pair>, n: nat) {
    forall i: nat {:trigger Seen(ps, i, Text(ps[i].key))} :: i < n && i < |ps| ==> !Seen(ps, i, Text(ps[i].key))
  }

  lemma FirstStep(ps: seq<Pair>, m: nat, n: nat, y: Pair)
    requires n == m + 1 <= |ps|
    ensures IsFirst(ps, n, y) <==> IsFirst(ps, m, y) || (y == ps[m] && !Seen(ps, m, Text(y.key)))
  {
  }

  /** r has the first pairs of each text among the first n. */
  ghost predicate Firsts(ps: seq<Pair>, n: nat, r: seq<Pair>) {
    Sorted(r) && forall x {:trigger x in r} {:trigger IsFirst(ps, n, x)} :: x in r <==> IsFirst(ps, n, x)
  }

  lemma FirstsStep(ps: seq<Pair>, m: nat, n: nat, r: seq<Pair>, r': seq<Pair>)
    requires n == m + 1 <= |ps| && Firsts(ps, m, r) && r' == Insert(r, ps[m].key, ps[m].val)
    ensures Firsts(ps, n, r')
  {
    var x := ps[m];
    InsertKeeps(r, x.key, x.val);
    FirstHasKey(ps, m, r, Text(x.key));
    assert Pair(x.key, x.val) == x;
    forall y ensures y in r' <==> IsFirst(ps, n, y) {
      FirstStep(ps, m, n, y);
      assert (y in r' <==> y in multiset(r')) && (y in r <==> y in multiset(r));
    }
  }

  lemma NewEnters(ps: seq<Pair>, m: nat, r: seq<Pair>, r': seq<Pair>)
    requires m < |ps| && Firsts(ps, m, r) && r' == Insert(r, ps[m].key, ps[m].val) && !Seen(ps, m, Text(ps[m].key))
    ensures multiset(r') == multiset(r) + multiset{ps[m]}
  {
    var x := ps[m];
    InsertKeeps(r, x.key, x.val);
    FirstHasKey(ps, m, r, Text(x.key));
    assert Pair(x.key, x.val) == x;
  }

  lemma OneMore(ps: seq<Pair>, m: nat, n: nat)
    requires n == m + 1 <= |ps|
    ensures multiset(ps[..n]) == multiset(ps[..m]) + multiset{ps[m]}
  {
    assert ps[..n] == ps[..m] + [ps[m]];
  }

  lemma KeysDifferLess(ps: seq<Pair>, m: nat, n: nat)
    requires n == m + 1 <= |ps| && KeysDiffer(ps, n)
    ensures KeysDiffer(ps, m) && !Seen(ps, m, Text(ps[m].key))
  {
  }

  lemma NoFirsts(ps: seq<Pair>)
    ensures Firsts(ps, 0, [])
  {
  }

  /** Pairs in any order become a dictionary in order, of each key's text the first. */
  lemma {:induction false} EnteredFirsts(ps: seq<Pair>, n: nat)
    requires n <= |ps|
    ensures Firsts(ps, n, Entered(ps, n))
    decreases n
  {
    if n == 0 {
      NoFirsts(ps);
    } else {
      var m: nat := n - 1;
      EnteredFirsts(ps, m);
      FirstsStep(ps, m, n, Entered(ps, m), Entered(ps, n));
    }
  }

  /** When all texts differ, no pair is lost. */
  lemma {:induction false} EnteredAll(ps: seq<Pair>, n: nat)
    requires n <= |ps| && KeysDiffer(ps, n)
    ensures multiset(Entered(ps, n)) == multiset(ps[..n])
    decreases n
  {
    if n > 0 {
      var m: nat := n - 1;
      KeysDifferLess(ps, m, n);
      EnteredAll(ps, m);
      EnteredFirsts(ps, m);
      NewEnters(ps, m, Entered(ps, m), Entered(ps, n));
      OneMore(ps, m, n);
    }
  }

  /** A key's text is in the dictionary when one of the pairs so far had it. */
  lemma FirstHasKey(ps: seq<Pair>, n: nat, r: seq<Pair>, t: string)
    requires n <= |ps| && Firsts(ps, n, r)
    ensures HasKey(r, t) <==> Seen(ps, n, t)
  {
    if HasKey(r, t) {
      var x :| x in r && Text(x.key) == t;
      assert IsFirst(ps, n, x);
    }
    if i :| 0 <= i < n && Text(ps[i].key) == t {
      var k := FirstWith(ps, i, t);
      assert IsFirst(ps, n, ps[k]) && ps[k] in r;
    }
  }

  lemma {:induction false} FirstWith(ps: seq<Pair>, i: nat, t: string) returns (k: nat)
    requires i < |ps| && Text(ps[i].key) == t
    ensures k <= i && Text(ps[k].key) == t && !Seen(ps, k, t)
    decreases i
  {
    if j :| 0 <= j < i && Text(ps[j].key) == t { k := FirstWith(ps, j, t); } else { k := i; }
  }

  /** The pair decoded is put into the dictionary. */
  lemma PairEnters(s: string, p: nat, acc: seq<Pair>, x: Pair, p1: nat, p2: nat, acc1: seq<Pair>)
    requires acc1 == Insert(acc, x.key, x.val)
    requires p < |s| && s[p] != 'e' && DecodeAt(s, p) == Some((x.key, p1)) && p1 < |s| && DecodeAt(s, p1) == Some((x.val, p2))
    ensures DictAt(s, p, acc) == DictAt(s, p2, acc1)
  {
  }

  /** The closing letter of a list or dictionary, or the end of the text. */
  ghost predicate Closed(s: string, p: nat) {
    p == |s| || (p < |s| && s[p] == 'e')
  }

  lemma DictEnds(s: string, p: nat, acc: seq<Pair>)
    requires Closed(s, p)
    ensures DictAt(s, p, acc) == Some((acc, p + 1))
  {
  }

  lemma EnteredOne(all: seq<Pair>, n: nat, n1: nat, ps: seq<Pair>)
    requires n1 == n + 1 <= |all| && ps == all[n..]
    ensures Entered(all, n1) == Insert(Entered(all, n), ps[0].key, ps[0].val) && ps[1..] == all[n1..]
  {
  }

  lemma {:induction false} DictBack(s: string, p: nat, n: nat, ps: seq<Pair>, all: seq<Pair>, b: string, end: nat)
    requires n <= |all| && ps == all[n..] && PairsHeld(ps) && PairsSendable(ps) && b == EncodePairs(ps) && Occurs(s, p, b) && Closed(s, p + |b|) && end == p + |b| + 1
    ensures DictAt(s, p, Entered(all, n)) == Some((Entered(all, |all|), end))
    decreases ps, 2
  {
    if ps == [] {
      DictEnds(s, p, Entered(all, n));
    } else {
      var x, e, b1, n1 := ps[0], EncodePair(ps[0]), EncodePairs(ps[1..]), n + 1;
      var p1, p2 := p + |Encode(x.key)|, p + |e|;
      OccursParts(s, p, e, b1);
      PairBack(s, p, x, p1, p2);
      EnteredOne(all, n, n1, ps);
      PairEnters(s, p, Entered(all, n), x, p1, p2, Entered(all, n1));
      DictBack(s, p2, n1, ps[1..], all, b1, end);
    }
  }

  lemma DictFrom(s: string, b: string, ps: seq<Pair>, qs: seq<Pair>)
    requires PairsHeld(ps) && PairsSendable(ps) && b == EncodePairs(ps) && qs == Entered(ps, |ps|)
    requires s != [] && s[0] == 'd' && Occurs(s, 1, b) && Closed(s, 1 + |b|)
    ensures DecodeAt(s, 0) == Some((Dict(qs), |b| + 2))
  {
    assert ps[0..] == ps;
    DictBack(s, 1, 0, ps, ps, b, |b| + 2);
    DictIs(s, 0, 1, qs, |b| + 2);
  }

  /** A dictionary whose pairs were sent in any order is taken with its pairs in order: of each key's
      text the first pair, and when all texts differ every pair. */
  lemma AnyOrder(ps: seq<Pair>, post: string) returns (qs: seq<Pair>)
    requires PairsHeld(ps) && PairsSendable(ps)
    ensures DecodeAt("d" + EncodePairs(ps) + "e" + post, 0) == Some((Dict(qs), |EncodePairs(ps)| + 2))
    ensures Firsts(ps, |ps|, qs) && (KeysDiffer(ps, |ps|) ==> multiset(qs) == multiset(ps))
  {
    var b := EncodePairs(ps);
    var s := "d" + b + "e" + post;
    qs := Entered(ps, |ps|);
    assert s[1..1 + |b|] == b && s[1 + |b|] == 'e' && s[0] == 'd' && ps[..|ps|] == ps;
    DictFrom(s, b, ps, qs);
    EnteredFirsts(ps, |ps|);
    if KeysDiffer(ps, |ps|) { EnteredAll(ps, |ps|); }
  }

  /** At the end of a text the closing letter of a number, a list or a dictionary may be missing. */
  lemma Unclosed(v: Node)
    requires Held(v) && Sendable(v) && (v.Int? || v.List? || v.Dict?)
    ensures var s := Encode(v)[..|Encode(v)| - 1]; s != [] && DecodeAt(s, 0).Some? && DecodeAt(s, 0).value.0 == v
  {
    var s := Encode(v)[..|Encode(v)| - 1];
    match v
    case Int(n) => assert s == "i" + Decimal(n); UnclosedInt(s, n);
    case List(vs) => assert s == "l" + EncodeAll(vs); UnclosedList(s, vs);
    case Dict(ps) => assert s == "d" + EncodePairs(ps); UnclosedDict(s, ps);
  }

  lemma UnclosedList(s: string, vs: seq<Node>)
    requires ItemsHeld(vs) && ItemsSendable(vs) && s == "l" + EncodeAll(vs)
    ensures DecodeAt(s, 0) == Some((List(vs), |s| + 1))
  {
    var b := EncodeAll(vs);
    assert s[1..1 + |b|] == b;
    ListBack(s, 1, vs, b, |b| + 2);
    ListIs(s, 0, 1, vs, |b| + 2);
  }

  lemma UnclosedDict(s: string, ps: seq<Pair>)
    requires Sorted(ps) && PairsHeld(ps) && PairsSendable(ps) && s == "d" + EncodePairs(ps)
    ensures DecodeAt(s, 0) == Some((Dict(ps), |s| + 1))
  {
    var b := EncodePairs(ps);
    assert s[1..1 + |b|] == b && ps[..|ps|] == ps;
    EnteredInOrder(ps, |ps|);
    DictFrom(s, b, ps, ps);
  }

  lemma UnclosedInt(s: string, n: nat)
    requires s == "i" + Decimal(n) && n <= MAXINT
    ensures DecodeAt(s, 0) == Some((Int(n), |s|))
  {
    assert s[1..|s|] == Decimal(n);
    DigitsTo(s, 1, |s|);
    NumberOfDecimal(n);
  }

  /** A number of more than 63 bits is taken for the greatest one. */
  lemma TooLarge(n: nat, post: string)
    requires n > MAXINT
    ensures DecodeAt("i" + Decimal(n) + "e" + post, 0) == Some((Int(MAXINT), |Decimal(n)| + 2))
  {
    var s, q := "i" + Decimal(n) + "e" + post, 1 + |Decimal(n)|;
    assert s[1..q] == Decimal(n) && s[q] == 'e' && s[0] == 'i';
    DigitsTo(s, 1, q);
    NumberOfDecimal(n);
  }

  /** A string is read just when all of it is there. */
  lemma StrExactly(n: nat, t: string)
    requires n < MAXSIZE
    ensures var s := Decimal(n) + ":" + t;
            && s != []
            && DecodeAt(s, 0) == if n <= |t| then Some((Str(t[..n]), |Decimal(n)| + 1 + n)) else None
  {
    var d := Decimal(n);
    var s, q := d + ":" + t, |d|;
    assert s[0..q] == d && s[q] == ':' && s[0] == d[0];
    NumberOfDecimal(n);
    DigitsTo(s, 0, q);
    if n <= |t| { assert s[q + 1..q + 1 + n] == t[..n]; }
  }

  // ---------------------------------------------------------------- what decoding yields

  /** Numbers and lengths within their bounds, and dictionaries in order, all through a value. */
  ghost predicate Formed(v: Node)
    decreases v
  {
    match v
    case Undef => true
    case Int(n) => 0 <= n <= MAXINT
    case Str(t) => |t| < MAXSIZE
    case List(items) => ItemsFormed(items)
    case Dict(pairs) => Sorted(pairs) && PairsFormed(pairs)
  }

  ghost predicate ItemsFormed(vs: seq<Node>)
    decreases vs
  {
    vs == [] || (Formed(vs[0]) && ItemsFormed(vs[1..]))
  }

  ghost predicate PairsFormed(ps: seq<Pair>)
    decreases ps
  {
    ps == [] || (PairFormed(ps[0]) && PairsFormed(ps[1..]))
  }

  ghost predicate PairFormed(p: Pair)
    decreases p
  {
    Formed(p.key) && Formed(p.val)
  }

  lemma {:induction false} Decoded(s: string, p: nat)
    requires p < |s|
    ensures var r := DecodeAt(s, p); r.Some? ==> Sendable(r.value.0) && Formed(r.value.0) && (r.value.0 == Undef <==> s[p] == 'e')
    decreases |s| - p, 0
  {
    if s[p] == 'l' { ListDecoded(s, p + 1); }
    if s[p] == 'd' { DictDecoded(s, p + 1, []); }
  }

  lemma {:induction false} ListDecoded(s: string, p: nat)
    ensures var r := ListAt(s, p); r.Some? ==> ItemsSendable(r.value.0) && ItemsFormed(r.value.0)
    decreases Left(s, p), 1
  {
    if p < |s| && s[p] != 'e' {
      Decoded(s, p);
      if DecodeAt(s, p).Some? { ListDecoded(s, DecodeAt(s, p).value.1); }
    }
  }

  /** Pairs fit to be sent, and well formed. */
  ghost predicate PairsGood(ps: seq<Pair>) {
    PairsSendable(ps) && PairsFormed(ps)
  }

  lemma {:induction false} InsertGood(ps: seq<Pair>, k: Node, v: Node)
    requires PairsGood(ps) && PairSendable(Pair(k, v)) && PairFormed(Pair(k, v))
    ensures PairsGood(Insert(ps, k, v))
    decreases |ps|
  {
    if ps != [] {
      InsertGood(ps[1..], k, v);
      assert ([Pair(k, v)] + ps)[1..] == ps;
    }
  }

  lemma {:induction false} DictDecoded(s: string, p: nat, ps: seq<Pair>)
    requires PairsGood(ps) && Sorted(ps)
    ensures var r := DictAt(s, p, ps); r.Some? ==> PairsGood(r.value.0) && Sorted(r.value.0)
    decreases Left(s, p), 1
  {
    if p < |s| && s[p] != 'e' {
      Decoded(s, p);
      if DecodeAt(s, p).Some? {
        var (k, q) := DecodeAt(s, p).value;
        if q < |s| {
          Decoded(s, q);
          if DecodeAt(s, q).Some? {
            var (v, e) := DecodeAt(s, q).value;
            InsertGood(ps, k, v);
            InsertKeeps(ps, k, v);
            DictDecoded(s, e, Insert(ps, k, v));
          }
        }
      }
    }
  }

  /** Decoding an encoded value, whatever follows it, gives it back and consumes just its bytes,
      exactly when the value has no negative numbers, and no missing ones in lists or as keys. */
  lemma RoundTrip(v: Node, post: string)
    requires Held(v)
    ensures DecodeAt(Encode(v) + post, 0) == Some((v, |Encode(v)|)) <==> Sendable(v)
  {
    var s := Encode(v) + post;
    assert s[0..0 + |Encode(v)|] == Encode(v);
    if Sendable(v) { Back(s, 0, v, |Encode(v)|); } else { Decoded(s, 0); }
  }

  /** A negative number is sent, and not taken back. */
  lemma NegativeLost()
    ensures Encode(Int(-3)) == "i-3e" && DecodeAt("i-3e", 0) == None
  {
    assert Decimal(3) == "3";
    assert DigitsEnd("i-3e", 1) == 1;
  }

  /** A missing value in a list ends it. */
  lemma MissingLost()
    ensures Encode(List([Undef, Int(3)])) == "lei3ee" && DecodeAt("lei3ee", 0) == Some((List([]), 2))
  {
    var vs := [Undef, Int(3)];
    assert Decimal(3) == "3" && Encode(Int(3)) == "i3e";
    assert EncodeAll(vs[1..]) == "i3e" + EncodeAll([]) by { assert vs[1..][1..] == []; }
    assert EncodeAll(vs) == "e" + EncodeAll(vs[1..]);
    assert ListAt("lei3ee", 1) == Some(([], 2));
  }

  // ---------------------------------------------------------------- the decoder with its cursor

  ghost predicate Agrees<T>(r: Option<T>, begin: nat, spec: Option<(T, nat)>) {
    match spec
    case None => r == None
    case Some((v, q)) => r == Some(v) && begin == q
  }

  /** The elements found so far in front of what is still to come. */
  function Behind(vs: seq<Node>, r: Option<(seq<Node>, nat)>): Option<(seq<Node>, nat)> {
    match r
    case None => None
    case Some((ws, e)) => Some((vs + ws, e))
  }

  lemma OneBehind(vs: seq<Node>, v: Node, r: Option<(seq<Node>, nat)>)
    ensures Behind(vs + [v], r) == Behind(vs, if r.None? then None else Some(([v] + r.value.0, r.value.1)))
  {
    if r.Some? { assert (vs + [v]) + r.value.0 == vs + ([v] + r.value.0); }
  }

  lemma NoneBehind(r: Option<(seq<Node>, nat)>)
    ensures Behind([], r) == r
  {
    if r.Some? { assert [] + r.value.0 == r.value.0; }
  }

  lemma MoreDigits(s: string, p: nat, q: nat)
    requires p <= q < |s| && AllDigits(s[p..q]) && IsDigit(s[q])
    ensures AllDigits(s[p..q + 1]) && s[p..q + 1] == s[p..q] + [s[q]]
  {
    assert s[p..q + 1] == s[p..q] + [s[q]];
  }

  lemma {:induction false} DigitsTo(s: string, p: nat, q: nat)
    requires p <= q <= |s| && AllDigits(s[p..q]) && (q < |s| ==> !IsDigit(s[q]))
    ensures DigitsEnd(s, p) == q
    decreases q - p
  {
    if p < q {
      assert s[p] == s[p..q][0] && s[p + 1..q] == s[p..q][1..];
      DigitsTo(s, p + 1, q);
    }
  }

  class Decoder {
    const s: string
    var begin: nat

    constructor (s: string)
      ensures this.s == s && begin == 0
    {
      this.s, begin := s, 0;
    }

    method DecodeAtom() returns (r: Option<Node>)
      requires begin < |s|
      modifies this
      ensures Agrees(r, begin, DecodeAt(s, old(begin)))
      decreases Left(s, begin), 2
    {
      var c := s[begin];
      if c == 'i' {
        begin := begin + 1;
        r := DecodeInt();
      } else if IsDigit(c) {
        r := DecodeStr();
      } else if c == 'l' {
        begin := begin + 1;
        var vs := DecodeList();
        r := if vs.None? then None else Some(List(vs.value));
      } else if c == 'd' {
        begin := begin + 1;
        var ps := DecodeDict();
        r := if ps.None? then None else Some(Dict(ps.value));
      } else if c == 'e' {
        begin := begin + 1;
        r := Some(Undef);
      } else {
        r := None;
      }
    }

    method DecodeInt() returns (r: Option<Node>)
      requires begin <= |s|
      modifies this
      ensures Agrees(r, begin, IntAt(s, old(begin)))
    {
      ghost var p := begin;
      var digits := "";
      while begin < |s| && s[begin] != 'e'
        invariant p <= begin <= |s| && digits == s[p..begin] && AllDigits(digits)
      {
        if !IsDigit(s[begin]) {
          DigitsTo(s, p, begin);
          return None;
        }
        MoreDigits(s, p, begin);
        digits := digits + [s[begin]];
        begin := begin + 1;
      }
      DigitsTo(s, p, begin);
      if begin < |s| { begin := begin + 1; }
      if digits == "" { return None; }
      var n := Number(digits);
      r := Some(Int(if n > MAXINT then MAXINT else n));
    }

    method DecodeStr() returns (r: Option<Node>)
      requires begin < |s|
      modifies this
      ensures Agrees(r, begin, StrAt(s, old(begin)))
    {
      ghost var p := begin;
      var end, digits := begin, "";
      while end < |s| && IsDigit(s[end])
        invariant p <= end <= |s| && begin == p && digits == s[p..end] && AllDigits(digits)
      {
        MoreDigits(s, p, end);
        digits := digits + [s[end]];
        end := end + 1;
      }
      DigitsTo(s, p, end);
      var n := Number(digits);
      if end == |s| || s[end] != ':' || n >= MAXSIZE || |s| - (end + 1) < n { return None; }
      begin := end + 1 + n;
      r := Some(Str(s[end + 1..begin]));
    }

    method DecodeList() returns (r: Option<seq<Node>>)
      requires begin <= |s|
      modifies this
      ensures Agrees(r, begin, ListAt(s, old(begin)))
      decreases Left(s, begin), 3
    {
      ghost var p := begin;
      var vs: seq<Node> := [];
      NoneBehind(ListAt(s, p));
      while begin < |s| && s[begin] != 'e'
        invariant begin >= p && ListAt(s, p) == Behind(vs, ListAt(s, begin))
        decreases Left(s, begin)
      {
        ghost var here := begin;
        var v := DecodeAtom();
        if v.None? { return None; }
        OneBehind(vs, v.value, ListAt(s, begin));
        vs := vs + [v.value];
      }
      begin := begin + 1;
      assert vs + [] == vs;
      r := Some(vs);
    }

    method DecodeDict() returns (r: Option<seq<Pair>>)
      requires begin <= |s|
      modifies this
      ensures Agrees(r, begin, DictAt(s, old(begin), []))
      decreases Left(s, begin), 3
    {
      ghost var p := begin;
      var ps: seq<Pair> := [];
      while begin < |s| && s[begin] != 'e'
        invariant begin >= p && DictAt(s, p, []) == DictAt(s, begin, ps)
        decreases Left(s, begin)
      {
        var k := DecodeAtom();
        if k.None? || begin >= |s| { return None; }
        var v := DecodeAtom();
        if v.None? { return None; }
        ps := Insert(ps, k.value, v.value);
      }
      begin := begin + 1;
      r := Some(ps);
    }
  }

  /** The whole of a buffer; what cannot be decoded is no value. */
  method Decode(s: string) returns (v: Node)
    requires s != ""
    ensures v == var r := DecodeAt(s, 0); if r.Some? then r.value.0 else Undef
  {
    var d := new Decoder(s);
    var r := d.DecodeAtom();
    v := if r.Some? then r.value else Undef;
  }
}

/** The two base64 codecs: one packs six bytes at a time, the other three (section 4 of RFC 4648). */
module Base64 {
  import opened Common

  type Chars = seq<bv8>

  const PAD: bv8 := 61

  /** 'A'-'Z', 'a'-'z', '0'-'9', '+' and '/'. */
  function Alphabet(v: bv8): bv8 {
    if v < 26 then v + 65 else if v < 52 then v + 71 else if v < 62 then v - 4 else if v == 62 then 43 else 47
  }

  /** The inverse; 255 for a byte that is no character of the alphabet. */
  function Value(c: bv8): bv8 {
    if c == 43 then 62
    else if c == 47 then 63
    else if 48 <= c <= 57 then c + 4
    else if 65 <= c <= 90 then c - 65
    else if 97 <= c <= 122 then c - 71
    else 255
  }

  predicate IsDigit(c: bv8) {
    Value(c) < 64
  }

  lemma AlphabetInverts(v: bv8)
    requires v < 64
    ensures Value(Alphabet(v)) == v && Alphabet(v) != PAD && Alphabet(v) < 128
  {
  }

  // ---------------------------------------------------------------- what the standard asks for

  function Pack(a: bv8, b: bv8, c: bv8): bv32 {
    ((a as bv32) << 16) | ((b as bv32) << 8) | (c as bv32)
  }

  function Digit(v: bv32, at: nat): bv8
    requires at <= 18
  {
    Alphabet(((v >> at) & 63) as bv8)
  }

  function Group(a: bv8, b: bv8, c: bv8): Chars {
    var v := Pack(a, b, c);
    [Digit(v, 18), Digit(v, 12), Digit(v, 6), Digit(v, 0)]
  }

  /** Four characters for three bytes; the last group is padded. */
  function Encoded(s: Chars): Chars {
    if s == [] then []
    else if |s| == 1 then Group(s[0], 0, 0)[..2] + [PAD, PAD]
    else if |s| == 2 then Group(s[0], s[1], 0)[..3] + [PAD]
    else Group(s[0], s[1], s[2]) + Encoded(s[3..])
  }

  lemma {:induction false} EncodedLength(s: Chars)
    ensures |Encoded(s)| == (|s| + 2) / 3 * 4
  {
    if |s| > 2 { EncodedLength(s[3..]); }
  }

  // ---------------------------------------------------------------- the alphabet

  /** From 'A' at 0, 'a' at 26 and '0' at 52 on the characters follow one another; 62 is '+', 63 '/'. */
  lemma AlphabetRuns()
    ensures Alphabet(0) == 65 && Alphabet(26) == 97 && Alphabet(52) == 48 && Alphabet(62) == 43 && Alphabet(63) == 47
    ensures forall v: bv8 {:trigger Alphabet(v)} :: v < 61 && v != 25 && v != 51 ==> Alphabet(v + 1) == Alphabet(v) + 1
  {
  }

  // ---------------------------------------------------------------- the encoders

  /** The digits of six bytes packed into one word. */
  function WideDigit(v: bv64, at: nat): bv8
    requires at <= 42
  {
    Alphabet(((v >> at) & 63) as bv8)
  }

  function WidePack(s: Chars): bv64
    requires |s| >= 6
  {
    ((s[0] as bv64) << 40) | ((s[1] as bv64) << 32) | ((s[2] as bv64) << 24) | ((s[3] as bv64) << 16) | ((s[4] as bv64) << 8) | (s[5] as bv64)
  }

  lemma HighDigits(s: Chars)
    requires |s| >= 6
    ensures var v, h := WidePack(s), Pack(s[0], s[1], s[2]);
            WideDigit(v, 42) == Digit(h, 18) && WideDigit(v, 36) == Digit(h, 12) && WideDigit(v, 30) == Digit(h, 6) && WideDigit(v, 24) == Digit(h, 0)
  {
    var a, b, c, d, e, f := s[0], s[1], s[2], s[3], s[4], s[5];
    HighBits(a, b, c, d, e, f);
  }

  lemma HighBits(a: bv8, b: bv8, c: bv8, d: bv8, e: bv8, f: bv8)
    ensures var v: bv64 := ((a as bv64) << 40) | ((b as bv64) << 32) | ((c as bv64) << 24) | ((d as bv64) << 16) | ((e as bv64) << 8) | (f as bv64);
            var h := ((a as bv32) << 16) | ((b as bv32) << 8) | (c as bv32);
            && ((v >> 42) & 63) as bv8 == ((h >> 18) & 63) as bv8 && ((v >> 36) & 63) as bv8 == ((h >> 12) & 63) as bv8
            && ((v >> 30) & 63) as bv8 == ((h >> 6) & 63) as bv8 && ((v >> 24) & 63) as bv8 == ((h >> 0) & 63) as bv8
  {
  }

  lemma LowDigits(s: Chars)
    requires |s| >= 6
    ensures var v, l := WidePack(s), Pack(s[3], s[4], s[5]);
            WideDigit(v, 18) == Digit(l, 18) && WideDigit(v, 12) == Digit(l, 12) && WideDigit(v, 6) == Digit(l, 6) && WideDigit(v, 0) == Digit(l, 0)
  {
    var a, b, c, d, e, f := s[0], s[1], s[2], s[3], s[4], s[5];
    LowBits(a, b, c, d, e, f);
  }

  lemma LowBits(a: bv8, b: bv8, c: bv8, d: bv8, e: bv8, f: bv8)
    ensures var v: bv64 := ((a as bv64) << 40) | ((b as bv64) << 32) | ((c as bv64) << 24) | ((d as bv64) << 16) | ((e as bv64) << 8) | (f as bv64);
            var l := ((d as bv32) << 16) | ((e as bv32) << 8) | (f as bv32);
            && ((v >> 18) & 63) as bv8 == ((l >> 18) & 63) as bv8 && ((v >> 12) & 63) as bv8 == ((l >> 12) & 63) as bv8
            && ((v >> 6) & 63) as bv8 == ((l >> 6) & 63) as bv8 && ((v >> 0) & 63) as bv8 == ((l >> 0) & 63) as bv8
  {
  }

  /** One word of six bytes has the digits of two groups. */
  lemma WideDigits(s: Chars)
    requires |s| >= 6
    ensures WideGroup(s) == Group(s[0], s[1], s[2]) + Group(s[3], s[4], s[5])
  {
    HighDigits(s);
    LowDigits(s);
    var v, h, l := WidePack(s), Pack(s[0], s[1], s[2]), Pack(s[3], s[4], s[5]);
    FourAndFour([WideDigit(v, 42), WideDigit(v, 36), WideDigit(v, 30), WideDigit(v, 24)], [WideDigit(v, 18), WideDigit(v, 12), WideDigit(v, 6), WideDigit(v, 0)], WideGroup(s));
  }

  lemma FourAndFour(a: Chars, b: Chars, c: Chars)
    requires |a| == 4 == |b| && c == [a[0], a[1], a[2], a[3], b[0], b[1], b[2], b[3]]
    ensures c == a + b
  {
  }

  function WideGroup(s: Chars): Chars
    requires |s| >= 6
  {
    var v := WidePack(s);
    [WideDigit(v, 42), WideDigit(v, 36), WideDigit(v, 30), WideDigit(v, 24), WideDigit(v, 18), WideDigit(v, 12), WideDigit(v, 6), WideDigit(v, 0)]
  }

  /** What is written to out so far, and what is still to come, make the whole. */
  ghost predicate Written(whole: Chars, rest: Chars, out: seq<bv8>, before: seq<bv8>, o: nat) {
    |out| == |before| && o + |rest| <= |out| && out[..o] + rest == whole && out[o..] == before[o..]
  }

  /** w was the next to come. */
  lemma WrittenOn(whole: Chars, rest: Chars, rest1: Chars, out: seq<bv8>, out1: seq<bv8>, before: seq<bv8>, o: nat, o1: nat, w: Chars)
    requires Written(whole, rest, out, before, o) && rest == w + rest1 && o1 == o + |w|
    requires |out1| == |out| && out1 == out[..o] + w + out[o1..]
    ensures Written(whole, rest1, out1, before, o1)
  {
    Spliced(out, out1, before, o, o1, w);
    assert out[..o] + (w + rest1) == (out[..o] + w) + rest1;
  }

  /** Nothing more to come. */
  lemma WrittenAll(whole: Chars, out: seq<bv8>, before: seq<bv8>, o: nat)
    requires Written(whole, [], out, before, o)
    ensures o == |whole| && out == whole + before[o..]
  {
    assert out == out[..o] + out[o..];
  }

  /** w written at o. */
  lemma Spliced(out: seq<bv8>, out1: seq<bv8>, before: seq<bv8>, o: nat, o1: nat, w: Chars)
    requires o1 == o + |w| <= |out| == |out1| == |before| && out1 == out[..o] + w + out[o1..] && out[o..] == before[o..]
    ensures out1[..o1] == out[..o] + w && out1[o1..] == before[o1..]
  {
    Later(out, before, o, o1);
  }

  lemma Later(a: seq<bv8>, b: seq<bv8>, o: nat, o1: nat)
    requires o <= o1 <= |a| == |b| && a[o..] == b[o..]
    ensures a[o1..] == b[o1..]
  {
    assert a[o1..] == a[o..][o1 - o..] && b[o1..] == b[o..][o1 - o..];
  }

  lemma EncodedThree(s: Chars, i: nat, i1: nat)
    requires i1 == i + 3 <= |s|
    ensures Encoded(s[i..]) == Group(s[i], s[i + 1], s[i + 2]) + Encoded(s[i1..])
  {
    assert s[i..][3..] == s[i1..] && s[i..][0] == s[i] && s[i..][1] == s[i + 1] && s[i..][2] == s[i + 2];
  }

  lemma WideAt(s: Chars, i: nat, m: nat, w: Chars, g: Chars, h: Chars)
    requires m == i + 3 && i + 6 <= |s| && w == WideGroup(s[i..])
    requires g == Group(s[i], s[i + 1], s[i + 2]) && h == Group(s[m], s[m + 1], s[m + 2])
    ensures w == g + h
  {
    var r := s[i..];
    WideDigits(r);
    assert r[0] == s[i] && r[1] == s[i + 1] && r[2] == s[i + 2] && r[3] == s[m] && r[4] == s[m + 1] && r[5] == s[m + 2];
  }

  lemma Joined(a: Chars, b: Chars, c: Chars, w: Chars, g: Chars, h: Chars)
    requires a == g + b && b == h + c && w == g + h
    ensures a == w + c
  {
  }

  lemma EncodedSix(s: Chars, i: nat, i1: nat, w: Chars)
    requires i1 == i + 6 <= |s| && w == WideGroup(s[i..])
    ensures Encoded(s[i..]) == w + Encoded(s[i1..])
  {
    var m := i + 3;
    var g, h := Group(s[i], s[i + 1], s[i + 2]), Group(s[m], s[m + 1], s[m + 2]);
    EncodedThree(s, i, m);
    EncodedThree(s, m, i1);
    WideAt(s, i, m, w, g, h);
    Joined(Encoded(s[i..]), Encoded(s[m..]), Encoded(s[i1..]), w, g, h);
  }

  /** Writes w at o. */
  method Emit(out: array<bv8>, o: nat, w: Chars, ghost whole: Chars, ghost rest: Chars, ghost before: seq<bv8>) returns (o': nat)
    requires Written(whole, w + rest, out[..], before, o)
    modifies out
    ensures o' == o + |w| && Written(whole, rest, out[..], before, o')
  {
    ghost var was := out[..];
    o' := o + |w|;
    var k := 0;
    while k < |w|
      invariant 0 <= k <= |w| && out[..] == was[..o] + w[..k] + was[o + k..]
    {
      out[o + k] := w[k];
      k := k + 1;
    }
    assert w[..k] == w;
    WrittenOn(whole, w + rest, rest, was, out[..], before, o, o', w);
  }

  /** A block of six bytes at a time, then a block of three, then what is left. */
  method EncodeBlocks(out: array<bv8>, s: Chars)
    requires out.Length >= |Encoded(s)|
    modifies out
    ensures out[..] == Encoded(s) + old(out[..])[|Encoded(s)|..]
  {
    ghost var before, whole := out[..], Encoded(s);
    var i, o := 0, 0;
    assert s[0..] == s;
    while |s| - i >= 6
      invariant 0 <= i <= |s| && Written(whole, Encoded(s[i..]), out[..], before, o)
    {
      var w, i1 := WideGroup(s[i..]), i + 6;
      EncodedSix(s, i, i1, w);
      o := Emit(out, o, w, whole, Encoded(s[i1..]), before);
      i := i1;
    }
    if |s| - i >= 3 {
      var w, i1 := Group(s[i], s[i + 1], s[i + 2]), i + 3;
      EncodedThree(s, i, i1);
      o := Emit(out, o, w, whole, Encoded(s[i1..]), before);
      i := i1;
    }
    o := EncodeLast(out, o, s[i..], whole, before);
  }

  /** The last one or two bytes. */
  method EncodeLast(out: array<bv8>, o: nat, rest: Chars, ghost whole: Chars, ghost before: seq<bv8>) returns (end: nat)
    requires |rest| < 3 && Written(whole, Encoded(rest), out[..], before, o)
    modifies out
    ensures end == |whole| <= |before| && out[..] == whole + before[end..]
  {
    end := o;
    var w := [];
    if |rest| == 2 {
      var v := Pack(rest[0], rest[1], 0);
      w := [Digit(v, 18), Digit(v, 12), Digit(v, 6), PAD];
    } else if |rest| == 1 {
      var v := Pack(rest[0], 0, 0);
      w := [Digit(v, 18), Digit(v, 12), PAD, PAD];
    }
    assert w == Encoded(rest) && w + [] == w;
    end := Emit(out, o, w, whole, [], before);
    WrittenAll(whole, out[..], before, end);
  }

  /** Three bytes at a time; the output ends in a zero. */
  method EncodeGroups(s: Chars, out: array<bv8>) returns (r: nat)
    requires out.Length > |Encoded(s)|
    modifies out
    ensures r == |Encoded(s)| && out[..] == Encoded(s) + [0] + old(out[..])[r + 1..]
  {
    ghost var before, whole := out[..], Encoded(s);
    var i, o := 0, 0;
    assert s[0..] == s;
    while i + 3 <= |s|
      invariant 0 <= i <= |s| && Written(whole, Encoded(s[i..]), out[..], before, o)
    {
      var w, i1 := Group(s[i], s[i + 1], s[i + 2]), i + 3;
      EncodedThree(s, i, i1);
      o := Emit(out, o, w, whole, Encoded(s[i1..]), before);
      i := i1;
    }
    r := EncodeLast(out, o, s[i..], whole, before);
    out[r] := 0;
  }

  // ---------------------------------------------------------------- the decoders

  /** Bytes of four digit values, cut off to a byte each. */
  function First(a: bv8, b: bv8): bv8 { (a << 2) | (b >> 4) }
  function Second(b: bv8, c: bv8): bv8 { ((b & 15) << 4) | (c >> 2) }
  function Third(c: bv8, d: bv8): bv8 { ((c & 3) << 6) | d }

  predicate PlainDigit(c: bv8) {
    IsDigit(c) && c != PAD && c < 128
  }

  lemma DigitBack(v: bv32, at: nat)
    requires at <= 18
    ensures Value(Digit(v, at)) == ((v >> at) & 63) as bv8 && PlainDigit(Digit(v, at))
  {
    var x := ((v >> at) & 63) as bv8;
    assert x < 64;
    AlphabetInverts(x);
  }

  lemma FirstBack(a: bv8, b: bv8, c: bv8)
    ensures var v := Pack(a, b, c); First(Value(Digit(v, 18)), Value(Digit(v, 12))) == a
  {
    DigitBack(Pack(a, b, c), 18);
    DigitBack(Pack(a, b, c), 12);
  }

  lemma SecondBack(a: bv8, b: bv8, c: bv8)
    ensures var v := Pack(a, b, c); Second(Value(Digit(v, 12)), Value(Digit(v, 6))) == b
  {
    DigitBack(Pack(a, b, c), 12);
    DigitBack(Pack(a, b, c), 6);
  }

  lemma ThirdBack(a: bv8, b: bv8, c: bv8)
    ensures var v := Pack(a, b, c); Third(Value(Digit(v, 6)), Value(Digit(v, 0))) == c
  {
    DigitBack(Pack(a, b, c), 6);
    DigitBack(Pack(a, b, c), 0);
  }

  /** The digits of a group give its bytes back. */
  lemma GroupBack(a: bv8, b: bv8, c: bv8, g: Chars)
    requires g == Group(a, b, c)
    ensures First(Value(g[0]), Value(g[1])) == a && Second(Value(g[1]), Value(g[2])) == b && Third(Value(g[2]), Value(g[3])) == c
  {
    FirstBack(a, b, c);
    SecondBack(a, b, c);
    ThirdBack(a, b, c);
  }

  lemma GroupPlain(a: bv8, b: bv8, c: bv8, g: Chars)
    requires g == Group(a, b, c)
    ensures PlainDigit(g[0]) && PlainDigit(g[1]) && PlainDigit(g[2]) && PlainDigit(g[3])
  {
    var v := Pack(a, b, c);
    DigitBack(v, 18);
    DigitBack(v, 12);
    DigitBack(v, 6);
    DigitBack(v, 0);
  }

  /** The table of the block decoder: it has 128 entries, and what is read behind it is `past`. */
  function Inverse(c: bv8, past: Chars): bv8
    requires |past| == 128
  {
    if c < 128 then Value(c) else past[(c - 128) as int]
  }

  /** What the block decoder makes of any text: groups are not checked, padding counts in the last
      group only, and up to three characters behind it are dropped. */
  function Raw(t: Chars, past: Chars): Chars
    requires |past| == 128
  {
    if |t| < 4 then []
    else
      var a, b, c, d := Inverse(t[0], past), Inverse(t[1], past), Inverse(t[2], past), Inverse(t[3], past);
      if |t| > 4 then [First(a, b), Second(b, c), Third(c, d)] + Raw(t[4..], past)
      else if t[2] == PAD then [First(a, b)]
      else if t[3] == PAD then [First(a, b), Second(b, c)]
      else [First(a, b), Second(b, c), Third(c, d)]
  }

  lemma {:induction false} RawSize(t: Chars, past: Chars)
    requires |past| == 128
    ensures |Raw(t, past)| <= |t| / 4 * 3
  {
    if |t| > 4 { RawSize(t[4..], past); }
  }

  lemma RawFour(t: Chars, i: nat, i1: nat, past: Chars, w: Chars)
    requires |past| == 128 && i1 == i + 4 < |t|
    requires var a, b, c, d := Inverse(t[i], past), Inverse(t[i + 1], past), Inverse(t[i + 2], past), Inverse(t[i + 3], past);
             w == [First(a, b), Second(b, c), Third(c, d)]
    ensures Raw(t[i..], past) == w + Raw(t[i1..], past)
  {
    assert t[i..][4..] == t[i1..] && t[i..][0] == t[i] && t[i..][1] == t[i + 1] && t[i..][2] == t[i + 2] && t[i..][3] == t[i + 3];
  }

  method DecodeRaw(out: array<bv8>, t: Chars, past: Chars) returns (count: nat)
    requires |past| == 128 && out.Length >= |t| / 4 * 3
    modifies out
    ensures count == |Raw(t, past)| && count <= out.Length && out[..] == Raw(t, past) + old(out[..])[count..]
  {
    ghost var before, whole := out[..], Raw(t, past);
    RawSize(t, past);
    var i := 0;
    count := 0;
    assert t[0..] == t;
    while |t| - i > 4
      invariant 0 <= i <= |t| && Written(whole, Raw(t[i..], past), out[..], before, count)
    {
      var a, b, c, d := Inverse(t[i], past), Inverse(t[i + 1], past), Inverse(t[i + 2], past), Inverse(t[i + 3], past);
      var w, i1 := [First(a, b), Second(b, c), Third(c, d)], i + 4;
      RawFour(t, i, i1, past, w);
      count := Emit(out, count, w, whole, Raw(t[i1..], past), before);
      i := i1;
    }
    count := LastRaw(out, t[i..], past, whole, before, count);
  }

  /** The last group, and what cannot be one. */
  method LastRaw(out: array<bv8>, t: Chars, past: Chars, ghost whole: Chars, ghost before: seq<bv8>, o: nat) returns (count: nat)
    requires |past| == 128 && |t| <= 4 && Written(whole, Raw(t, past), out[..], before, o)
    modifies out
    ensures count == |whole| <= |before| && out[..] == whole + before[count..]
  {
    var w := [];
    if |t| == 4 {
      var a, b := Inverse(t[0], past), Inverse(t[1], past);
      w := [First(a, b)];
      if t[2] != PAD {
        var c := Inverse(t[2], past);
        w := w + [Second(b, c)];
        if t[3] != PAD { w := w + [Third(c, Inverse(t[3], past))]; }
      }
    }
    assert w == Raw(t, past) && w + [] == w;
    count := Emit(out, o, w, whole, [], before);
    WrittenAll(whole, out[..], before, count);
  }

  // ---------------------------------------------------------------- the checking decoder

  /** A group the checking decoder takes: two digits, then digits, and padding behind them. */
  predicate GoodGroup(t: Chars)
    requires |t| == 4
  {
    && IsDigit(t[0]) && IsDigit(t[1]) && (IsDigit(t[2]) || t[2] == PAD)
    && (IsDigit(t[3]) || t[3] == PAD) && (t[2] == PAD ==> t[3] == PAD)
  }

  function GroupBytes(t: Chars): (w: Chars)
    requires |t| == 4
    ensures |w| == if t[2] == PAD then 1 else if t[3] == PAD then 2 else 3
  {
    var w := [First(Value(t[0]), Value(t[1])), Second(Value(t[1]), Value(t[2])), Third(Value(t[2]), Value(t[3]))];
    if t[2] == PAD then w[..1] else if t[3] == PAD then w[..2] else w
  }

  function Checked(t: Chars): Option<Chars> {
    if t == [] then Some([])
    else if |t| < 4 || !GoodGroup(t[..4]) then None
    else
      var rest := Checked(t[4..]);
      if rest.None? then None else Some(GroupBytes(t[..4]) + rest.value)
  }

  lemma CheckedFour(t: Chars, i: nat, i1: nat)
    requires i1 == i + 4 <= |t|
    ensures t[i..][..4] == t[i..i1] && t[i..][4..] == t[i1..]
    ensures Checked(t[i..]) == if !GoodGroup(t[i..i1]) || Checked(t[i1..]).None? then None else Some(GroupBytes(t[i..i1]) + Checked(t[i1..]).value)
  {
    assert t[i..][..4] == t[i..i1] && t[i..][4..] == t[i1..];
  }

  /** The digit values of a group, 0 for padding, and how much of it is padding; false when it is
      no good. */
  method Digits(t: Chars) returns (ok: bool, v: seq<bv8>, pad: nat)
    requires |t| == 4
    ensures ok == GoodGroup(t)
    ensures ok ==> |v| == 4 && pad == (if t[2] == PAD then 2 else if t[3] == PAD then 1 else 0)
    ensures ok ==> forall k :: 0 <= k < 4 ==> v[k] == if t[k] == PAD then 0 else Value(t[k])
  {
    v, pad := [], 0;
    var k := 0;
    while k < 4
      invariant 0 <= k <= 4 && |v| == k && pad == (if k > 2 && t[2] == PAD then 1 else 0) + (if k > 3 && t[3] == PAD then 1 else 0)
      invariant forall j :: 0 <= j < k ==> v[j] == if t[j] == PAD then 0 else Value(t[j])
      invariant (k > 0 ==> IsDigit(t[0])) && (k > 1 ==> IsDigit(t[1])) && (k > 2 ==> IsDigit(t[2]) || t[2] == PAD)
      invariant k > 3 ==> GoodGroup(t)
    {
      if t[k] == PAD {
        if k < 2 { return false, v, pad; }
        v, pad := v + [0], pad + 1;
      } else {
        var r := Value(t[k]);
        if r >= 64 || pad != 0 { return false, v, pad; }
        v := v + [r];
      }
      k := k + 1;
    }
    ok := true;
  }

  /** The bytes of four digit values packed into one word. */
  lemma PackedBytes(a: bv8, b: bv8, c: bv8, d: bv8)
    requires a < 64 && b < 64 && c < 64 && d < 64
    ensures var v := ((a as bv32) << 18) | ((b as bv32) << 12) | ((c as bv32) << 6) | (d as bv32);
            && ((v >> 16) & 255) as bv8 == First(a, b) && ((v >> 8) & 255) as bv8 == Second(b, c) && (v & 255) as bv8 == Third(c, d)
  {
  }

  /** Padding counts as digit 0, and only where it does not matter. */
  method Unpack(t: Chars, v: seq<bv8>, pad: nat) returns (w: Chars)
    requires |t| == 4 == |v| && GoodGroup(t) && pad == if t[2] == PAD then 2 else if t[3] == PAD then 1 else 0
    requires forall k :: 0 <= k < 4 ==> v[k] == if t[k] == PAD then 0 else Value(t[k])
    ensures w == GroupBytes(t)
  {
    var b := ((v[0] as bv32) << 18) | ((v[1] as bv32) << 12) | ((v[2] as bv32) << 6) | (v[3] as bv32);
    PackedBytes(v[0], v[1], v[2], v[3]);
    w := [((b >> 16) & 255) as bv8];
    if pad < 2 { w := w + [((b >> 8) & 255) as bv8]; }
    if pad < 1 { w := w + [(b & 255) as bv8]; }
  }

  lemma FourMore(k: nat, n: nat)
    requires n == k + 4
    ensures n % 4 == k % 4 && n / 4 == k / 4 + 1
  {
  }

  lemma {:induction false} CheckedWhole(t: Chars)
    requires Checked(t).Some?
    ensures |t| % 4 == 0
  {
    if t != [] {
      CheckedWhole(t[4..]);
      FourMore(|t[4..]|, |t|);
    }
  }

  /** One group after the other; -1 when the length or a group is no good. */
  function After(pre: Chars, rest: Option<Chars>): Option<Chars> {
    if rest.None? then None else Some(pre + rest.value)
  }

  lemma AfterMore(pre: Chars, w: Chars, rest: Option<Chars>)
    ensures After(pre, After(w, rest)) == After(pre + w, rest)
  {
    if rest.Some? { assert pre + (w + rest.value) == (pre + w) + rest.value; }
  }

  /** Three bytes for four characters. */
  ghost predicate ThreeForFour(i: nat, o: nat, n: nat) {
    i <= n && i % 4 == 0 && n % 4 == 0 && o <= i / 4 * 3
  }

  lemma ThreeForFourOn(i: nat, o: nat, n: nat, i1: nat, w: Chars)
    requires ThreeForFour(i, o, n) && i < n && i1 == i + 4 && |w| <= 3
    ensures i1 <= n && o + |w| <= n / 4 * 3 && ThreeForFour(i1, o + |w|, n)
  {
  }

  method DecodeChecked(t: Chars, out: array<bv8>) returns (r: int)
    requires out.Length >= |t| / 4 * 3
    modifies out
    ensures r == (if Checked(t).Some? then |Checked(t).value| else -1)
    ensures Checked(t).Some? ==> r <= out.Length && out[..] == Checked(t).value + old(out[..])[r..]
  {
    if |t| % 4 != 0 {
      if Checked(t).Some? { CheckedWhole(t); }
      return -1;
    }
    ghost var before, pre := out[..], [];
    var i: nat, o: nat := 0, 0;
    assert t[0..] == t && Written(pre, [], out[..], before, o);
    assert Checked(t) == After(pre, Checked(t)) by {
      if Checked(t).Some? { assert [] + Checked(t).value == Checked(t).value; }
    }
    while i < |t|
      invariant ThreeForFour(i, o, |t|) && Written(pre, [], out[..], before, o)
      invariant Checked(t) == After(pre, Checked(t[i..]))
    {
      var i1 := i + 4;
      ThreeForFourOn(i, o, |t|, i1, []);
      var g := t[i..i1];
      CheckedFour(t, i, i1);
      var ok, v, pad := Digits(g);
      if !ok { return -1; }
      var w := Unpack(g, v, pad);
      ThreeForFourOn(i, o, |t|, i1, w);
      assert pre + w + [] == pre + w && pre + [] == pre;
      o := Emit(out, o, w, pre + w, [], before);
      AfterMore(pre, w, Checked(t[i1..]));
      pre := pre + w;
      i := i1;
    }
    r := o;
    WrittenAll(pre, out[..], before, o);
    assert pre + [] == pre;
  }

  // ---------------------------------------------------------------- round trips

  lemma OneBack(a: bv8, past: Chars, t: Chars)
    requires |past| == 128 && t == Encoded([a])
    ensures Raw(t, past) == [a] && |t| == 4 && GoodGroup(t) && GroupBytes(t) == [a]
  {
    var g := Group(a, 0, 0);
    GroupBack(a, 0, 0, g);
    GroupPlain(a, 0, 0, g);
    assert t == [g[0], g[1], PAD, PAD];
  }

  lemma TwoBack(a: bv8, b: bv8, past: Chars, t: Chars)
    requires |past| == 128 && t == Encoded([a, b])
    ensures Raw(t, past) == [a, b] && |t| == 4 && GoodGroup(t) && GroupBytes(t) == [a, b]
  {
    var g := Group(a, b, 0);
    GroupBack(a, b, 0, g);
    GroupPlain(a, b, 0, g);
    assert t == [g[0], g[1], g[2], PAD];
  }

  lemma ThreeBack(a: bv8, b: bv8, c: bv8, past: Chars, g: Chars, rest: Chars)
    requires |past| == 128 && g == Group(a, b, c)
    ensures Raw(g + rest, past) == [a, b, c] + Raw(rest, past) || 0 < |rest| < 4
    ensures GoodGroup(g) && GroupBytes(g) == [a, b, c]
  {
    GroupBack(a, b, c, g);
    GroupPlain(a, b, c, g);
    var t := g + rest;
    assert t[4..] == rest && t[0] == g[0] && t[1] == g[1] && t[2] == g[2] && t[3] == g[3];
  }

  /** The block decoder undoes both encoders, whatever lies behind its table. */
  lemma {:induction false} RawInverts(s: Chars, past: Chars)
    requires |past| == 128
    ensures Raw(Encoded(s), past) == s
    decreases |s|
  {
    if |s| == 1 {
      assert s == [s[0]];
      OneBack(s[0], past, Encoded(s));
    } else if |s| == 2 {
      assert s == [s[0], s[1]];
      TwoBack(s[0], s[1], past, Encoded(s));
    } else if |s| > 2 {
      var rest := Encoded(s[3..]);
      EncodedLength(s[3..]);
      ThreeBack(s[0], s[1], s[2], past, Group(s[0], s[1], s[2]), rest);
      RawInverts(s[3..], past);
      assert s == [s[0], s[1], s[2]] + s[3..];
    }
  }

  lemma CheckedFirst(g: Chars, rest: Chars)
    requires |g| == 4 && GoodGroup(g)
    ensures Checked(g + rest) == After(GroupBytes(g), Checked(rest))
  {
    var t := g + rest;
    assert t[..4] == g && t[4..] == rest;
  }

  lemma CheckedLast(t: Chars)
    requires |t| == 4 && GoodGroup(t)
    ensures Checked(t) == Some(GroupBytes(t))
  {
    CheckedFirst(t, []);
    assert t + [] == t && GroupBytes(t) + [] == GroupBytes(t);
  }

  lemma OneChecked(a: bv8)
    ensures Checked(Encoded([a])) == Some([a])
  {
    OneBack(a, seq(128, k => 0), Encoded([a]));
    CheckedLast(Encoded([a]));
  }

  lemma TwoChecked(a: bv8, b: bv8)
    ensures Checked(Encoded([a, b])) == Some([a, b])
  {
    TwoBack(a, b, seq(128, k => 0), Encoded([a, b]));
    CheckedLast(Encoded([a, b]));
  }

  lemma ThreeChecked(a: bv8, b: bv8, c: bv8, rest: Chars, r: Chars)
    requires Checked(rest) == Some(r)
    ensures Checked(Group(a, b, c) + rest) == Some([a, b, c] + r)
  {
    ThreeBack(a, b, c, seq(128, k => 0), Group(a, b, c), rest);
    CheckedFirst(Group(a, b, c), rest);
  }

  /** So does the checking decoder. */
  lemma {:induction false} CheckedInverts(s: Chars)
    ensures Checked(Encoded(s)) == Some(s)
    decreases |s|
  {
    if |s| == 1 {
      assert s == [s[0]];
      OneChecked(s[0]);
    } else if |s| == 2 {
      assert s == [s[0], s[1]];
      TwoChecked(s[0], s[1]);
    } else if |s| > 2 {
      CheckedInverts(s[3..]);
      ThreeChecked(s[0], s[1], s[2], Encoded(s[3..]), s[3..]);
      assert s == [s[0], s[1], s[2]] + s[3..];
    }
  }

  // ---------------------------------------------------------------- what the checking decoder takes

  ghost predicate GoodAt(t: Chars, k: nat) {
    4 * k + 4 <= |t| && GoodGroup(t[4 * k..4 * k + 4])
  }

  /** It takes exactly the texts made of good groups, be they padded or not. */
  lemma {:induction false} Accepts(t: Chars)
    ensures Checked(t).Some? <==> |t| % 4 == 0 && forall k: nat :: k < |t| / 4 ==> GoodAt(t, k)
    decreases |t|
  {
    if |t| >= 4 {
      var r := t[4..];
      Accepts(r);
      assert t[4 * 0..4 * 0 + 4] == t[..4];
      forall k: nat | k < |r| / 4 ensures GoodAt(t, k + 1) == GoodAt(r, k) {
        assert r[4 * k..4 * k + 4] == t[4 * (k + 1)..4 * (k + 1) + 4];
      }
      assert |r| % 4 == |t| % 4 && |t| / 4 == |r| / 4 + 1;
      if forall k: nat :: k < |t| / 4 ==> GoodAt(t, k) {
        forall k: nat | k < |r| / 4 ensures GoodAt(r, k) { assert GoodAt(t, k + 1); }
        assert GoodAt(t, 0);
      }
      if Checked(t).Some? {
        forall k: nat | k < |t| / 4 ensures GoodAt(t, k) {
          if k > 0 {
            var j: nat := k - 1;
            assert GoodAt(r, j) && GoodAt(t, j + 1);
          }
        }
      }
    }
  }

  ghost predicate EndsPadded(t: Chars, k: nat) {
    4 * k + 4 <= |t| && t[4 * k + 3] == PAD
  }

  /** In a good group padding reaches its end. */
  lemma PaddedToEnd(t: Chars, i: nat, k: nat)
    requires i < |t| && k == i / 4 && GoodAt(t, k) && t[i] == PAD
    ensures EndsPadded(t, k)
  {
    var g := t[4 * k..4 * k + 4];
    assert i == 4 * k + i % 4 && g[i % 4] == PAD && g[3] == t[4 * k + 3];
  }

  /** A text is not taken with padding before its last group, exactly when its length is wrong, or
      some group is bad, or no group before the last ends in padding. */
  lemma PaddingLast(t: Chars)
    ensures (Checked(t).Some? ==> forall i {:trigger t[i]} :: 0 <= i < |t| - 4 ==> t[i] != PAD)
      <==> (|t| % 4 != 0 || (exists k: nat :: k < |t| / 4 && !GoodAt(t, k)) || forall k: nat :: k + 1 < |t| / 4 ==> !EndsPadded(t, k))
  {
    Accepts(t);
    if Checked(t).Some? {
      forall i {:trigger t[i]} | 0 <= i < |t| - 4 && t[i] == PAD ensures exists k: nat :: k + 1 < |t| / 4 && EndsPadded(t, k) {
        assert GoodAt(t, i / 4);
        PaddedToEnd(t, i, i / 4);
      }
      forall k: nat | k + 1 < |t| / 4 && EndsPadded(t, k) ensures exists i {:trigger t[i]} :: 0 <= i < |t| - 4 && t[i] == PAD {
        assert t[4 * k + 3] == PAD;
      }
    }
  }

  /** Padding inside the text, "QQ==QQ==", is taken too. */
  lemma PaddingInside()
    ensures Checked([81, 81, 61, 61, 81, 81, 61, 61]) == Some([65, 65])
  {
    var g: Chars, w: Chars := [81, 81, 61, 61], [65];
    assert GroupBytes(g) == w;
    CheckedLast(g);
    CheckedFirst(g, g);
    assert g + g == [81, 81, 61, 61, 81, 81, 61, 61] && w + w == [65, 65];
  }

  // ---------------------------------------------------------------- one text for each string of bytes

  /** A text as the standard asks for it: good groups, padding in the last one only, and no bits set
      in front of the padding that stand for nothing. */
  predicate Canonical(t: Chars) {
    t == [] || (|t| >= 4 && GoodGroup(t[..4]) && if t[3] == PAD then |t| == 4 && Value(if t[2] == PAD then t[1] else t[2]) & (if t[2] == PAD then 15 else 3) == 0 else Canonical(t[4..]))
  }

  lemma DigitAgain(c: bv8)
    requires IsDigit(c)
    ensures Alphabet(Value(c)) == c
  {
  }

  lemma OneDigit(c: bv8, d: bv8)
    requires IsDigit(c) && IsDigit(d) && Value(c) == Value(d)
    ensures c == d
  {
    DigitAgain(c);
    DigitAgain(d);
  }

  /** Four digit values are told apart by their three bytes. */
  lemma ValuesSame(a: bv8, b: bv8, c: bv8, d: bv8, a': bv8, b': bv8, c': bv8, d': bv8)
    requires a < 64 && b < 64 && c < 64 && d < 64 && a' < 64 && b' < 64 && c' < 64 && d' < 64
    requires First(a, b) == First(a', b') && Second(b, c) == Second(b', c') && Third(c, d) == Third(c', d')
    ensures a == a' && b == b' && c == c' && d == d'
  {
  }

  /** The text y is encoded from the bytes of the group x. */
  ghost predicate FromBytes(x: Chars, y: Chars) {
    && |x| == 4 && IsDigit(x[0]) && IsDigit(x[1]) && IsDigit(x[2]) && IsDigit(x[3])
    && var a, b, c, d := Value(x[0]), Value(x[1]), Value(x[2]), Value(x[3]);
    y == Group(First(a, b), Second(b, c), Third(c, d))
  }

  /** The digits of the bytes of a group are the group's. */
  lemma GroupAgain(x: Chars, y: Chars)
    requires FromBytes(x, y)
    ensures y == x
  {
    var a, b, c, d := Value(x[0]), Value(x[1]), Value(x[2]), Value(x[3]);
    GroupBack(First(a, b), Second(b, c), Third(c, d), y);
    GroupPlain(First(a, b), Second(b, c), Third(c, d), y);
    GroupSame(x, y);
  }

  lemma GroupSame(x: Chars, y: Chars)
    requires |x| == 4 == |y| && forall k: nat {:trigger x[k]} {:trigger y[k]} :: k < 4 ==> IsDigit(x[k]) && IsDigit(y[k])
    requires First(Value(x[0]), Value(x[1])) == First(Value(y[0]), Value(y[1])) && Second(Value(x[1]), Value(x[2])) == Second(Value(y[1]), Value(y[2]))
    requires Third(Value(x[2]), Value(x[3])) == Third(Value(y[2]), Value(y[3]))
    ensures y == x
  {
    ValuesSame(Value(x[0]), Value(x[1]), Value(x[2]), Value(x[3]), Value(y[0]), Value(y[1]), Value(y[2]), Value(y[3]));
    OneDigit(x[0], y[0]);
    OneDigit(x[1], y[1]);
    OneDigit(x[2], y[2]);
    OneDigit(x[3], y[3]);
  }

  /** A last group is what its bytes are encoded to. */
  lemma LastAgain(t: Chars)
    requires |t| == 4 && Canonical(t) && t[3] == PAD
    ensures Encoded(GroupBytes(t)) == t
  {
    var a, b := Value(t[0]), Value(t[1]);
    assert Value(65) == 0 && t[..4] == t;
    if t[2] == PAD {
      var x := [t[0], t[1], 65, 65];
      assert Second(b, 0) == 0 && Third(0, 0) == 0;
      GroupAgain(x, Group(First(a, b), 0, 0));
    } else {
      var x, c := [t[0], t[1], t[2], 65], Value(t[2]);
      assert Third(c, 0) == 0;
      GroupAgain(x, Group(First(a, b), Second(b, c), 0));
    }
  }

  /** Encoding gives the one text of that kind that decodes to the bytes. */
  lemma {:induction false} EncodedAgain(t: Chars)
    requires Canonical(t)
    ensures Checked(t).Some? && Encoded(Checked(t).value) == t
    decreases |t|
  {
    if t != [] {
      var g, r := t[..4], t[4..];
      assert t == g + r;
      if t[3] == PAD {
        assert g == t;
        CheckedLast(t);
        LastAgain(t);
      } else {
        EncodedAgain(r);
        GroupAgain(g, Group(First(Value(g[0]), Value(g[1])), Second(Value(g[1]), Value(g[2])), Third(Value(g[2]), Value(g[3]))));
        FrontEncoded(g, r);
      }
    }
  }

  lemma FrontEncoded(g: Chars, r: Chars)
    requires |g| == 4 && GoodGroup(g) && g[3] != PAD && Checked(r).Some? && Encoded(Checked(r).value) == r
    requires var w := GroupBytes(g); g == Group(w[0], w[1], w[2])
    ensures Checked(g + r).Some? && Encoded(Checked(g + r).value) == g + r
  {
    CheckedFirst(g, r);
    var w, u := GroupBytes(g), Checked(r).value;
    assert (w + u)[3..] == u && (w + u)[0] == w[0] && (w + u)[1] == w[1] && (w + u)[2] == w[2];
  }

  lemma LowBitsZero(a: bv8, b: bv8)
    ensures Value(Group(a, 0, 0)[1]) & 15 == 0 && Value(Group(a, b, 0)[2]) & 3 == 0
  {
    DigitBack(Pack(a, 0, 0), 12);
    DigitBack(Pack(a, b, 0), 6);
  }

  lemma {:induction false} EncodedCanonical(s: Chars)
    ensures Canonical(Encoded(s))
    decreases |s|
  {
    if s != [] {
      var a, b, c := s[0], if |s| > 1 then s[1] else 0, if |s| > 2 then s[2] else 0;
      GroupPlain(a, b, c, Group(a, b, c));
      LowBitsZero(a, b);
      if |s| > 2 {
        EncodedCanonical(s[3..]);
        assert Encoded(s)[4..] == Encoded(s[3..]) && Encoded(s)[..4] == Group(a, b, c);
      }
    }
  }
}

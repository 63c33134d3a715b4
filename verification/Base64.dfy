/** Standard base64 with padding (section 4 of RFC 4648), as Go's StdEncoding writes and reads it. The grouping, padding and
    line breaks are proved for every code of single groups that can be read back; Standard() is the one of the RFC. */
module Base64 {
  import opened Basics

  const PAD: byte := 61

  /** How single groups are written and read: of three bytes, of the last two, and of the last one. */
  datatype Codec = Codec(
    write3: (byte, byte, byte) -> seq<byte>,
    write2: (byte, byte) -> (byte, byte, byte),
    write1: byte -> (byte, byte),
    read4: seq<byte> -> seq<byte>,
    read3: (byte, byte, byte) -> seq<byte>,
    read2: (byte, byte) -> byte)

  /** The characters of the alphabet: A-Z, a-z, 0-9, +, /. */
  predicate InAlphabet(c: byte) {
    65 <= c <= 90 || 97 <= c <= 122 || 48 <= c <= 57 || c == 43 || c == 47
  }

  predicate AllSymbols(q: seq<byte>) {
    forall i :: 0 <= i < |q| ==> InAlphabet(q[i])
  }

  /** Groups are written in the alphabet and read back. */
  ghost predicate Lawful(k: Codec) {
    && (forall a: byte, b: byte, c: byte {:trigger k.write3(a, b, c)} ::
          |k.write3(a, b, c)| == 4 && AllSymbols(k.write3(a, b, c)) && k.read4(k.write3(a, b, c)) == [a, b, c])
    && (forall a: byte, b: byte {:trigger k.write2(a, b)} :: var (x, y, z) := k.write2(a, b);
          InAlphabet(x) && InAlphabet(y) && InAlphabet(z) && k.read3(x, y, z) == [a, b])
    && (forall a: byte {:trigger k.write1(a)} :: var (x, y) := k.write1(a);
          InAlphabet(x) && InAlphabet(y) && k.read2(x, y) == a)
  }

  function Encode(k: Codec, s: seq<byte>): seq<byte> {
    if |s| < 3 then Tail(k, s) else k.write3(s[0], s[1], s[2]) + Encode(k, s[3..])
  }

  /** The padded group of the last one or two bytes. */
  function Tail(k: Codec, s: seq<byte>): seq<byte>
    requires |s| < 3
  {
    if |s| == 0 then []
    else if |s| == 1 then var (x, y) := k.write1(s[0]); [x, y, PAD, PAD]
    else var (x, y, z) := k.write2(s[0], s[1]); [x, y, z, PAD]
  }

  /** Line breaks are skipped when decoding. */
  function SkipBreaks(t: seq<byte>): seq<byte> {
    if t == [] then [] else (if t[0] == 10 || t[0] == 13 then [] else [t[0]]) + SkipBreaks(t[1..])
  }

  /** Groups of four; only the last may be padded, and its unused bits are ignored. */
  function DecodeGroups(k: Codec, t: seq<byte>): Option<seq<byte>> {
    if t == [] then Some([])
    else if |t| < 4 then None
    else if AllSymbols(t[..4]) then
      match DecodeGroups(k, t[4..])
      case None => None
      case Some(rest) => Some(k.read4(t[..4]) + rest)
    else if |t| > 4 then None
    else DecodeTail(k, t)
  }

  function DecodeTail(k: Codec, t: seq<byte>): Option<seq<byte>>
    requires |t| == 4
  {
    if !InAlphabet(t[0]) || !InAlphabet(t[1]) || t[3] != PAD then None
    else if t[2] == PAD then Some([k.read2(t[0], t[1])])
    else if InAlphabet(t[2]) then Some(k.read3(t[0], t[1], t[2]))
    else None
  }

  function Decode(k: Codec, t: seq<byte>): Option<seq<byte>> {
    DecodeGroups(k, SkipBreaks(t))
  }

  /** The shape of `n` groups: characters of the alphabet, but for a last group that may end in one or two pads. */
  predicate GroupsShape(t: seq<byte>, n: nat) {
    && |t| == 4 * n
    && (n > 0 ==>
          && AllSymbols(t[..|t| - 2])
          && if t[|t| - 2] == PAD then t[|t| - 1] == PAD else InAlphabet(t[|t| - 2]) && (InAlphabet(t[|t| - 1]) || t[|t| - 1] == PAD))
  }

  lemma {:induction false} GroupsDecodeExactly(k: Codec, t: seq<byte>, n: nat)
    requires 4 * n <= |t| < 4 * n + 4
    ensures DecodeGroups(k, t).Some? <==> GroupsShape(t, n)
  {
    if n == 1 && |t| == 4 {
      OneGroupDecodes(k, t);
    } else if n > 0 {
      GroupsDecodeExactly(k, t[4..], n - 1);
      if AllSymbols(t[..4]) && |t| == 4 * n { FirstGroup(t, n); }
      if GroupsShape(t, n) { assert forall i :: 0 <= i < 4 ==> t[..4][i] == t[..|t| - 2][i]; }
    }
  }

  lemma OneGroupDecodes(k: Codec, t: seq<byte>)
    requires |t| == 4
    ensures DecodeGroups(k, t).Some? <==> GroupsShape(t, 1)
  {
    assert t[..4] == t && t[4..] == [];
    assert t[0] == t[..2][0] && t[1] == t[..2][1];
    if AllSymbols(t) { assert InAlphabet(t[2]) && InAlphabet(t[3]); }
  }

  lemma FirstGroup(t: seq<byte>, n: nat)
    requires n > 1 && |t| == 4 * n && AllSymbols(t[..4])
    ensures GroupsShape(t[4..], n - 1) <==> GroupsShape(t, n)
  {
    var m := |t| - 2;
    assert t[..m] == t[..4] + t[4..][..m - 4];
    SymbolsJoin(t[..4], t[4..][..m - 4]);
  }

  lemma SymbolsJoin(a: seq<byte>, b: seq<byte>)
    ensures AllSymbols(a + b) <==> AllSymbols(a) && AllSymbols(b)
  {
    if AllSymbols(a + b) {
      assert forall i :: 0 <= i < |a| ==> a[i] == (a + b)[i];
      assert forall i :: 0 <= i < |b| ==> b[i] == (a + b)[|a| + i];
    }
  }

  /** Line breaks and nothing else are skipped. */
  lemma {:induction false} OnlyBreaksSkipped(t: seq<byte>, c: byte)
    ensures multiset(SkipBreaks(t))[c] == if c == 10 || c == 13 then 0 else multiset(t)[c]
  {
    if t != [] {
      OnlyBreaksSkipped(t[1..], c);
      assert t == [t[0]] + t[1..];
    }
  }

  /** A text is base64 exactly if without its line breaks, which stand anywhere, it consists of groups. */
  lemma DecodesExactly(k: Codec, t: seq<byte>, n: nat)
    requires 4 * n <= |SkipBreaks(t)| < 4 * n + 4
    ensures Decode(k, t).Some? <==> GroupsShape(SkipBreaks(t), n)
    ensures forall c: byte :: multiset(SkipBreaks(t))[c] == if c == 10 || c == 13 then 0 else multiset(t)[c]
  {
    GroupsDecodeExactly(k, SkipBreaks(t), n);
    forall c: byte ensures multiset(SkipBreaks(t))[c] == if c == 10 || c == 13 then 0 else multiset(t)[c] {
      OnlyBreaksSkipped(t, c);
    }
  }

  /** What an encoding consists of. */
  predicate Clean(t: seq<byte>) {
    forall i :: 0 <= i < |t| ==> InAlphabet(t[i]) || t[i] == PAD
  }

  lemma {:induction false} EncodeLength(k: Codec, s: seq<byte>)
    requires Lawful(k)
    ensures |Encode(k, s)| == (|s| + 2) / 3 * 4
  {
    if |s| >= 3 {
      EncodeLength(k, s[3..]);
      assert (|s| + 2) / 3 == (|s[3..]| + 2) / 3 + 1;
    }
  }

  lemma {:induction false} EncodeIsClean(k: Codec, s: seq<byte>)
    requires Lawful(k)
    ensures Clean(Encode(k, s))
  {
    if |s| >= 3 {
      EncodeIsClean(k, s[3..]);
      CleanConcat(k.write3(s[0], s[1], s[2]), Encode(k, s[3..]));
    }
  }

  lemma CleanConcat(a: seq<byte>, b: seq<byte>)
    requires AllSymbols(a) && Clean(b)
    ensures Clean(a + b)
  {
  }

  lemma {:induction false} CleanHasNoBreaks(t: seq<byte>)
    requires Clean(t)
    ensures SkipBreaks(t) == t
  {
    if t != [] { CleanHasNoBreaks(t[1..]); }
  }

  lemma FullGroup(k: Codec, q: seq<byte>, rest: seq<byte>)
    requires |q| == 4 && AllSymbols(q)
    ensures DecodeGroups(k, q + rest) == match DecodeGroups(k, rest) case None => None case Some(r) => Some(k.read4(q) + r)
  {
    assert (q + rest)[..4] == q && (q + rest)[4..] == rest;
  }

  lemma ShortRoundTrip(k: Codec, s: seq<byte>)
    requires Lawful(k) && |s| < 3
    ensures DecodeGroups(k, Encode(k, s)) == Some(s)
  {
    var t := Tail(k, s);
    if |s| == 1 {
      assert t[..4][3] == PAD && s == [s[0]];
    } else if |s| == 2 {
      assert t[..4][3] == PAD && s == [s[0], s[1]];
    }
  }

  lemma {:induction false} GroupsRoundTrip(k: Codec, s: seq<byte>)
    requires Lawful(k)
    ensures DecodeGroups(k, Encode(k, s)) == Some(s)
  {
    if |s| < 3 {
      ShortRoundTrip(k, s);
    } else {
      var rest := s[3..];
      assert s == [s[0], s[1], s[2]] + rest;
      GroupsRoundTrip(k, rest);
      FullGroup(k, k.write3(s[0], s[1], s[2]), Encode(k, rest));
    }
  }

  /** Decoding an encoding gives back the bytes. */
  lemma RoundTrip(k: Codec, s: seq<byte>)
    requires Lawful(k)
    ensures Decode(k, Encode(k, s)) == Some(s)
  {
    EncodeIsClean(k, s);
    CleanHasNoBreaks(Encode(k, s));
    GroupsRoundTrip(k, s);
  }

  /** Cutting the text at a group boundary is the same as cutting the bytes. */
  lemma {:induction false} EncodePrefix(k: Codec, s: seq<byte>, n: nat)
    requires Lawful(k) && 3 * n <= |s|
    ensures 4 * n <= |Encode(k, s)| && Encode(k, s)[..4 * n] == Encode(k, s[..3 * n])
  {
    if n > 0 {
      EncodePrefix(k, s[3..], n - 1);
      assert s[..3 * n][3..] == s[3..][..3 * (n - 1)];
      var q := k.write3(s[0], s[1], s[2]);
      assert (q + Encode(k, s[3..]))[..4 * n] == q + Encode(k, s[3..])[..4 * (n - 1)];
    }
  }

  lemma {:induction false} SkipBreaksConcat(a: seq<byte>, b: seq<byte>)
    ensures SkipBreaks(a + b) == SkipBreaks(a) + SkipBreaks(b)
  {
    if a == [] {
      assert a + b == b;
    } else {
      SkipBreaksConcat(a[1..], b);
      assert (a + b)[1..] == a[1..] + b && (a + b)[0] == a[0];
      var first := if a[0] == 10 || a[0] == 13 then [] else [a[0]];
      Reassociate(first, SkipBreaks(a[1..]), SkipBreaks(b));
    }
  }

  lemma Reassociate(a: seq<byte>, b: seq<byte>, c: seq<byte>)
    ensures a + (b + c) == a + b + c
  {
  }

  lemma PaddedGroupIsLast(k: Codec, t: seq<byte>)
    requires |t| > 4 && t[3] == PAD
    ensures DecodeGroups(k, t) == None
  {
    assert t[..4][3] == PAD && !AllSymbols(t[..4]);
  }

  /** Bytes that do not fill their last group of three. */
  predicate NeedsPadding(s: seq<byte>) {
    if |s| < 3 then s != [] else NeedsPadding(s[3..])
  }

  /** Nothing may follow a padded group. */
  lemma {:induction false} PaddedThenMore(k: Codec, s: seq<byte>, more: seq<byte>)
    requires Lawful(k) && NeedsPadding(s) && more != []
    ensures DecodeGroups(k, Encode(k, s) + more) == None
  {
    if |s| < 3 {
      PaddedGroupIsLast(k, Encode(k, s) + more);
    } else {
      var q, rest := k.write3(s[0], s[1], s[2]), Encode(k, s[3..]);
      PaddedThenMore(k, s[3..], more);
      FullGroup(k, q, rest + more);
      Reassociate(q, rest, more);
    }
  }

  /** A cut text does not decode, or gives fewer bytes, whole groups of them. */
  lemma {:induction false} CutText(k: Codec, s: seq<byte>, n: nat)
    requires Lawful(k) && n < |Encode(k, s)|
    ensures var r := DecodeGroups(k, Encode(k, s)[..n]); r.Some? ==> r.value < s && !NeedsPadding(r.value)
  {
    var t := Encode(k, s)[..n];
    if n >= 4 && |s| >= 3 {
      var q, rest := k.write3(s[0], s[1], s[2]), Encode(k, s[3..]);
      assert t == q + rest[..n - 4];
      CutText(k, s[3..], n - 4);
      FullGroup(k, q, rest[..n - 4]);
      if DecodeGroups(k, t).Some? { PrependGroup(s, DecodeGroups(k, rest[..n - 4]).value); }
    }
  }

  lemma PrependGroup(s: seq<byte>, v: seq<byte>)
    requires |s| >= 3 && v < s[3..] && !NeedsPadding(v)
    ensures [s[0], s[1], s[2]] + v < s && !NeedsPadding([s[0], s[1], s[2]] + v)
  {
    var w := [s[0], s[1], s[2]] + v;
    assert w[3..] == v;
    assert w == s[..|w|];
  }

  /** Of the beginnings and continuations of an encoding, only the encoding itself reads back as the bytes. */
  lemma OnlyWholeTextReads(k: Codec, s: seq<byte>, t: seq<byte>)
    requires Lawful(k) && (t <= Encode(k, s) || (NeedsPadding(s) && Encode(k, s) <= t))
    ensures DecodeGroups(k, t) == Some(s) <==> t == Encode(k, s)
    ensures t != Encode(k, s) && DecodeGroups(k, t).Some? ==> DecodeGroups(k, t).value < s
  {
    var e := Encode(k, s);
    if |t| < |e| {
      assert t == e[..|t|];
      CutText(k, s, |t|);
    } else if |t| > |e| {
      assert t == e + t[|e|..];
      PaddedThenMore(k, s, t[|e|..]);
    } else {
      assert t == e;
      GroupsRoundTrip(k, s);
    }
  }

  /** Two encodings on separate lines do not decode as one, if the first is padded. */
  lemma TwoLinesDoNotDecode(k: Codec, s: seq<byte>, more: seq<byte>)
    requires Lawful(k) && NeedsPadding(s) && more != [] && Clean(more)
    ensures Decode(k, Encode(k, s) + [10] + more) == None
  {
    EncodeIsClean(k, s);
    CleanHasNoBreaks(Encode(k, s));
    CleanHasNoBreaks(more);
    SkipBreaksConcat(Encode(k, s) + [10], more);
    SkipBreaksConcat(Encode(k, s), [10]);
    assert SkipBreaks([10]) == [];
    assert Encode(k, s) + [] == Encode(k, s);
    PaddedThenMore(k, s, more);
  }

  // ---- the standard code ----

  type sextet = v: int | 0 <= v < 64

  /** How the 64 values are written as characters. */
  datatype Symbols = Symbols(symbol: sextet -> byte, index: byte -> sextet)

  /** How three bytes are cut into four values and put together again. */
  datatype Sextets = Sextets(
    sextet0: byte -> sextet,
    sextet1: (byte, byte) -> sextet,
    sextet2: (byte, byte) -> sextet,
    sextet3: byte -> sextet,
    byte0: (sextet, sextet) -> byte,
    byte1: (sextet, sextet) -> byte,
    byte2: (sextet, sextet) -> byte)

  ghost predicate LawfulSymbols(y: Symbols) {
    forall v: sextet {:trigger y.symbol(v)} :: InAlphabet(y.symbol(v)) && y.index(y.symbol(v)) == v
  }

  ghost predicate LawfulSextets(x: Sextets) {
    && (forall a: byte, b: byte {:trigger x.sextet1(a, b)} :: x.byte0(x.sextet0(a), x.sextet1(a, b)) == a)
    && (forall a: byte, b: byte, c: byte {:trigger x.sextet1(a, b), x.sextet2(b, c)} ::
          x.byte1(x.sextet1(a, b), x.sextet2(b, c)) == b)
    && (forall b: byte, c: byte {:trigger x.sextet2(b, c)} :: x.byte2(x.sextet2(b, c), x.sextet3(c)) == c)
  }

  function Write3(y: Symbols, x: Sextets, a: byte, b: byte, c: byte): seq<byte> {
    [y.symbol(x.sextet0(a)), y.symbol(x.sextet1(a, b)), y.symbol(x.sextet2(b, c)), y.symbol(x.sextet3(c))]
  }

  function Read4(y: Symbols, x: Sextets, q: seq<byte>): seq<byte> {
    if |q| != 4 then [] else
      var s0, s1, s2, s3 := y.index(q[0]), y.index(q[1]), y.index(q[2]), y.index(q[3]);
      [x.byte0(s0, s1), x.byte1(s1, s2), x.byte2(s2, s3)]
  }

  function MakeCodec(y: Symbols, x: Sextets): Codec {
    Codec(
      (a, b, c) => Write3(y, x, a, b, c),
      (a, b) => (y.symbol(x.sextet0(a)), y.symbol(x.sextet1(a, b)), y.symbol(x.sextet2(b, 0))),
      a => (y.symbol(x.sextet0(a)), y.symbol(x.sextet1(a, 0))),
      q => Read4(y, x, q),
      (p, q, r) => [x.byte0(y.index(p), y.index(q)), x.byte1(y.index(q), y.index(r))],
      (p, q) => x.byte0(y.index(p), y.index(q)))
  }

  /** Groups can be read back if characters and sextets can. */
  lemma MadeCodecIsLawful(y: Symbols, x: Sextets)
    requires LawfulSymbols(y) && LawfulSextets(x)
    ensures Lawful(MakeCodec(y, x))
  {
    var k := MakeCodec(y, x);
    forall a: byte, b: byte, c: byte
      ensures |k.write3(a, b, c)| == 4 && AllSymbols(k.write3(a, b, c)) && k.read4(k.write3(a, b, c)) == [a, b, c]
    {
      assert x.byte1(x.sextet1(a, b), x.sextet2(b, c)) == b;
    }
    forall a: byte, b: byte ensures var (p, q, r) := k.write2(a, b);
      InAlphabet(p) && InAlphabet(q) && InAlphabet(r) && k.read3(p, q, r) == [a, b]
    {
      assert x.byte1(x.sextet1(a, b), x.sextet2(b, 0)) == b;
    }
    forall a: byte ensures var (p, q) := k.write1(a); InAlphabet(p) && InAlphabet(q) && k.read2(p, q) == a {
      assert x.byte1(x.sextet1(a, 0), x.sextet2(0, 0)) == 0;
    }
  }

  function Symbol(v: sextet): byte {
    if v < 26 then 65 + v
    else if v < 52 then 97 + (v - 26)
    else if v < 62 then 48 + (v - 52)
    else if v == 62 then 43
    else 47
  }

  /** The place of a character in the alphabet; 0 for any other. */
  function Index(c: byte): sextet {
    if 65 <= c <= 90 then c - 65
    else if 97 <= c <= 122 then c - 97 + 26
    else if 48 <= c <= 57 then c - 48 + 52
    else if c == 43 then 62
    else if c == 47 then 63
    else 0
  }

  function StandardSymbols(): (y: Symbols)
    ensures LawfulSymbols(y)
  {
    Symbols(v => Symbol(v), c => Index(c))
  }

  // The four sextets of three bytes, and the three bytes of four sextets.
  function Sextet0(a: byte): sextet { a / 4 }
  function Sextet1(a: byte, b: byte): (y: sextet) ensures y / 16 == a % 4 && y % 16 == b / 16 { a % 4 * 16 + b / 16 }
  function Sextet2(b: byte, c: byte): (z: sextet) ensures z / 4 == b % 16 && z % 4 == c / 64 { b % 16 * 4 + c / 64 }
  function Sextet3(c: byte): sextet { c % 64 }
  function Byte0(x: sextet, y: sextet): byte { x * 4 + y / 16 }
  function Byte1(y: sextet, z: sextet): byte { y % 16 * 16 + z / 4 }
  function Byte2(z: sextet, w: sextet): byte { z % 4 * 64 + w }

  function StandardSextets(): (x: Sextets)
    ensures LawfulSextets(x)
  {
    Sextets(a => Sextet0(a), (a, b) => Sextet1(a, b), (b, c) => Sextet2(b, c), c => Sextet3(c),
            (x, y) => Byte0(x, y), (y, z) => Byte1(y, z), (z, w) => Byte2(z, w))
  }

  /** The code of RFC 4648, which can be read back. */
  function Standard(): (k: Codec)
    ensures Lawful(k)
  {
    MadeCodecIsLawful(StandardSymbols(), StandardSextets());
    MakeCodec(StandardSymbols(), StandardSextets())
  }
}

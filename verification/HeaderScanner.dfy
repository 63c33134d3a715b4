/** Packing a payload behind a JSON header {"type":t,"session":n}, and finding the header's end again by counting
    braces outside strings (sections 4 and 6 of RFC 8259). */
module HeaderScanner {
  import opened Basics
  import opened Decimals

  const QUOTE: byte := 34
  const COMMA: byte := 44
  const BACKSLASH: byte := 92
  const OPEN: byte := 123
  const CLOSE: byte := 125

  // ---- what the scanner looks for, position by position ----

  /** The byte at `i` is escaped: an unescaped backslash stands before it. */
  predicate Escaped(s: seq<byte>, i: nat)
    requires i <= |s|
  {
    i > 0 && s[i - 1] == BACKSLASH && !Escaped(s, i - 1)
  }

  /** Number of unescaped quotes before `i`. */
  function Quotes(s: seq<byte>, i: nat): nat
    requires i <= |s|
  {
    if i == 0 then 0
    else Quotes(s, i - 1) + if s[i - 1] == QUOTE && !Escaped(s, i - 1) then 1 else 0
  }

  predicate InString(s: seq<byte>, i: nat)
    requires i <= |s|
  {
    Quotes(s, i) % 2 == 1
  }

  /** The byte at `i` counts: it is neither escaped nor inside a string. */
  predicate Counts(s: seq<byte>, i: nat)
    requires i < |s|
  {
    !Escaped(s, i) && !InString(s, i)
  }

  function Nesting(b: byte): int {
    if b == OPEN then 1 else if b == CLOSE then -1 else 0
  }

  /** Opening minus closing braces before `i` that count. */
  function Depth(s: seq<byte>, i: nat): int
    requires i <= |s|
  {
    if i == 0 then 0 else Depth(s, i - 1) + if Counts(s, i - 1) then Nesting(s[i - 1]) else 0
  }

  /** A closing brace that counts and brings the depth back to zero. */
  predicate ClosesAt(s: seq<byte>, i: nat) {
    i < |s| && s[i] == CLOSE && Counts(s, i) && Depth(s, i) == 1
  }

  /** One past the first position from `i` on where the depth comes back to zero at a closing brace, or -1. */
  function FirstEnd(s: seq<byte>, i: nat): (end: int)
    requires i <= |s|
    ensures end == -1 <==> forall k :: i <= k < |s| ==> !ClosesAt(s, k)
    ensures end != -1 ==> i < end <= |s| && ClosesAt(s, end - 1) && forall k :: i <= k < end - 1 ==> !ClosesAt(s, k)
    decreases |s| - i
  {
    if i == |s| then -1 else if ClosesAt(s, i) then i + 1 else FirstEnd(s, i + 1)
  }

  /** The defining property of the first end determines it. */
  lemma FirstEndIs(s: seq<byte>, end: int)
    requires end == -1 || (0 < end <= |s| && ClosesAt(s, end - 1))
    requires forall k :: 0 <= k < (if end == -1 then |s| else end - 1) ==> !ClosesAt(s, k)
    ensures FirstEnd(s, 0) == end
  {
  }

  method FindJSONEnd(data: seq<byte>) returns (end: int)
    ensures end == FirstEnd(data, 0)
  {
    var braceCount, inString, escape := 0, false, false;
    for i := 0 to |data|
      invariant braceCount == Depth(data, i) && inString == InString(data, i) && escape == Escaped(data, i)
      invariant forall k :: 0 <= k < i ==> !ClosesAt(data, k)
    {
      var b := data[i];
      if escape {
        escape := false;
        continue;
      }
      if b == BACKSLASH {
        escape := true;
        continue;
      }
      if b == QUOTE {
        inString := !inString;
        continue;
      }
      if inString {
        continue;
      }
      if b == OPEN {
        braceCount := braceCount + 1;
      } else if b == CLOSE {
        braceCount := braceCount - 1;
        if braceCount == 0 {
          FirstEndIs(data, i + 1);
          return i + 1;
        }
      }
    }
    FirstEndIs(data, -1);
    return -1;
  }

  // ---- the header text ----

  function Ascii(s: string): (b: seq<byte>)
    ensures |b| == |s| && forall i :: 0 <= i < |s| && s[i] < 128 as char ==> b[i] == s[i] as int
  {
    seq(|s|, i requires 0 <= i < |s| => s[i] as int % 128)
  }

  function Chars(b: seq<byte>): (s: string)
    ensures |s| == |b| && forall i :: 0 <= i < |b| ==> s[i] == b[i] as char
  {
    seq(|b|, i requires 0 <= i < |b| => b[i] as char)
  }

  const BEFORE_TYPE: string := "{\"type\":"
  const BEFORE_SESSION: string := ",\"session\":"

  function HeaderWith(kindText: string, sessionText: string): string {
    BEFORE_TYPE + (kindText + (BEFORE_SESSION + (sessionText + "}")))
  }

  function HeaderText(kind: int64, session: uint32): string {
    HeaderWith(Decimal(kind), Decimal(session))
  }

  /** Digits without leading zeros. */
  function ParseUint(s: string): Option<int> {
    if s == [] || !AllDigits(s) || (s[0] == '0' && |s| > 1) then None else Some(Value(s))
  }

  /** A JSON integer: an optional minus sign and digits without leading zeros. */
  function ParseInt(s: string): Option<int> {
    if s == [] || s[0] != '-' then ParseUint(s) else
      match ParseUint(s[1..])
      case None => None
      case Some(v) => Some(-v)
  }

  function IndexOf(s: string, c: char): (k: nat)
    ensures k <= |s| && (k < |s| ==> s[k] == c) && forall i :: 0 <= i < k ==> s[i] != c
  {
    if s == [] || s[0] == c then 0 else IndexOf(s[1..], c) + 1
  }

  /** Reads a header as PackMessage writes it, with the ranges of an int and a uint32. */
  function ParseHeader(s: string): Option<(int64, uint32)> {
    if BEFORE_TYPE <= s then ParseBody(s[|BEFORE_TYPE|..], BEFORE_SESSION) else None
  }

  function ParseBody(body: string, separator: string): Option<(int64, uint32)> {
    var k := IndexOf(body, ',');
    if separator <= body[k..] then ParseNumbers(body[..k], body[k..][|separator|..]) else None
  }

  function ParseNumbers(kindText: string, rest: string): Option<(int64, uint32)> {
    if rest == [] || rest[|rest| - 1] != '}' then None else
      var kind, session := ParseInt(kindText), ParseUint(rest[..|rest| - 1]);
      if kind.None? || session.None? || !(-TWO_63 <= kind.value < TWO_63) || session.value >= TWO_32 then None
      else Some((kind.value, session.value))
  }

  lemma DecimalParses(n: int)
    ensures ParseInt(Decimal(n)) == Some(n)
    ensures n >= 0 ==> ParseUint(Decimal(n)) == Some(n)
  {
    var m := if n < 0 then -n else n;
    ValueOfDigits(m);
    NoLeadingZero(m);
    if n < 0 { assert ("-" + Digits(m))[1..] == Digits(m); }
  }

  /** Numbers are read only as they are printed, except that -0 is read as 0. */
  lemma OnlyDecimalsParse(s: string, n: int)
    ensures ParseInt(s) == Some(n) <==> s == Decimal(n) || (n == 0 && s == "-0")
    ensures n >= 0 ==> (ParseUint(s) == Some(n) <==> s == Decimal(n))
  {
    DecimalParses(n);
    if ParseUint(s).Some? { DigitsOfValue(s); }
    if s != [] && s[0] == '-' {
      assert s == "-" + s[1..];
      if ParseUint(s[1..]).Some? {
        DigitsOfValue(s[1..]);
        if n == 0 { assert Digits(0) == "0"; }
      }
    }
  }

  predicate PlainChar(c: char) {
    IsDigit(c) || c == '-'
  }

  lemma DecimalIsPlain(n: int)
    ensures forall i :: 0 <= i < |Decimal(n)| ==> PlainChar(Decimal(n)[i])
  {
  }

  lemma Strip<T>(a: seq<T>, b: seq<T>)
    ensures a <= a + b && (a + b)[..|a|] == a && (a + b)[|a|..] == b
  {
  }

  lemma {:induction false} IndexAfter(t: string, rest: string, c: char)
    requires c !in t && rest != [] && rest[0] == c
    ensures IndexOf(t + rest, c) == |t|
  {
    if t == [] {
      assert t + rest == rest;
    } else {
      assert (t + rest)[1..] == t[1..] + rest;
      IndexAfter(t[1..], rest, c);
    }
  }

  lemma BodyParses(t: string, separator: string, rest: string)
    requires ',' !in t && separator != [] && separator[0] == ','
    ensures ParseBody(t + (separator + rest), separator) == ParseNumbers(t, rest)
  {
    IndexAfter(t, separator + rest, ',');
    Strip(t, separator + rest);
    Strip(separator, rest);
  }

  lemma HeaderWithParses(t: string, n: string)
    requires ',' !in t
    ensures ParseHeader(HeaderWith(t, n)) == ParseNumbers(t, n + "}")
  {
    Strip(BEFORE_TYPE, t + (BEFORE_SESSION + (n + "}")));
    BodyParses(t, BEFORE_SESSION, n + "}");
    Strip(n, "}");
  }

  lemma HeaderParses(kind: int64, session: uint32)
    ensures ParseHeader(HeaderText(kind, session)) == Some((kind, session))
  {
    DecimalIsPlain(kind);
    HeaderWithParses(Decimal(kind), Decimal(session));
    DecimalParses(kind);
    DecimalParses(session);
  }

  /** Whatever is read as a body consists of the two numbers in their places. */
  lemma BodyHasParts(body: string, separator: string) returns (t: string, n: string)
    requires ParseBody(body, separator).Some?
    ensures body == t + (separator + (n + "}")) && ',' !in t
  {
    var k := IndexOf(body, ',');
    var rest := body[k..][|separator|..];
    t, n := body[..k], rest[..|rest| - 1];
    assert rest == n + "}";
    assert body[k..] == separator + rest;
  }

  lemma ParsedHasParts(s: string) returns (t: string, n: string)
    requires ParseHeader(s).Some?
    ensures s == HeaderWith(t, n) && ',' !in t
  {
    t, n := BodyHasParts(s[|BEFORE_TYPE|..], BEFORE_SESSION);
    assert s == BEFORE_TYPE + s[|BEFORE_TYPE|..];
  }

  lemma OnlyPrintedNumbersParse(t: string, n: string, kind: int64, session: uint32)
    requires ParseNumbers(t, n + "}") == Some((kind, session))
    ensures (t == Decimal(kind) || (kind == 0 && t == "-0")) && n == Decimal(session)
  {
    Strip(n, "}");
    OnlyDecimalsParse(t, kind);
    OnlyDecimalsParse(n, session);
  }

  lemma MinusZeroParses(session: uint32)
    ensures ParseHeader(HeaderWith("-0", Decimal(session))) == Some((0, session))
  {
    HeaderWithParses("-0", Decimal(session));
    Strip(Decimal(session), "}");
    OnlyDecimalsParse("-0", 0);
    DecimalParses(session);
  }

  /** A header is read as a type and a session exactly if it is the one printed for them, or prints a type of 0 as -0. */
  lemma OnlyPrintedHeadersParse(s: string, kind: int64, session: uint32)
    ensures ParseHeader(s) == Some((kind, session)) <==>
              s == HeaderText(kind, session) || (kind == 0 && s == HeaderWith("-0", Decimal(session)))
  {
    HeaderParses(kind, session);
    MinusZeroParses(session);
    if ParseHeader(s) == Some((kind, session)) {
      var t, n := ParsedHasParts(s);
      HeaderWithParses(t, n);
      OnlyPrintedNumbersParse(t, n, kind, session);
    }
  }

  // ---- packing and unpacking ----

  function Header(kind: int64, session: uint32): seq<byte> {
    Ascii(HeaderText(kind, session))
  }

  function Packed(kind: int64, session: uint32, data: seq<byte>): seq<byte> {
    Header(kind, session) + data
  }

  method PackMessage(kind: int64, session: uint32, data: seq<byte>) returns (result: array<byte>)
    ensures fresh(result) && result[..] == Packed(kind, session, data)
  {
    result := Join(Header(kind, session), data);
  }

  method Join(header: seq<byte>, data: seq<byte>) returns (result: array<byte>)
    ensures fresh(result) && result[..] == header + data
  {
    result := new byte[|header| + |data|];
    for i := 0 to |header|
      invariant forall k :: 0 <= k < i ==> result[k] == header[k]
    {
      result[i] := header[i];
    }
    for i := 0 to |data|
      invariant forall k :: 0 <= k < |header| ==> result[k] == header[k]
      invariant forall k :: 0 <= k < i ==> result[|header| + k] == data[k]
    {
      result[|header| + i] := data[i];
    }
  }

  datatype Unpacking = Invalid | BadHeader | Unpacked(kind: int64, session: uint32, data: seq<byte>)

  /** The header up to its end, and everything after it. */
  function Unpack(s: seq<byte>): Unpacking {
    var end := FirstEnd(s, 0);
    if end == -1 then Invalid else Read(ParseHeader(Chars(s[..end])), s[end..])
  }

  /** What comes out for a header as it was read, and the bytes after it. */
  function Read(header: Option<(int64, uint32)>, data: seq<byte>): Unpacking {
    if header.None? then BadHeader else Unpacked(header.value.0, header.value.1, data)
  }

  method UnpackMessage(data: seq<byte>) returns (r: Unpacking)
    ensures r == Unpack(data)
  {
    var headerEnd := FindJSONEnd(data);
    if headerEnd == -1 { return Invalid; }
    var pkg := ParseHeader(Chars(data[..headerEnd]));
    if pkg.None? { return BadHeader; }
    return Unpacked(pkg.value.0, pkg.value.1, data[headerEnd..]);
  }

  /** Bytes the scanner passes over. */
  predicate Inert(b: byte) {
    b != QUOTE && b != BACKSLASH && b != OPEN && b != CLOSE
  }

  /** Over inert bytes nothing changes. */
  lemma {:induction false} Pass(s: seq<byte>, i: nat, j: nat)
    requires i <= j <= |s| && forall k :: i <= k < j ==> Inert(s[k])
    requires !Escaped(s, i)
    ensures !Escaped(s, j) && Quotes(s, j) == Quotes(s, i) && Depth(s, j) == Depth(s, i)
  {
    if i < j { Pass(s, i, j - 1); }
  }

  /** The four delimiters of a header: quotes around a name, opened at depth one. */
  lemma PassName(s: seq<byte>, i: nat, j: nat)
    requires i < j < |s| && s[i] == QUOTE && s[j] == QUOTE && forall k :: i < k < j ==> Inert(s[k])
    requires !Escaped(s, i) && Quotes(s, i) % 2 == 0
    ensures !Escaped(s, j + 1) && Quotes(s, j + 1) % 2 == 0 && Depth(s, j + 1) == Depth(s, i)
  {
    Pass(s, i + 1, j);
  }

  /** What a header looks like to the scanner, with `a` and `b` the lengths of the two numbers. */
  ghost predicate Shape(s: seq<byte>, a: nat, b: nat) {
    && |s| >= 20 + a + b
    && s[0] == OPEN && s[1] == QUOTE && s[6] == QUOTE && s[9 + a] == QUOTE && s[17 + a] == QUOTE && s[19 + a + b] == CLOSE
    && forall k :: 0 < k < 19 + a + b && k != 1 && k != 6 && k != 9 + a && k != 17 + a ==> Inert(s[k])
  }

  lemma AfterOpening(s: seq<byte>)
    requires s != [] && s[0] == OPEN
    ensures Depth(s, 1) == 1 && Quotes(s, 1) == 0 && !Escaped(s, 1)
  {
    assert !Escaped(s, 0) && Quotes(s, 0) == 0 && Depth(s, 0) == 0;
  }

  /** A header closes at its last byte and nowhere before. */
  lemma ShapeEnds(s: seq<byte>, a: nat, b: nat)
    requires Shape(s, a, b)
    ensures FirstEnd(s, 0) == 20 + a + b
  {
    AfterOpening(s);
    PassName(s, 1, 6);
    Pass(s, 7, 9 + a);
    PassName(s, 9 + a, 17 + a);
    Pass(s, 18 + a, 19 + a + b);
    assert ClosesAt(s, 19 + a + b);
    assert forall k :: 0 <= k < 19 + a + b ==> s[k] != CLOSE;
  }

  /** A header assembled from its two fixed parts and two inert numbers. */
  lemma AssembledShape(p: seq<byte>, t: seq<byte>, q: seq<byte>, n: seq<byte>, data: seq<byte>)
    requires |p| == 8 && p[0] == OPEN && p[1] == QUOTE && p[6] == QUOTE
    requires forall k :: 1 < k < 8 && k != 6 ==> Inert(p[k])
    requires |q| == 11 && q[1] == QUOTE && q[9] == QUOTE
    requires forall k :: 0 <= k < 11 && k != 1 && k != 9 ==> Inert(q[k])
    requires AllInert(t) && AllInert(n)
    ensures Shape(p + (t + (q + (n + [CLOSE]))) + data, |t|, |n|)
  {
    var s := p + (t + (q + (n + [CLOSE]))) + data;
    assert forall k :: 0 <= k < 8 ==> s[k] == p[k];
    assert forall k :: 0 <= k < |t| ==> s[8 + k] == t[k];
    assert forall k :: 0 <= k < 11 ==> s[8 + |t| + k] == q[k];
    assert forall k :: 0 <= k < |n| ==> s[19 + |t| + k] == n[k];
    forall k | 0 < k < 19 + |t| + |n| && k != 1 && k != 6 && k != 9 + |t| && k != 17 + |t| ensures Inert(s[k]) {
      if 8 <= k < 8 + |t| { assert s[k] == t[k - 8]; }
      else if 8 + |t| <= k < 19 + |t| { assert s[k] == q[k - 8 - |t|]; }
      else if 19 + |t| <= k { assert s[k] == n[k - 19 - |t|]; }
    }
  }

  predicate AllInert(b: seq<byte>) {
    forall k :: 0 <= k < |b| ==> Inert(b[k])
  }

  lemma AsciiConcat(a: string, b: string)
    ensures Ascii(a + b) == Ascii(a) + Ascii(b)
  {
  }

  lemma DecimalIsInert(n: int)
    ensures AllInert(Ascii(Decimal(n)))
  {
    DecimalIsPlain(n);
  }

  predicate IsAscii(s: string) {
    forall i :: 0 <= i < |s| ==> s[i] < 128 as char
  }

  lemma AsciiChars(s: string)
    requires IsAscii(s)
    ensures Chars(Ascii(s)) == s
  {
  }

  lemma HeaderAssembled(kind: int64, session: uint32)
    ensures Header(kind, session) ==
            Ascii(BEFORE_TYPE) + (Ascii(Decimal(kind)) + (Ascii(BEFORE_SESSION) + (Ascii(Decimal(session)) + [CLOSE])))
  {
    var t, n := Decimal(kind), Decimal(session);
    AsciiConcat(n, "}");
    AsciiConcat(BEFORE_SESSION, n + "}");
    AsciiConcat(t, BEFORE_SESSION + (n + "}"));
    AsciiConcat(BEFORE_TYPE, t + (BEFORE_SESSION + (n + "}")));
  }

  lemma HeaderIsAscii(kind: int64, session: uint32)
    ensures IsAscii(HeaderText(kind, session))
  {
    DecimalIsPlain(kind);
    DecimalIsPlain(session);
    assert IsAscii(BEFORE_TYPE) && IsAscii(BEFORE_SESSION);
    AsciiJoin(Decimal(session), "}");
    AsciiJoin(BEFORE_SESSION, Decimal(session) + "}");
    AsciiJoin(Decimal(kind), BEFORE_SESSION + (Decimal(session) + "}"));
    AsciiJoin(BEFORE_TYPE, Decimal(kind) + (BEFORE_SESSION + (Decimal(session) + "}")));
  }

  lemma MinusZeroIsAscii(session: uint32)
    ensures IsAscii(HeaderWith("-0", Decimal(session)))
  {
    DecimalIsPlain(session);
    assert IsAscii(BEFORE_TYPE) && IsAscii(BEFORE_SESSION);
    AsciiJoin(Decimal(session), "}");
    AsciiJoin(BEFORE_SESSION, Decimal(session) + "}");
    AsciiJoin("-0", BEFORE_SESSION + (Decimal(session) + "}"));
    AsciiJoin(BEFORE_TYPE, "-0" + (BEFORE_SESSION + (Decimal(session) + "}")));
  }

  lemma AsciiJoin(a: string, b: string)
    requires IsAscii(a) && IsAscii(b)
    ensures IsAscii(a + b)
  {
  }

  lemma HeaderShape(kind: int64, session: uint32, data: seq<byte>)
    ensures Shape(Packed(kind, session, data), |Decimal(kind)|, |Decimal(session)|)
    ensures |Header(kind, session)| == 20 + |Decimal(kind)| + |Decimal(session)|
  {
    HeaderAssembled(kind, session);
    DecimalIsInert(kind);
    DecimalIsInert(session);
    AssembledShape(Ascii(BEFORE_TYPE), Ascii(Decimal(kind)), Ascii(BEFORE_SESSION), Ascii(Decimal(session)), data);
  }

  /** For every type, session and payload, unpacking gives back the same three values, whatever the payload contains. */
  lemma UnpackPack(kind: int64, session: uint32, data: seq<byte>)
    ensures Unpack(Packed(kind, session, data)) == Unpacked(kind, session, data)
  {
    var s, h := Packed(kind, session, data), Header(kind, session);
    HeaderShape(kind, session, data);
    ShapeEnds(s, |Decimal(kind)|, |Decimal(session)|);
    Strip(h, data);
    HeaderIsAscii(kind, session);
    AsciiChars(HeaderText(kind, session));
    HeaderParses(kind, session);
  }

  /** And whatever unpacks is a packed message, or one that prints its type 0 as -0. */
  lemma OnlyPackedUnpacks(s: seq<byte>)
    requires Unpack(s).Unpacked?
    ensures var u := Unpack(s);
      s == Packed(u.kind, u.session, u.data) || (u.kind == 0 && s == Ascii(HeaderWith("-0", Decimal(u.session))) + u.data)
  {
    var h := UnpackedParts(s, Unpack(s));
    HeaderIsPrinted(h, Unpack(s).kind, Unpack(s).session);
  }

  lemma UnpackedParts(s: seq<byte>, u: Unpacking) returns (h: seq<byte>)
    requires u == Unpack(s) && u.Unpacked?
    ensures s == h + u.data && ParseHeader(Chars(h)) == Some((u.kind, u.session))
  {
    var end := FirstEnd(s, 0);
    h := s[..end];
    assert u == Read(ParseHeader(Chars(h)), s[end..]);
  }

  lemma HeaderIsPrinted(h: seq<byte>, kind: int64, session: uint32)
    requires ParseHeader(Chars(h)) == Some((kind, session))
    ensures h == Header(kind, session) || (kind == 0 && h == Ascii(HeaderWith("-0", Decimal(session))))
  {
    OnlyPrintedHeadersParse(Chars(h), kind, session);
    if Chars(h) == HeaderText(kind, session) { HeaderIsAscii(kind, session); } else { MinusZeroIsAscii(session); }
    CharsAscii(h);
  }

  /** Which error is reported: invalid exactly without an end, and a bad header exactly if what ends first is no header. */
  lemma UnpackErrors(s: seq<byte>, end: nat)
    ensures Unpack(s) == Invalid <==> forall k :: 0 <= k < |s| ==> !ClosesAt(s, k)
    ensures end < |s| && ClosesAt(s, end) && (forall k :: 0 <= k < end ==> !ClosesAt(s, k)) ==>
      (Unpack(s) == BadHeader <==> ParseHeader(Chars(s[..end + 1])).None?)
  {
    if end < |s| && ClosesAt(s, end) && (forall k :: 0 <= k < end ==> !ClosesAt(s, k)) { FirstEndIs(s, end + 1); }
  }

  lemma CharsAscii(b: seq<byte>)
    requires IsAscii(Chars(b))
    ensures Ascii(Chars(b)) == b
  {
  }

  // ---- what stands inside strings ----

  /** A text as a JSON string: quotes and backslashes escaped. */
  function Quoted(t: seq<byte>): seq<byte> {
    [QUOTE] + EscapedText(t) + [QUOTE]
  }

  function EscapedText(t: seq<byte>): seq<byte> {
    if t == [] then [] else
      EscapedText(t[..|t| - 1]) + (if t[|t| - 1] == QUOTE || t[|t| - 1] == BACKSLASH then [BACKSLASH] else []) + [t[|t| - 1]]
  }

  /** The scanner stands inside a string at `j`, no deeper than at `i`, and has not seen an end since. */
  ghost predicate InsideSince(s: seq<byte>, i: nat, j: nat) {
    && i <= j <= |s| && !Escaped(s, j) && Quotes(s, j) == Quotes(s, i) && InString(s, i) && Depth(s, j) == Depth(s, i)
    && forall k :: i <= k < j ==> !ClosesAt(s, k)
  }

  /** Escaped text inside a string leaves everything as it is, whatever braces, quotes and backslashes it has. */
  lemma {:induction false} PassText(s: seq<byte>, i: nat, t: seq<byte>)
    requires i + |EscapedText(t)| <= |s| && s[i..i + |EscapedText(t)|] == EscapedText(t)
    requires !Escaped(s, i) && InString(s, i)
    ensures InsideSince(s, i, i + |EscapedText(t)|)
  {
    if t != [] {
      var front, last, j := EscapedText(t[..|t| - 1]), t[|t| - 1], i + |EscapedText(t)|;
      var pair := last == QUOTE || last == BACKSLASH;
      PieceOfText(s, i, j, front, if pair then [BACKSLASH] else [], last);
      PassText(s, i, t[..|t| - 1]);
      if pair {
        PassPair(s, i, j - 2);
      } else {
        PassOne(s, i, j - 1);
      }
    }
  }

  lemma PieceOfText(s: seq<byte>, i: nat, j: nat, front: seq<byte>, escape: seq<byte>, last: byte)
    requires i <= j <= |s| && s[i..j] == front + escape + [last] && |escape| <= 1
    ensures i + |front| <= j && s[i..i + |front|] == front && s[j - 1] == last && (|escape| == 1 ==> s[j - 2] == escape[0])
  {
    assert s[i..i + |front|] == s[i..j][..|front|];
    assert s[j - 1] == s[i..j][j - 1 - i];
    if |escape| == 1 { assert s[j - 2] == s[i..j][j - 2 - i]; }
  }

  lemma PassOne(s: seq<byte>, i: nat, j: nat)
    requires j < |s| && InsideSince(s, i, j) && s[j] != QUOTE && s[j] != BACKSLASH
    ensures InsideSince(s, i, j + 1)
  {
  }

  lemma PassPair(s: seq<byte>, i: nat, j: nat)
    requires j + 1 < |s| && InsideSince(s, i, j) && s[j] == BACKSLASH
    ensures InsideSince(s, i, j + 2)
  {
    assert Escaped(s, j + 1) && Quotes(s, j + 1) == Quotes(s, j) && Depth(s, j + 1) == Depth(s, j);
  }

  /** An object with one string in it ends at its own brace, whatever text the string holds and whatever follows. */
  lemma StringsHideBraces(t: seq<byte>, data: seq<byte>)
    ensures FirstEnd([OPEN] + Quoted(t) + [CLOSE] + data, 0) == |Quoted(t)| + 2
  {
    var x := EscapedText(t);
    var s := [OPEN] + Quoted(t) + [CLOSE] + data;
    QuotedPieces(x, data);
    AfterOpening(s);
    PassText(s, 2, t);
    ClosesAfterString(s, |x|);
  }

  lemma QuotedPieces(x: seq<byte>, data: seq<byte>)
    ensures var s := [OPEN] + ([QUOTE] + x + [QUOTE]) + [CLOSE] + data;
      |s| >= |x| + 4 && s[0] == OPEN && s[1] == QUOTE && s[2..2 + |x|] == x && s[2 + |x|] == QUOTE && s[3 + |x|] == CLOSE
  {
  }

  lemma ClosesAfterString(s: seq<byte>, n: nat)
    requires |s| >= n + 4 && s[0] == OPEN && s[1] == QUOTE && s[2 + n] == QUOTE && s[3 + n] == CLOSE
    requires Depth(s, 1) == 1 && Quotes(s, 2) == 1 && Depth(s, 2) == 1 && InsideSince(s, 2, 2 + n)
    ensures FirstEnd(s, 0) == n + 4
  {
    assert Counts(s, 3 + n) && Depth(s, 3 + n) == 1;
    assert ClosesAt(s, 3 + n);
  }
}

/** The login handshake between an honest client and the login server, up to the authentication handler. */
module Login {
  import opened Basics
  import opened Sequences
  import opened KeyExchange
  import opened BlockCipherMode
  import Base64

  type Codec = Base64.Codec

  type Bytes = seq<byte>

  const NEWLINE: byte := 10
  const AT: byte := 64
  const COLON: byte := 58
  const READ_SIZE: nat := 1024

  /** "password", the only one the example server accepts. */
  const PASSWORD: Bytes := [112, 97, 115, 115, 119, 111, 114, 100]

  /** The library primitives, kept abstract: a block cipher, an HMAC taking key and message, and how base64 writes groups. */
  datatype Crypto = Crypto(cipher: BlockCipher, hmac: (Bytes, Bytes) -> Bytes, base64: Codec)

  ghost predicate HmacSized(c: Crypto) {
    forall k: Bytes, m: Bytes {:trigger c.hmac(k, m)} :: |c.hmac(k, m)| == 20
  }

  ghost predicate LawfulCrypto(c: Crypto) {
    Lawful(c.cipher) && KeepsBlocks(c.cipher) && HmacSized(c) && Base64.Lawful(c.base64)
  }

  function Hmac64(c: Crypto, challenge: Bytes, secret: Bytes): Bytes
    requires |c.hmac(secret, challenge)| >= 8
  {
    c.hmac(secret, challenge)[..8]
  }

  // ---- lines ----

  predicate IsSpace(b: byte) {
    9 <= b <= 13 || b == 32
  }

  function TrimLeft(s: Bytes): Bytes {
    if s != [] && IsSpace(s[0]) then TrimLeft(s[1..]) else s
  }

  function TrimRight(s: Bytes): Bytes {
    if s != [] && IsSpace(s[|s| - 1]) then TrimRight(s[..|s| - 1]) else s
  }

  function TrimSpace(s: Bytes): Bytes {
    TrimRight(TrimLeft(s))
  }

  function Line(k: Codec, b: Bytes): Bytes {
    Base64.Encode(k, b) + [NEWLINE]
  }

  /** What a single Read into a 1024-byte buffer yields of a line written at once. */
  function FirstRead(packet: Bytes): Bytes {
    packet[..if |packet| <= READ_SIZE then |packet| else READ_SIZE]
  }

  /** ASCII white space: tab, line feed, vertical tab, form feed, carriage return and blank. */
  predicate White(b: byte) {
    b == 9 || b == 10 || b == 11 || b == 12 || b == 13 || b == 32
  }

  predicate AllWhite(s: Bytes) {
    forall i :: 0 <= i < |s| ==> White(s[i])
  }

  lemma {:induction false} TrimLeftWhite(a: Bytes, t: Bytes)
    requires AllWhite(a) && (t != [] ==> !White(t[0]))
    ensures TrimLeft(a + t) == t
  {
    if a == [] {
      assert a + t == t;
    } else {
      assert (a + t)[0] == a[0] && (a + t)[1..] == a[1..] + t;
      TrimLeftWhite(a[1..], t);
    }
  }

  lemma {:induction false} TrimRightWhite(t: Bytes, b: Bytes)
    requires AllWhite(b) && (t != [] ==> !White(t[|t| - 1]))
    ensures TrimRight(t + b) == t
  {
    if b == [] {
      assert t + b == t;
    } else {
      var front := b[..|b| - 1];
      assert b == front + [b[|b| - 1]];
      Snoc(t, front, b[|b| - 1]);
      TrimRightWhite(t, front);
    }
  }

  lemma Snoc(t: Bytes, front: Bytes, last: byte)
    ensures var s := t + (front + [last]); s != [] && s[|s| - 1] == last && s[..|s| - 1] == t + front
  {
  }

  /** Trimming takes off all white space at both ends, and nothing else. */
  lemma TrimIsExact(a: Bytes, t: Bytes, b: Bytes)
    requires AllWhite(a) && AllWhite(b) && (t != [] ==> !White(t[0]) && !White(t[|t| - 1]))
    ensures TrimSpace(a + (t + b)) == t
  {
    if t == [] {
      assert a + (t + b) == (a + b) + [];
      TrimLeftWhite(a + b, []);
    } else {
      TrimLeftWhite(a, t + b);
      TrimRightWhite(t, b);
    }
  }

  lemma TrimCleanLine(t: Bytes)
    requires Base64.Clean(t)
    ensures TrimSpace(t) == t && TrimSpace(t + [NEWLINE]) == t
  {
    assert (t + [NEWLINE])[..|t|] == t;
    if t != [] {
      assert (t + [NEWLINE])[0] == t[0];
      assert TrimLeft(t + [NEWLINE]) == t + [NEWLINE];
    } else {
      assert (t + [NEWLINE])[1..] == [];
    }
  }

  /** Trimmed base64 text, with or without its newline, decodes to the bytes. */
  lemma DecodeLine(k: Codec, b: Bytes)
    requires Base64.Lawful(k)
    ensures Base64.Decode(k, TrimSpace(Base64.Encode(k, b))) == Some(b)
    ensures Base64.Decode(k, TrimSpace(Line(k, b))) == Some(b)
  {
    Base64.EncodeIsClean(k, b);
    TrimCleanLine(Base64.Encode(k, b));
    Base64.RoundTrip(k, b);
  }

  /** How much of `b` one Read of its line carries. */
  function Kept(b: Bytes): Bytes {
    if |b| <= 768 then b else b[..768]
  }

  /** One Read yields the whole line, or the encoding of the first 768 bytes. */
  lemma FirstReadOfLine(k: Codec, b: Bytes)
    requires Base64.Lawful(k)
    ensures |b| <= 765 ==> |Line(k, b)| <= READ_SIZE && FirstRead(Line(k, b)) == Line(k, b)
    ensures |b| > 765 ==> FirstRead(Line(k, b)) == Base64.Encode(k, Kept(b))
  {
    var e := Base64.Encode(k, b);
    Base64.EncodeLength(k, b);
    LineLength(|b|);
    CutLine(e);
    if |b| > 768 {
      Base64.EncodePrefix(k, b, 256);
    } else if |b| > 765 {
      assert e[..READ_SIZE] == e;
    }
  }

  lemma LineLength(n: nat)
    ensures var e := (n + 2) / 3 * 4;
      && (n <= 765 ==> e < READ_SIZE) && (765 < n <= 768 ==> e == READ_SIZE) && (n > 768 ==> e > READ_SIZE)
      && (n == 8 ==> e == 12) && (n > 0 ==> e > 0)
  {
  }

  lemma CutLine(e: Bytes)
    ensures FirstRead(e + [NEWLINE]) == if |e| < READ_SIZE then e + [NEWLINE] else e[..READ_SIZE]
  {
  }

  lemma ReadLine(k: Codec, b: Bytes)
    requires Base64.Lawful(k)
    ensures Base64.Decode(k, TrimSpace(FirstRead(Line(k, b)))) == Some(Kept(b))
  {
    FirstReadOfLine(k, b);
    DecodeLine(k, Kept(b));
  }

  // ---- the token ----

  function Join(u: Bytes, s: Bytes, p: Bytes): Bytes {
    u + [AT] + (s + [COLON] + p)
  }

  function Token(k: Codec, user: Bytes, server: Bytes, password: Bytes): Bytes {
    Join(Base64.Encode(k, user), Base64.Encode(k, server), Base64.Encode(k, password))
  }

  function Split(s: Bytes, sep: byte): (parts: seq<Bytes>)
    ensures |parts| > 0
  {
    if s == [] then [[]]
    else
      var rest := Split(s[1..], sep);
      if s[0] == sep then [[]] + rest else [[s[0]] + rest[0]] + rest[1..]
  }

  lemma {:induction false} SplitNone(s: Bytes, sep: byte)
    requires sep !in s
    ensures Split(s, sep) == [s]
  {
    if s != [] {
      SplitNone(s[1..], sep);
      assert s == [s[0]] + s[1..];
    }
  }

  lemma {:induction false} SplitOnce(a: Bytes, sep: byte, b: Bytes)
    requires sep !in a && sep !in b
    ensures Split(a + [sep] + b, sep) == [a, b]
  {
    var s := a + [sep] + b;
    if a == [] {
      assert s[1..] == b;
      SplitNone(b, sep);
    } else {
      assert s[1..] == a[1..] + [sep] + b;
      SplitOnce(a[1..], sep, b);
      assert a == [a[0]] + a[1..];
    }
  }

  datatype AuthError = InvalidFormat | InvalidUser | InvalidServer | InvalidPasswordEncoding | WrongPassword | UnknownServer

  datatype Credentials = Credentials(user: Bytes, server: Bytes, password: Bytes)

  /** The part of AuthHandler that takes a token apart. */
  function ParseToken(k: Codec, token: Bytes): Result<Credentials, AuthError> {
    var parts := Split(token, AT);
    if |parts| != 2 then Err(InvalidFormat) else
      var tail := Split(parts[1], COLON);
      if |tail| != 2 then Err(InvalidFormat) else
        var user, server, password := Base64.Decode(k, parts[0]), Base64.Decode(k, tail[0]), Base64.Decode(k, tail[1]);
        if user.None? then Err(InvalidUser)
        else if server.None? then Err(InvalidServer)
        else if password.None? then Err(InvalidPasswordEncoding)
        else Ok(Credentials(user.value, server.value, password.value))
  }

  /** The (server, user) a token logs in to, given the registered game servers. */
  function AuthHandler(k: Codec, gameServers: set<Bytes>, token: Bytes): Result<(Bytes, Bytes), AuthError> {
    match ParseToken(k, token)
    case Err(e) => Err(e)
    case Ok(c) =>
      if c.password != PASSWORD then Err(WrongPassword)
      else if c.server !in gameServers then Err(UnknownServer)
      else Ok((c.server, c.user))
  }

  lemma CleanHasNoSeparators(t: Bytes)
    requires Base64.Clean(t)
    ensures AT !in t && COLON !in t
  {
  }

  /** Splitting and decoding the token recovers the three strings, whatever they are. */
  lemma TokenRoundTrip(k: Codec, user: Bytes, server: Bytes, password: Bytes)
    requires Base64.Lawful(k)
    ensures ParseToken(k, Token(k, user, server, password)) == Ok(Credentials(user, server, password))
  {
    var u, s, p := Base64.Encode(k, user), Base64.Encode(k, server), Base64.Encode(k, password);
    Base64.EncodeIsClean(k, user);
    Base64.EncodeIsClean(k, server);
    Base64.EncodeIsClean(k, password);
    CleanHasNoSeparators(u);
    CleanHasNoSeparators(s);
    CleanHasNoSeparators(p);
    SplitOnce(u, AT, s + [COLON] + p);
    SplitOnce(s, COLON, p);
    Base64.RoundTrip(k, user);
    Base64.RoundTrip(k, server);
    Base64.RoundTrip(k, password);
  }

  /** No byte could be taken for padding. */
  predicate IsText(t: Bytes) {
    forall i :: 0 <= i < |t| ==> t[i] > 8
  }

  /** No byte of a token could be taken for padding. */
  lemma TokenSurvives(k: Codec, user: Bytes, server: Bytes, password: Bytes)
    requires Base64.Lawful(k)
    ensures var t := Token(k, user, server, password); t != [] && IsText(t)
  {
    Base64.EncodeIsClean(k, user);
    Base64.EncodeIsClean(k, server);
    Base64.EncodeIsClean(k, password);
    JoinIsText(Base64.Encode(k, user), Base64.Encode(k, server), Base64.Encode(k, password));
  }

  lemma JoinIsText(u: Bytes, s: Bytes, p: Bytes)
    requires Base64.Clean(u) && Base64.Clean(s) && Base64.Clean(p)
    ensures Join(u, s, p) != [] && IsText(Join(u, s, p))
  {
  }

  // ---- the verdict on any token ----

  lemma {:induction false} SplitJoins(s: Bytes, sep: byte)
    ensures |Split(s, sep)| == 1 <==> sep !in s
    ensures |Split(s, sep)| == 2 ==>
      var p := Split(s, sep); s == p[0] + [sep] + p[1] && sep !in p[0] && sep !in p[1]
    ensures |Split(s, sep)| == 1 ==> Split(s, sep) == [s]
  {
    if s != [] {
      SplitJoins(s[1..], sep);
      assert s == [s[0]] + s[1..];
      var rest := Split(s[1..], sep);
      if |rest| == 2 && s[0] != sep { assert [s[0]] + rest[0] + [sep] + rest[1] == [s[0]] + (rest[0] + [sep] + rest[1]); }
    }
  }

  /** A token in three parts, with no separator where the split would see one. */
  predicate ThreeParts(token: Bytes, u: Bytes, s: Bytes, p: Bytes) {
    token == Join(u, s, p) && AT !in u && AT !in s && AT !in p && COLON !in s && COLON !in p
  }

  /** The handler's verdict on any token in three parts: the first part that is wrong decides. */
  lemma VerdictOnParts(k: Codec, gameServers: set<Bytes>, token: Bytes, u: Bytes, s: Bytes, p: Bytes)
    requires ThreeParts(token, u, s, p)
    ensures var user, server, password := Base64.Decode(k, u), Base64.Decode(k, s), Base64.Decode(k, p);
            var verdict := AuthHandler(k, gameServers, token);
      && (verdict == Err(InvalidUser) <==> user.None?)
      && (verdict == Err(InvalidServer) <==> user.Some? && server.None?)
      && (verdict == Err(InvalidPasswordEncoding) <==> user.Some? && server.Some? && password.None?)
      && (user.Some? && server.Some? && password.Some? ==>
            && (verdict == Err(WrongPassword) <==> password.value != PASSWORD)
            && (verdict == Err(UnknownServer) <==> password.value == PASSWORD && server.value !in gameServers)
            && (verdict == Ok((server.value, user.value)) <==> password.value == PASSWORD && server.value in gameServers))
  {
    PartsAreFound(token, u, s, p);
  }

  /** Any other token is refused as malformed. */
  lemma OnlyThreePartsAreJudged(k: Codec, gameServers: set<Bytes>, token: Bytes)
    returns (found: bool, u: Bytes, s: Bytes, p: Bytes)
    ensures AuthHandler(k, gameServers, token) == Err(InvalidFormat) <==> !found
    ensures if found then ThreeParts(token, u, s, p) else forall u, s, p :: !ThreeParts(token, u, s, p)
  {
    var parts := Split(token, AT);
    SplitJoins(token, AT);
    found, u, s, p := false, [], [], [];
    if |parts| == 2 {
      var tail := Split(parts[1], COLON);
      SplitJoins(parts[1], COLON);
      if |tail| == 2 { found, u, s, p := true, parts[0], tail[0], tail[1]; }
    }
    if !found {
      forall u, s, p ensures !ThreeParts(token, u, s, p) {
        if ThreeParts(token, u, s, p) { PartsAreFound(token, u, s, p); }
      }
    }
  }

  lemma PartsAreFound(token: Bytes, u: Bytes, s: Bytes, p: Bytes)
    requires ThreeParts(token, u, s, p)
    ensures Split(token, AT) == [u, s + [COLON] + p] && Split(s + [COLON] + p, COLON) == [s, p]
  {
    SplitOnce(u, AT, s + [COLON] + p);
    SplitOnce(s, COLON, p);
  }

  lemma OnePartIsRefused(k: Codec, gameServers: set<Bytes>, token: Bytes)
    requires AT !in token
    ensures AuthHandler(k, gameServers, token).Err?
  {
    SplitNone(token, AT);
  }

  lemma NoColonIsRefused(k: Codec, gameServers: set<Bytes>, u: Bytes, z: Bytes)
    requires AT !in u && AT !in z && COLON !in z
    ensures AuthHandler(k, gameServers, u + [AT] + z).Err?
  {
    SplitOnce(u, AT, z);
    SplitNone(z, COLON);
  }

  lemma OtherPasswordIsRefused(k: Codec, gameServers: set<Bytes>, u: Bytes, s: Bytes, p: Bytes)
    requires AT !in u && AT !in s && AT !in p && COLON !in s && COLON !in p && Base64.Decode(k, p) != Some(PASSWORD)
    ensures AuthHandler(k, gameServers, Join(u, s, p)).Err?
  {
    SplitOnce(u, AT, s + [COLON] + p);
    SplitOnce(s, COLON, p);
  }

  /** Part of the text of a password never decodes to the one the server accepts, which does not fill its last group. */
  lemma CutPasswordDiffers(k: Codec, password: Bytes, n: nat)
    requires Base64.Lawful(k) && n < |Base64.Encode(k, password)|
    ensures Base64.Decode(k, Base64.Encode(k, password)[..n]) != Some(PASSWORD)
  {
    var p := Base64.Encode(k, password);
    Base64.EncodeIsClean(k, password);
    Base64.CleanHasNoBreaks(p[..n]);
    Base64.CutText(k, password, n);
    EightNeedPadding(PASSWORD);
  }

  lemma EightNeedPadding(b: Bytes)
    requires |b| == 8
    ensures Base64.NeedsPadding(b)
  {
    assert |b[3..][3..]| == 2 && Base64.NeedsPadding(b[3..]);
  }

  /** A token of which anything is missing at the end is always refused. */
  lemma CutTokenIsRefused(k: Codec, gameServers: set<Bytes>, user: Bytes, server: Bytes, password: Bytes, n: nat)
    requires Base64.Lawful(k) && n < |Token(k, user, server, password)|
    ensures AuthHandler(k, gameServers, Token(k, user, server, password)[..n]).Err?
  {
    var u, s, p := Base64.Encode(k, user), Base64.Encode(k, server), Base64.Encode(k, password);
    Base64.EncodeIsClean(k, user);
    Base64.EncodeIsClean(k, server);
    Base64.EncodeIsClean(k, password);
    CleanHasNoSeparators(u);
    CleanHasNoSeparators(s);
    CleanHasNoSeparators(p);
    CutJoin(u, s, p, n);
    if n <= |u| {
      OnePartIsRefused(k, gameServers, u[..n]);
    } else if n <= |u| + 1 + |s| {
      NoColonIsRefused(k, gameServers, u, s[..n - |u| - 1]);
    } else {
      var m := n - |u| - |s| - 2;
      CutPasswordDiffers(k, password, m);
      OtherPasswordIsRefused(k, gameServers, u, s, p[..m]);
    }
  }

  lemma CutJoin(u: Bytes, s: Bytes, p: Bytes, n: nat)
    requires n <= |Join(u, s, p)|
    ensures Join(u, s, p)[..n] == if n <= |u| then u[..n]
                                  else if n <= |u| + 1 + |s| then u + [AT] + s[..n - |u| - 1]
                                  else Join(u, s, p[..n - |u| - |s| - 2])
  {
  }

  // ---- the two sides ----

  /** The next socket Read of the server: at most 1024 bytes of what was written at once, the rest staying unread. */
  function NextRead(inbound: seq<Bytes>): Option<(Bytes, seq<Bytes>)> {
    if inbound == [] then None else
      var first, rest := inbound[0], inbound[1..];
      Some((FirstRead(first), if |first| <= READ_SIZE then rest else [first[READ_SIZE..]] + rest))
  }

  /** A Read takes at most 1024 bytes off what was written, and loses none. */
  lemma ReadsLoseNothing(inbound: seq<Bytes>)
    requires inbound != []
    ensures NextRead(inbound).Some?
    ensures var (text, rest) := NextRead(inbound).value;
      |text| <= 1024 && (inbound[0] != [] ==> text != []) && text + Flatten(rest) == Flatten(inbound)
  {
    if |inbound[0]| > READ_SIZE {
      assert inbound == [inbound[0]] + inbound[1..];
      FlattenTakes(inbound[0], 1024, inbound[1..]);
    } else {
      assert FirstRead(inbound[0]) == inbound[0];
    }
  }

  /** readLine followed by base64 decoding; None when the connection ends or the text is not base64. */
  function ReadDecoded(k: Codec, inbound: seq<Bytes>): Option<(Bytes, seq<Bytes>)> {
    match NextRead(inbound)
    case None => None
    case Some((text, rest)) =>
      match Base64.Decode(k, TrimSpace(text))
      case None => None
      case Some(b) => Some((b, rest))
  }

  datatype Output = Text(line: Bytes) | Status(code: nat)

  datatype ServerOutcome =
    | Dropped    // a read failed or was not base64
    | Panicked   // wrong key or ciphertext length; recovered, connection closed
    | HmacRejected
    | Judged(token: Bytes, auth: Result<(Bytes, Bytes), AuthError>)

  /** How a stage of the server ends, and what it writes. */
  datatype Stage = Stage(outcome: ServerOutcome, sent: seq<Output>)

  /** Third read: the token is decrypted and judged. */
  function JudgeToken(c: Crypto, gameServers: set<Bytes>, secret: Bytes, inbound: seq<Bytes>): Stage {
    match ReadDecoded(c.base64, inbound)
    case None => Stage(Dropped, [])
    case Some((encrypted, _)) =>
      if |encrypted| % 8 != 0 then Stage(Panicked, []) else
        var token := Decrypted(c.cipher, secret, encrypted);
        var auth := AuthHandler(c.base64, gameServers, token);
        Stage(Judged(token, auth), if auth.Err? then [Status(403)] else [])
  }

  /** Second read: the client proves that it knows the secret. */
  function CheckHmac(c: Crypto, gameServers: set<Bytes>, challenge: Bytes, secret: Bytes, inbound: seq<Bytes>): Stage
    requires HmacSized(c)
  {
    match ReadDecoded(c.base64, inbound)
    case None => Stage(Dropped, [])
    case Some((mac, rest)) =>
      if mac != Hmac64(c, challenge, secret) then Stage(HmacRejected, [Status(401)])
      else JudgeToken(c, gameServers, secret, rest)
  }

  /** What the server does with whatever it reads, and what it writes. */
  function ServerRun(c: Crypto, gameServers: set<Bytes>, challenge: Bytes, private: Bytes, inbound: seq<Bytes>): Stage
    requires HmacSized(c)
  {
    var hello := [Text(Line(c.base64, challenge))];
    match ReadDecoded(c.base64, inbound)
    case None => Stage(Dropped, hello)
    case Some((clientKey, rest)) =>
      var sent := hello + [Text(Line(c.base64, PublicKey(private)))];
      if |clientKey| != 8 then Stage(Panicked, sent) else
        var s := CheckHmac(c, gameServers, challenge, SharedSecret(private, clientKey), rest);
        Stage(s.outcome, sent + s.sent)
  }

  /** What the honest client writes after reading the server's challenge and key lines; None if it cannot read them. */
  function ClientRun(c: Crypto, private: Bytes, user: Bytes, server: Bytes, password: Bytes, challengeLine: Bytes, keyLine: Bytes)
    : Option<seq<Bytes>>
    requires HmacSized(c)
  {
    match (Base64.Decode(c.base64, TrimSpace(challengeLine)), Base64.Decode(c.base64, TrimSpace(keyLine)))
    case (Some(challenge), Some(public)) =>
      if |public| != 8 then None else
        var secret := SharedSecret(private, public);
        Some([Line(c.base64, PublicKey(private)), Line(c.base64, Hmac64(c, challenge, secret)),
              Line(c.base64, Encrypted(c.cipher, secret, Token(c.base64, user, server, password)))])
    case _ => None
  }

  lemma ReadsShort(k: Codec, b: Bytes, rest: seq<Bytes>)
    requires Base64.Lawful(k)
    requires |b| <= 765
    ensures ReadDecoded(k, [Line(k, b)] + rest) == Some((b, rest))
  {
    ReadLine(k, b);
    FirstReadOfLine(k, b);
    assert ([Line(k, b)] + rest)[1..] == rest;
  }

  /** The last line arrives whole if it has at most 768 bytes, else cut to 768. */
  lemma ReadsLast(k: Codec, b: Bytes)
    requires Base64.Lawful(k)
    ensures ReadDecoded(k, [Line(k, b)]).Some? && ReadDecoded(k, [Line(k, b)]).value.0 == Kept(b)
  {
    ReadLine(k, b);
  }

  lemma {:induction false} EncryptPrefix(c: BlockCipher, key: Bytes, s: Bytes, n: nat)
    requires Lawful(c) && |key| == 8 && 8 * n <= |s|
    ensures 8 * n <= |Blocks(c.encrypt, key, s)| && Blocks(c.encrypt, key, s)[..8 * n] == Blocks(c.encrypt, key, s[..8 * n])
  {
    if n > 0 {
      EncryptPrefix(c, key, s[8..], n - 1);
      var first, rest := c.encrypt(key, s[..8]), Blocks(c.encrypt, key, s[8..]);
      assert (first + rest)[..8 * n] == first + rest[..8 * (n - 1)];
      assert s[..8 * n][..8] == s[..8] && s[..8 * n][8..] == s[8..][..8 * (n - 1)];
    }
  }

  /** A cut ciphertext decrypts to fewer bytes than the token has; for a text, to its beginning. */
  lemma CutCiphertext(c: BlockCipher, secret: Bytes, token: Bytes, n: nat)
    requires Lawful(c) && |secret| == 8 && 8 * n < |Padded(token)|
    ensures 8 * n < |token| && 8 * n < |Encrypted(c, secret, token)|
    ensures |Decrypted(c, secret, Encrypted(c, secret, token)[..8 * n])| < |token|
    ensures IsText(token) ==> Decrypted(c, secret, Encrypted(c, secret, token)[..8 * n]) == token[..8 * n]
  {
    var padded := Padded(token);
    LessThanPadded(token, n);
    DecryptUndoes(c, secret, padded);
    EncryptPrefix(c, secret, padded, n);
    DecryptUndoes(c, secret, padded[..8 * n]);
    assert padded[..8 * n] == token[..8 * n];
    if IsText(token) { UnpadText(token[..8 * n]); }
  }

  lemma LessThanPadded(token: Bytes, n: nat)
    requires 8 * n < |Padded(token)|
    ensures 8 * n < |token| && 8 * n <= |Padded(token)| - 8
  {
  }

  lemma UnpadText(t: Bytes)
    requires IsText(t)
    ensures Unpadded(t) == t
  {
  }

  lemma WholeTokenArrives(c: BlockCipher, secret: Bytes, token: Bytes)
    requires Lawful(c) && |secret| == 8 && Survives(token)
    ensures |Encrypted(c, secret, token)| == |Padded(token)|
    ensures Decrypted(c, secret, Encrypted(c, secret, token)) == token
  {
    DecryptUndoes(c, secret, Padded(token));
    PaddingRoundTrip(c, secret, token);
  }

  /** The token the server recovers from the client's third line: all of it exactly if it fits, else its first 768 bytes. */
  lemma TokenArrives(k: Codec, c: BlockCipher, secret: Bytes, token: Bytes)
    requires Base64.Lawful(k)
    requires Lawful(c) && |secret| == 8 && Survives(token)
    ensures var arrived := ReadDecoded(k, [Line(k, Encrypted(c, secret, token))]);
      && arrived.Some? && |arrived.value.0| % 8 == 0
      && (Decrypted(c, secret, arrived.value.0) == token <==> |Padded(token)| <= 768)
      && (IsText(token) && |Padded(token)| > 768 ==>
            |token| > 768 && Decrypted(c, secret, arrived.value.0) == token[..768])
  {
    ReadsLast(k, Encrypted(c, secret, token));
    WholeTokenArrives(c, secret, token);
    if |Padded(token)| > 768 { CutCiphertext(c, secret, token, 96); }
  }

  /** The server goes on exactly for a right proof: a peer that sends a key and then anything but the HMAC of the challenge
      under the secret of that key gets 401 and nothing else, whatever it sends after that. */
  lemma WrongHmacIsRejected(c: Crypto, gameServers: set<Bytes>, challenge: Bytes, private: Bytes, key: Bytes, m: Bytes,
                            rest: seq<Bytes>)
    requires HmacSized(c) && Base64.Lawful(c.base64) && |key| == 8 && |m| <= 765
    ensures var s := ServerRun(c, gameServers, challenge, private, [Line(c.base64, key)] + ([Line(c.base64, m)] + rest));
            var right := c.hmac(SharedSecret(private, key), challenge)[..8];
      && (s.outcome.HmacRejected? <==> m != right)
      && (m != right ==> s.sent == [Text(Line(c.base64, challenge)), Text(Line(c.base64, PublicKey(private))), Status(401)])
      && (s.outcome.Judged? ==> m == right)
  {
    ReadsShort(c.base64, key, [Line(c.base64, m)] + rest);
    ReadsShort(c.base64, m, rest);
    AfterHmac(c, gameServers, challenge, SharedSecret(private, key), m, [Line(c.base64, m)] + rest, rest);
  }

  lemma AfterHmac(c: Crypto, gameServers: set<Bytes>, challenge: Bytes, secret: Bytes, m: Bytes, inbound: seq<Bytes>, rest: seq<Bytes>)
    requires HmacSized(c) && ReadDecoded(c.base64, inbound) == Some((m, rest))
    ensures var s, right := CheckHmac(c, gameServers, challenge, secret, inbound), c.hmac(secret, challenge)[..8];
      && (s.outcome.HmacRejected? <==> m != right) && (m != right ==> s.sent == [Status(401)])
      && (m == right ==> s == JudgeToken(c, gameServers, secret, rest))
  {
  }

  /** A key line of any other length than eight bytes ends the handshake, after the server's two lines. */
  lemma WrongKeyPanics(c: Crypto, gameServers: set<Bytes>, challenge: Bytes, private: Bytes, key: Bytes, rest: seq<Bytes>)
    requires HmacSized(c) && Base64.Lawful(c.base64) && |key| <= 765
    ensures var s := ServerRun(c, gameServers, challenge, private, [Line(c.base64, key)] + rest);
      |key| != 8 ==> s == Stage(Panicked, [Text(Line(c.base64, challenge)), Text(Line(c.base64, PublicKey(private)))])
  {
    ReadsShort(c.base64, key, rest);
  }

  /** After the right proof, whatever is sent as token is judged as what it decrypts to, except that a ciphertext that is not
      made of whole blocks ends the handshake. */
  lemma TokenIsJudged(c: Crypto, gameServers: set<Bytes>, challenge: Bytes, private: Bytes, key: Bytes, m: Bytes, rest: seq<Bytes>)
    requires HmacSized(c) && Base64.Lawful(c.base64) && |key| == 8 && |m| <= 765
    ensures var secret := SharedSecret(private, key);
            var right := c.hmac(secret, challenge)[..8];
            var s := ServerRun(c, gameServers, challenge, private, [Line(c.base64, key)] + ([Line(c.base64, right)] + ([Line(c.base64, m)] + rest)));
            var token := Decrypted(c.cipher, secret, m);
            s.outcome == if |m| % 8 == 0 then Judged(token, AuthHandler(c.base64, gameServers, token)) else Panicked
  {
    var secret := SharedSecret(private, key);
    var right := c.hmac(secret, challenge)[..8];
    var afterKey := [Line(c.base64, right)] + ([Line(c.base64, m)] + rest);
    ReadsShort(c.base64, key, afterKey);
    ReadsShort(c.base64, right, [Line(c.base64, m)] + rest);
    AfterHmac(c, gameServers, challenge, secret, right, afterKey, [Line(c.base64, m)] + rest);
    ReadsShort(c.base64, m, rest);
  }

  predicate StatusFits(s: Stage) {
    && (Status(403) in s.sent <==> s.outcome.Judged? && s.outcome.auth.Err?)
    && (Status(401) in s.sent <==> s.outcome.HmacRejected?)
  }

  lemma HmacStatusFits(c: Crypto, gameServers: set<Bytes>, challenge: Bytes, secret: Bytes, inbound: seq<Bytes>)
    requires HmacSized(c)
    ensures StatusFits(CheckHmac(c, gameServers, challenge, secret, inbound))
  {
  }

  /** Whatever a peer sends, 403 is written exactly after a judged token was refused, and 401 exactly after a wrong HMAC. */
  lemma StatusTellsOutcome(c: Crypto, gameServers: set<Bytes>, challenge: Bytes, private: Bytes, inbound: seq<Bytes>)
    requires HmacSized(c)
    ensures StatusFits(ServerRun(c, gameServers, challenge, private, inbound))
  {
    if ReadDecoded(c.base64, inbound).Some? {
      var (key, rest) := ReadDecoded(c.base64, inbound).value;
      HmacStatusFits(c, gameServers, challenge, SharedSecret(private, key), rest);
    }
  }

  /** The honest client can read the server's two lines, and answers with its key, its HMAC and the encrypted token. */
  lemma ClientWrites(c: Crypto, challenge: Bytes, public: Bytes, private: Bytes, user: Bytes, server: Bytes, password: Bytes)
    returns (lines: seq<Bytes>)
    requires HmacSized(c) && Base64.Lawful(c.base64) && |public| == 8
    ensures ClientRun(c, private, user, server, password, Line(c.base64, challenge), Line(c.base64, public)) == Some(lines)
    ensures var secret := SharedSecret(private, public);
            lines == [Line(c.base64, PublicKey(private)), Line(c.base64, Hmac64(c, challenge, secret)),
                      Line(c.base64, Encrypted(c.cipher, secret, Token(c.base64, user, server, password)))]
  {
    DecodeLine(c.base64, challenge);
    DecodeLine(c.base64, public);
    lines := ClientRun(c, private, user, server, password, Line(c.base64, challenge), Line(c.base64, public)).value;
  }

  /** For every challenge, every pair of private keys and all credentials: the honest client can read the server's
      lines, its HMAC passes, and the server judges a token, which is the one sent exactly when the padded token has at
      most 768 bytes (one Read of the server). In that case the handler's verdict is the one on the credentials sent;
      otherwise the login is refused. */
  lemma HonestLogin(c: Crypto, gameServers: set<Bytes>, challenge: Bytes, serverKey: Bytes, clientKey: Bytes,
                    user: Bytes, server: Bytes, password: Bytes)
    requires LawfulCrypto(c) && |challenge| == 8 && |serverKey| == 8 && |clientKey| == 8
    ensures var written := ClientRun(c, clientKey, user, server, password, Line(c.base64, challenge), Line(c.base64, PublicKey(serverKey)));
      && written.Some?
      && var outcome := ServerRun(c, gameServers, challenge, serverKey, written.value).outcome;
      && outcome.Judged?
      && (outcome.token == Token(c.base64, user, server, password) <==> |Padded(Token(c.base64, user, server, password))| <= 768)
      && (|Padded(Token(c.base64, user, server, password))| <= 768 ==>
            && ParseToken(c.base64, outcome.token) == Ok(Credentials(user, server, password))
            && outcome.auth == if password != PASSWORD then Err(WrongPassword)
                               else if server !in gameServers then Err(UnknownServer)
                               else Ok((server, user)))
      && (outcome.auth.Ok? <==>
            |Padded(Token(c.base64, user, server, password))| <= 768 && password == PASSWORD && server in gameServers)
  {
    var token, secret := Token(c.base64, user, server, password), SharedSecret(clientKey, PublicKey(serverKey));
    var lines := ClientWrites(c, challenge, PublicKey(serverKey), clientKey, user, server, password);
    KeyAgreement(clientKey, serverKey);
    ServerGetsToToken(c, gameServers, challenge, serverKey, PublicKey(clientKey), lines);
    TokenSurvives(c.base64, user, server, password);
    TokenArrives(c.base64, c.cipher, secret, token);
    TokenRoundTrip(c.base64, user, server, password);
    if |Padded(token)| > 768 { CutTokenIsRefused(c.base64, gameServers, user, server, password, 768); }
  }

  /** A peer that proves knowledge of the secret gets its third line judged. */
  lemma ServerGetsToToken(c: Crypto, gameServers: set<Bytes>, challenge: Bytes, private: Bytes, key: Bytes, lines: seq<Bytes>)
    requires HmacSized(c) && Base64.Lawful(c.base64) && |key| == 8 && |lines| == 3 && lines[0] == Line(c.base64, key)
    requires lines[1] == Line(c.base64, Hmac64(c, challenge, SharedSecret(private, key)))
    ensures ServerRun(c, gameServers, challenge, private, lines).outcome ==
            JudgeToken(c, gameServers, SharedSecret(private, key), [lines[2]]).outcome
  {
    var mac := Hmac64(c, challenge, SharedSecret(private, key));
    assert lines == [lines[0]] + lines[1..];
    assert ReadDecoded(c.base64, lines) == Some((key, lines[1..])) by { ReadsShort(c.base64, key, lines[1..]); }
    assert lines[1..] == [lines[1]] + lines[2..];
    assert ReadDecoded(c.base64, lines[1..]) == Some((mac, lines[2..])) by { ReadsShort(c.base64, mac, lines[2..]); }
    assert lines[2..] == [lines[2]];
    ProvenPeerIsJudged(c, gameServers, challenge, private, key, lines, lines[1..], lines[2..]);
  }

  lemma ProvenPeerIsJudged(c: Crypto, gameServers: set<Bytes>, challenge: Bytes, private: Bytes, key: Bytes,
                           inbound: seq<Bytes>, rest: seq<Bytes>, last: seq<Bytes>)
    requires HmacSized(c) && |key| == 8 && ReadDecoded(c.base64, inbound) == Some((key, rest))
    requires ReadDecoded(c.base64, rest) == Some((Hmac64(c, challenge, SharedSecret(private, key)), last))
    ensures ServerRun(c, gameServers, challenge, private, inbound).outcome ==
            JudgeToken(c, gameServers, SharedSecret(private, key), last).outcome
  {
  }

  // ---- two lines in one Read ----

  lemma TrimTwoLines(a: Bytes, b: Bytes)
    requires Base64.Clean(a) && a != [] && Base64.Clean(b) && b != []
    ensures TrimSpace(a + [NEWLINE] + b) == TrimSpace(a + [NEWLINE] + b + [NEWLINE]) == a + [NEWLINE] + b
  {
    var t := a + [NEWLINE] + b;
    assert t[0] == a[0] && (t + [NEWLINE])[0] == a[0] && t[|t| - 1] == b[|b| - 1];
    assert TrimLeft(t) == t && TrimLeft(t + [NEWLINE]) == t + [NEWLINE];
    assert (t + [NEWLINE])[..|t|] == t;
  }

  /** One Read of two lines: both, or as much of the second as fits. */
  lemma ReadOfTwoLines(a: Bytes, b: Bytes)
    requires |a| <= 12
    ensures var packet := a + [NEWLINE] + (b + [NEWLINE]);
            FirstRead(packet) == if |a| + |b| + 2 <= READ_SIZE then a + [NEWLINE] + b + [NEWLINE]
                                 else a + [NEWLINE] + b[..READ_SIZE - 1 - |a|]
  {
  }

  lemma TwoLinesAreUnreadable(k: Codec, mac: Bytes, b: Bytes)
    requires Base64.Lawful(k)
    requires |mac| == 8 && b != []
    ensures ReadDecoded(k, [Line(k, mac) + Line(k, b)]) == None
  {
    EncodedForm(k, mac);
    EncodedForm(k, b);
    var kept := TrimmedReadOfTwoLines(Base64.Encode(k, mac), Base64.Encode(k, b));
    EightNeedPadding(mac);
    Base64.TwoLinesDoNotDecode(k, mac, kept);
    UndecodableRead(k, Line(k, mac) + Line(k, b), Base64.Encode(k, mac) + [NEWLINE] + kept);
  }

  lemma EncodedForm(k: Codec, b: Bytes)
    requires Base64.Lawful(k)
    ensures Base64.Clean(Base64.Encode(k, b)) && (|b| == 8 ==> |Base64.Encode(k, b)| == 12) && (b != [] ==> Base64.Encode(k, b) != [])
  {
    Base64.EncodeIsClean(k, b);
    Base64.EncodeLength(k, b);
    LineLength(|b|);
  }

  lemma UndecodableRead(k: Codec, packet: Bytes, text: Bytes)
    requires TrimSpace(FirstRead(packet)) == text && Base64.Decode(k, text) == None
    ensures ReadDecoded(k, [packet]) == None
  {
  }

  lemma TrimmedReadOfTwoLines(e: Bytes, f: Bytes) returns (kept: Bytes)
    requires |e| == 12 && f != [] && Base64.Clean(e) && Base64.Clean(f)
    ensures kept != [] && Base64.Clean(kept)
    ensures TrimSpace(FirstRead(e + [NEWLINE] + (f + [NEWLINE]))) == e + [NEWLINE] + kept
  {
    kept := if |e| + |f| + 2 <= READ_SIZE then f else f[..READ_SIZE - 1 - |e|];
    ReadOfTwoLines(e, f);
    TrimTwoLines(e, kept);
  }

  /** The honest client writes its HMAC and token lines one right after the other. If they arrive in one Read the
      connection is dropped, whatever the keys and credentials; LoginReads says exactly which other cuts work. */
  lemma OneReadDropsTheLogin(c: Crypto, gameServers: set<Bytes>, challenge: Bytes, serverKey: Bytes, clientKey: Bytes,
                             user: Bytes, server: Bytes, password: Bytes)
    requires LawfulCrypto(c) && |challenge| == 8 && |serverKey| == 8 && |clientKey| == 8
    ensures var written := ClientRun(c, clientKey, user, server, password, Line(c.base64, challenge), Line(c.base64, PublicKey(serverKey)));
      && written.Some? && |written.value| == 3
      && var w := written.value;
      ServerRun(c, gameServers, challenge, serverKey, [w[0], w[1] + w[2]]).outcome.Dropped?
  {
    var token, secret := Token(c.base64, user, server, password), SharedSecret(clientKey, PublicKey(serverKey));
    var w := ClientWrites(c, challenge, PublicKey(serverKey), clientKey, user, server, password);
    DecryptUndoes(c.cipher, secret, Padded(token));
    TwoLinesAreUnreadable(c.base64, Hmac64(c, challenge, secret), Encrypted(c.cipher, secret, token));
    assert [w[0], w[1] + w[2]] == [w[0]] + [w[1] + w[2]];
    ReadsShort(c.base64, PublicKey(clientKey), [w[1] + w[2]]);
    UnreadableProofIsDropped(c, gameServers, challenge, serverKey, PublicKey(clientKey), [w[0], w[1] + w[2]], [w[1] + w[2]]);
  }

  lemma UnreadableProofIsDropped(c: Crypto, gameServers: set<Bytes>, challenge: Bytes, private: Bytes, key: Bytes,
                                 inbound: seq<Bytes>, rest: seq<Bytes>)
    requires HmacSized(c) && |key| == 8 && ReadDecoded(c.base64, inbound) == Some((key, rest)) && ReadDecoded(c.base64, rest) == None
    ensures ServerRun(c, gameServers, challenge, private, inbound).outcome.Dropped?
  {
  }
}

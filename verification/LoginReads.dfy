/** The login over a stream that arrives in arbitrary pieces: since every line is read by a single Read, exactly some ways
    of cutting the client's lines let it in. */
module LoginReads {
  import opened Basics
  import opened KeyExchange
  import opened BlockCipherMode
  import opened Login
  import Base64

  // ---- what a Read of part of a text decodes to ----

  /** Base64 characters and newlines. */
  predicate Textual(t: Bytes) {
    forall i :: 0 <= i < |t| ==> Base64.InAlphabet(t[i]) || t[i] == Base64.PAD || t[i] == NEWLINE
  }

  lemma {:induction false} TrimLeftKeepsText(t: Bytes)
    requires Textual(t)
    ensures Textual(TrimLeft(t)) && Base64.SkipBreaks(TrimLeft(t)) == Base64.SkipBreaks(t)
  {
    if t != [] && IsSpace(t[0]) { TrimLeftKeepsText(t[1..]); }
  }

  lemma {:induction false} TrimRightKeepsText(t: Bytes)
    requires Textual(t)
    ensures Base64.SkipBreaks(TrimRight(t)) == Base64.SkipBreaks(t)
  {
    if t != [] && IsSpace(t[|t| - 1]) {
      var front := t[..|t| - 1];
      TrimRightKeepsText(front);
      Base64.SkipBreaksConcat(front, [NEWLINE]);
      assert t == front + [NEWLINE];
      assert Base64.SkipBreaks([NEWLINE]) == [];
    }
  }

  /** Trimming and line breaks do not matter: a Read decodes like the base64 characters in it. */
  lemma ReadOfText(k: Codec, inbound: seq<Bytes>)
    requires inbound != [] && Textual(inbound[0]) && |inbound[0]| <= READ_SIZE
    ensures var d := Base64.DecodeGroups(k, Base64.SkipBreaks(inbound[0]));
            ReadDecoded(k, inbound) == match d case None => None case Some(b) => Some((b, inbound[1..]))
  {
    var t := inbound[0];
    assert FirstRead(t) == t;
    TrimLeftKeepsText(t);
    TrimRightKeepsText(TrimLeft(t));
  }

  // ---- where the lines of a stream begin and end ----

  /** A stream that starts with the text `a` on a line of its own. */
  function Then(a: Bytes, rest: Bytes): Bytes {
    a + [NEWLINE] + rest
  }

  lemma CleanIsTextual(a: Bytes, rest: Bytes)
    requires Base64.Clean(a) && Textual(rest)
    ensures Textual(Then(a, rest))
  {
  }

  lemma SkipNothing(a: Bytes)
    requires Base64.Clean(a)
    ensures Base64.SkipBreaks(a) == a && Base64.SkipBreaks(a + [NEWLINE]) == a
  {
    Base64.CleanHasNoBreaks(a);
    Base64.SkipBreaksConcat(a, [NEWLINE]);
    assert Base64.SkipBreaks([NEWLINE]) == [];
  }

  /** The characters in the first `p` bytes of a stream. */
  lemma FirstBytes(a: Bytes, rest: Bytes, p: nat)
    requires Base64.Clean(a) && p <= |Then(a, rest)|
    ensures Base64.SkipBreaks(Then(a, rest)[..p]) ==
            if p <= |a| then a[..p] else a + Base64.SkipBreaks(rest[..p - |a| - 1])
  {
    var s := Then(a, rest);
    if p <= |a| {
      assert s[..p] == a[..p];
      SkipNothing(a[..p]);
    } else {
      assert s[..p] == a + [NEWLINE] + rest[..p - |a| - 1];
      SkipNothing(a);
      Base64.SkipBreaksConcat(a + [NEWLINE], rest[..p - |a| - 1]);
    }
  }

  /** From the end of the first line's text on, with or without its newline, there is only the rest. */
  lemma LaterBytes(a: Bytes, rest: Bytes, p: nat, q: nat)
    requires |a| <= p <= |a| + 1 && p <= q <= |Then(a, rest)|
    ensures Base64.SkipBreaks(Then(a, rest)[p..q]) == if q <= |a| then [] else Base64.SkipBreaks(rest[..q - |a| - 1])
  {
    if q > |a| {
      var r := rest[..q - |a| - 1];
      SliceOfLines(a, rest, q);
      if p == |a| {
        Base64.SkipBreaksConcat([NEWLINE], r);
        assert Base64.SkipBreaks([NEWLINE]) == [];
      }
    }
  }

  lemma SliceOfLines(a: Bytes, rest: Bytes, q: nat)
    requires |a| < q <= |Then(a, rest)|
    ensures var r := rest[..q - |a| - 1]; Then(a, rest)[|a|..q] == [NEWLINE] + r && Then(a, rest)[|a| + 1..q] == r
  {
  }

  /** The rest of a stream is empty, or starts with a character. */
  predicate Starts(rest: Bytes) {
    rest == [] || (Base64.Clean(rest[..1]) && rest[0] != NEWLINE)
  }

  lemma SkipsNothingIfStarts(rest: Bytes, n: nat)
    requires Starts(rest) && n <= |rest|
    ensures Base64.SkipBreaks(rest[..n]) == [] <==> n == 0
  {
    if n > 0 { assert rest[..n][0] == rest[0] && Base64.Clean(rest[..1]) && rest[..1][0] == rest[0]; }
  }

  /** `x` is a beginning or a continuation of `a`. */
  predicate Along(x: Bytes, a: Bytes) {
    x <= a || a <= x
  }

  /** Reading up to `p` takes exactly the first line's text exactly when `p` is at its end or past its newline. */
  lemma WholeLine(a: Bytes, rest: Bytes, p: nat)
    requires Base64.Clean(a) && Starts(rest) && p <= |Then(a, rest)|
    ensures Base64.SkipBreaks(Then(a, rest)[..p]) == a <==> |a| <= p <= |a| + 1
    ensures Along(Base64.SkipBreaks(Then(a, rest)[..p]), a)
  {
    FirstBytes(a, rest, p);
    if p <= |a| {
      assert a[..p] == a <==> p == |a|;
    } else {
      SkipsNothingIfStarts(rest, p - |a| - 1);
      Extends(a, Base64.SkipBreaks(rest[..p - |a| - 1]));
    }
  }

  lemma Extends(a: Bytes, r: Bytes)
    ensures a <= a + r && (a + r == a <==> r == [])
  {
    assert |a + r| == |a| + |r|;
    if r == [] { assert a + r == a; }
  }

  /** The last line: nothing comes after it. */
  lemma LastWholeLine(a: Bytes, p: nat)
    requires Base64.Clean(a) && p <= |Then(a, [])|
    ensures Base64.SkipBreaks(Then(a, [])[..p]) <= a
    ensures Base64.SkipBreaks(Then(a, [])[..p]) == a <==> p >= |a|
  {
    FirstBytes(a, [], p);
    if p > |a| {
      assert Base64.SkipBreaks([][..p - |a| - 1]) == [];
      Extends(a, []);
    }
  }

  /** A Read that starts at the end of the first line takes exactly the second line's text exactly when it stops at the
      end of that, or past its newline. */
  lemma NextLine(a: Bytes, b: Bytes, rest: Bytes, p: nat, q: nat)
    requires Base64.Clean(b) && b != [] && Starts(rest)
    requires |a| <= p <= |a| + 1 && p <= q <= |Then(a, Then(b, rest))|
    ensures var x := Base64.SkipBreaks(Then(a, Then(b, rest))[p..q]);
      (x == b <==> |a| + 1 + |b| <= q <= |a| + 2 + |b|) && Along(x, b)
  {
    LaterBytes(a, Then(b, rest), p, q);
    if q > |a| { WholeLine(b, rest, q - |a| - 1); }
  }

  // ---- the server's three reads ----

  /** The first Read either carries exactly the client's key, or ends the handshake. */
  lemma KeyStage(c: Crypto, gameServers: set<Bytes>, challenge: Bytes, private: Bytes, key: Bytes, chunks: seq<Bytes>)
    requires HmacSized(c) && Base64.Lawful(c.base64) && |key| == 8
    requires chunks != [] && Textual(chunks[0]) && |chunks[0]| <= READ_SIZE
    requires Along(Base64.SkipBreaks(chunks[0]), Base64.Encode(c.base64, key))
    ensures var outcome := ServerRun(c, gameServers, challenge, private, chunks).outcome;
            if Base64.SkipBreaks(chunks[0]) == Base64.Encode(c.base64, key)
            then outcome == CheckHmac(c, gameServers, challenge, SharedSecret(private, key), chunks[1..]).outcome
            else !outcome.Judged?
  {
    ReadOfText(c.base64, chunks);
    EightNeedPadding(key);
    Base64.OnlyWholeTextReads(c.base64, key, Base64.SkipBreaks(chunks[0]));
  }

  /** The second Read either carries exactly the HMAC, or ends the handshake. */
  lemma HmacStage(c: Crypto, gameServers: set<Bytes>, challenge: Bytes, secret: Bytes, chunks: seq<Bytes>)
    requires HmacSized(c) && Base64.Lawful(c.base64)
    requires chunks != [] && Textual(chunks[0]) && |chunks[0]| <= READ_SIZE
    requires Along(Base64.SkipBreaks(chunks[0]), Base64.Encode(c.base64, Hmac64(c, challenge, secret)))
    ensures var outcome := CheckHmac(c, gameServers, challenge, secret, chunks).outcome;
            if Base64.SkipBreaks(chunks[0]) == Base64.Encode(c.base64, Hmac64(c, challenge, secret))
            then outcome == JudgeToken(c, gameServers, secret, chunks[1..]).outcome
            else !outcome.Judged?
  {
    var mac := Hmac64(c, challenge, secret);
    ReadOfText(c.base64, chunks);
    EightNeedPadding(mac);
    Base64.OnlyWholeTextReads(c.base64, mac, Base64.SkipBreaks(chunks[0]));
  }

  /** A text of which every proper beginning is refused. */
  ghost predicate CutsAreRefused(k: Codec, gameServers: set<Bytes>, token: Bytes) {
    token != [] && IsText(token) && forall n {:trigger token[..n]} :: 0 <= n < |token| ==> AuthHandler(k, gameServers, token[..n]).Err?
  }

  /** The third Read either carries the whole ciphertext, or the server neither recovers the token nor lets the user in. */
  lemma TokenStage(c: Crypto, gameServers: set<Bytes>, secret: Bytes, token: Bytes, chunks: seq<Bytes>)
    requires LawfulCrypto(c) && |secret| == 8 && CutsAreRefused(c.base64, gameServers, token)
    requires chunks != [] && Textual(chunks[0]) && |chunks[0]| <= READ_SIZE
    requires Base64.SkipBreaks(chunks[0]) <= Base64.Encode(c.base64, Encrypted(c.cipher, secret, token))
    ensures var outcome := JudgeToken(c, gameServers, secret, chunks).outcome;
            var whole := Base64.SkipBreaks(chunks[0]) == Base64.Encode(c.base64, Encrypted(c.cipher, secret, token));
            Recovers(outcome, token, whole)
  {
    var k, x := c.base64, Base64.SkipBreaks(chunks[0]);
    var encrypted := Encrypted(c.cipher, secret, token);
    ReadOfText(k, chunks);
    WholeTokenArrives(c.cipher, secret, token);
    Base64.OnlyWholeTextReads(k, encrypted, x);
    var d := Base64.DecodeGroups(k, x);
    if d.Some? && d.value < encrypted && |d.value| % 8 == 0 {
      CutCiphertextIsRefused(c, gameServers, secret, token, d.value);
    }
  }

  /** The server judges the token, or judges another one and refuses it, or judges none. */
  predicate Recovers(outcome: ServerOutcome, token: Bytes, yes: bool) {
    if yes then outcome.Judged? && outcome.token == token else outcome.Judged? ==> outcome.token != token && outcome.auth.Err?
  }

  lemma CutCiphertextIsRefused(c: Crypto, gameServers: set<Bytes>, secret: Bytes, token: Bytes, v: Bytes)
    requires LawfulCrypto(c) && |secret| == 8 && CutsAreRefused(c.base64, gameServers, token)
    requires |v| % 8 == 0 && v < Encrypted(c.cipher, secret, token)
    ensures Decrypted(c.cipher, secret, v) != token && AuthHandler(c.base64, gameServers, Decrypted(c.cipher, secret, v)).Err?
  {
    var n := |v| / 8;
    WholeTokenArrives(c.cipher, secret, token);
    assert v == Encrypted(c.cipher, secret, token)[..8 * n];
    CutCiphertext(c.cipher, secret, token, n);
  }

  // ---- which cuts let the honest client in ----

  function Joined(chunks: seq<Bytes>): Bytes {
    if chunks == [] then [] else chunks[0] + Joined(chunks[1..])
  }

  /** Everything the honest client writes, in one piece. */
  function Written(c: Crypto, challenge: Bytes, public: Bytes, private: Bytes, user: Bytes, server: Bytes, password: Bytes): Bytes
    requires HmacSized(c)
  {
    match ClientRun(c, private, user, server, password, Line(c.base64, challenge), Line(c.base64, public))
    case None => []
    case Some(lines) => Joined(lines)
  }

  /** The first Read stops at the end of the key's text or past its newline, the second at the end of the HMAC's text or
      past its newline, and the third at the end of the token's text or later. */
  predicate GoodCut(chunks: seq<Bytes>, total: nat) {
    && |chunks| >= 3
    && 12 <= |chunks[0]| <= 13
    && 25 <= |chunks[0]| + |chunks[1]| <= 26
    && |chunks[0]| + |chunks[1]| + |chunks[2]| >= total - 1
  }

  lemma WrittenLines(c: Crypto, challenge: Bytes, public: Bytes, private: Bytes, user: Bytes, server: Bytes, password: Bytes)
    requires HmacSized(c) && Base64.Lawful(c.base64) && |public| == 8
    ensures var secret := SharedSecret(private, public);
            Written(c, challenge, public, private, user, server, password) ==
            Then(Base64.Encode(c.base64, PublicKey(private)), Then(Base64.Encode(c.base64, Hmac64(c, challenge, secret)),
              Then(Base64.Encode(c.base64, Encrypted(c.cipher, secret, Token(c.base64, user, server, password))), [])))
  {
    var w := ClientWrites(c, challenge, public, private, user, server, password);
    JoinThree(w);
  }

  lemma JoinThree(w: seq<Bytes>)
    requires |w| == 3
    ensures Joined(w) == w[0] + (w[1] + w[2])
  {
    assert Joined(w[2..]) == w[2] + Joined(w[3..]);
    assert Joined(w[1..]) == w[1] + Joined(w[1..][1..]) && w[1..][1..] == w[2..];
  }

  /** The first three pieces of a stream lie one after the other in it. */
  lemma Pieces(chunks: seq<Bytes>, all: Bytes)
    requires |chunks| >= 3 && Joined(chunks) <= all
    ensures var p, q, r := |chunks[0]|, |chunks[0]| + |chunks[1]|, |chunks[0]| + |chunks[1]| + |chunks[2]|;
            r <= |all| && chunks[0] == all[..p] && chunks[1] == all[p..q] && chunks[2] == all[q..r]
  {
    var later := Joined(chunks[1..][1..][1..]);
    assert Joined(chunks[1..][1..]) == chunks[2] + later;
    assert Joined(chunks[1..]) == chunks[1] + (chunks[2] + later);
    SlicesOfThree(chunks[0], chunks[1], chunks[2], later, all);
  }

  lemma SlicesOfThree(u: Bytes, v: Bytes, w: Bytes, later: Bytes, all: Bytes)
    requires u + (v + (w + later)) <= all
    ensures |u| + |v| + |w| <= |all| && u == all[..|u|] && v == all[|u|..|u| + |v|] && w == all[|u| + |v|..|u| + |v| + |w|]
  {
    var t := u + (v + (w + later));
    assert t == all[..|t|];
  }

  lemma LastLine(a: Bytes, b: Bytes, e: Bytes, all: Bytes, q: nat, r: nat)
    requires Base64.Clean(e) && |a| == |b| == 12
    requires all == Then(a, Then(b, Then(e, []))) && 25 <= q <= 26 && q <= r <= |all|
    ensures var z := Base64.SkipBreaks(all[q..r]); z <= e && (z == e <==> r >= |all| - 1 || e == [])
  {
    var later := Then(b, Then(e, []));
    assert all[q..r] == later[q - 13..r - 13];
    LaterBytes(b, Then(e, []), q - 13, r - 13);
    if r > 25 { LastWholeLine(e, r - 26); }
  }

  lemma StartsWithText(a: Bytes, rest: Bytes)
    requires Base64.Clean(a) && a != []
    ensures Starts(Then(a, rest))
  {
    assert Then(a, rest)[0] == a[0];
  }

  lemma NextChunk(k: Codec, chunks: seq<Bytes>)
    requires forall i :: 0 <= i < |chunks| ==> |chunks[i]| <= READ_SIZE
    ensures ReadDecoded(k, chunks).Some? ==> chunks != [] && ReadDecoded(k, chunks).value.1 == chunks[1..]
  {
  }

  /** The server judges nothing before its third Read. */
  lemma JudgedNeedsThree(c: Crypto, gameServers: set<Bytes>, challenge: Bytes, private: Bytes, chunks: seq<Bytes>)
    requires HmacSized(c) && forall i :: 0 <= i < |chunks| ==> |chunks[i]| <= READ_SIZE
    ensures ServerRun(c, gameServers, challenge, private, chunks).outcome.Judged? ==> |chunks| >= 3
  {
    NextChunk(c.base64, chunks);
    if chunks != [] {
      NextChunk(c.base64, chunks[1..]);
      if |chunks| > 1 { NextChunk(c.base64, chunks[2..]); }
    }
  }

  /** Where the first Read may stop: at the end of the key's text or past its newline. */
  lemma KeyRead(c: Crypto, gameServers: set<Bytes>, challenge: Bytes, private: Bytes, key: Bytes, rest: Bytes, chunks: seq<Bytes>)
    requires HmacSized(c) && Base64.Lawful(c.base64) && |key| == 8 && Starts(rest)
    requires chunks != [] && Textual(chunks[0]) && |chunks[0]| <= READ_SIZE
    requires chunks[0] <= Then(Base64.Encode(c.base64, key), rest)
    ensures var outcome := ServerRun(c, gameServers, challenge, private, chunks).outcome;
            if 12 <= |chunks[0]| <= 13
            then outcome == CheckHmac(c, gameServers, challenge, SharedSecret(private, key), chunks[1..]).outcome
            else !outcome.Judged?
  {
    var a := Base64.Encode(c.base64, key);
    EncodedForm(c.base64, key);
    assert chunks[0] == Then(a, rest)[..|chunks[0]|];
    WholeLine(a, rest, |chunks[0]|);
    KeyStage(c, gameServers, challenge, private, key, chunks);
  }

  /** Where the second Read may stop: at the end of the HMAC's text or past its newline. */
  lemma HmacRead(c: Crypto, gameServers: set<Bytes>, challenge: Bytes, secret: Bytes, a: Bytes, rest: Bytes, p: nat, chunks: seq<Bytes>)
    requires HmacSized(c) && Base64.Lawful(c.base64) && Starts(rest) && |a| == 12 && 12 <= p <= 13
    requires chunks != [] && Textual(chunks[0]) && |chunks[0]| <= READ_SIZE
    requires var all := Then(a, Then(Base64.Encode(c.base64, Hmac64(c, challenge, secret)), rest));
             p + |chunks[0]| <= |all| && chunks[0] == all[p..p + |chunks[0]|]
    ensures var outcome := CheckHmac(c, gameServers, challenge, secret, chunks).outcome;
            if 25 <= p + |chunks[0]| <= 26 then outcome == JudgeToken(c, gameServers, secret, chunks[1..]).outcome
            else !outcome.Judged?
  {
    var mac := Hmac64(c, challenge, secret);
    EncodedForm(c.base64, mac);
    NextLine(a, Base64.Encode(c.base64, mac), rest, p, p + |chunks[0]|);
    HmacStage(c, gameServers, challenge, secret, chunks);
  }

  /** Where the third Read may stop: at the end of the token's text or past its newline. */
  lemma TokenRead(c: Crypto, gameServers: set<Bytes>, secret: Bytes, token: Bytes, a: Bytes, b: Bytes, all: Bytes, q: nat,
                  chunks: seq<Bytes>)
    requires LawfulCrypto(c) && |secret| == 8 && CutsAreRefused(c.base64, gameServers, token)
    requires |a| == |b| == 12 && 25 <= q <= 26 && chunks != [] && Textual(chunks[0]) && |chunks[0]| <= READ_SIZE
    requires all == Then(a, Then(b, Then(Base64.Encode(c.base64, Encrypted(c.cipher, secret, token)), [])))
    requires q + |chunks[0]| <= |all| && chunks[0] == all[q..q + |chunks[0]|]
    ensures Recovers(JudgeToken(c, gameServers, secret, chunks).outcome, token, q + |chunks[0]| >= |all| - 1)
  {
    CiphertextHasText(c, secret, token);
    LastLine(a, b, Base64.Encode(c.base64, Encrypted(c.cipher, secret, token)), all, q, q + |chunks[0]|);
    TokenStage(c, gameServers, secret, token, chunks);
  }

  lemma CiphertextHasText(c: Crypto, secret: Bytes, token: Bytes)
    requires LawfulCrypto(c) && |secret| == 8 && token != [] && IsText(token)
    ensures var e := Base64.Encode(c.base64, Encrypted(c.cipher, secret, token)); Base64.Clean(e) && e != []
  {
    WholeTokenArrives(c.cipher, secret, token);
    EncodedForm(c.base64, Encrypted(c.cipher, secret, token));
  }

  /** For every challenge, keys and credentials, and every way the client's lines arrive in pieces of at most 1024 bytes:
      the server recovers the token sent exactly for a good cut, and lets the user in exactly for a good cut, the right
      password and a known server. */
  lemma LoginSucceedsExactly(c: Crypto, gameServers: set<Bytes>, challenge: Bytes, serverKey: Bytes, clientKey: Bytes,
                             user: Bytes, server: Bytes, password: Bytes, chunks: seq<Bytes>)
    requires LawfulCrypto(c) && |challenge| == 8 && |serverKey| == 8 && |clientKey| == 8
    requires forall i :: 0 <= i < |chunks| ==> |chunks[i]| <= READ_SIZE
    requires Joined(chunks) <= Written(c, challenge, PublicKey(serverKey), clientKey, user, server, password)
    ensures var outcome := ServerRun(c, gameServers, challenge, serverKey, chunks).outcome;
            var good := GoodCut(chunks, |Written(c, challenge, PublicKey(serverKey), clientKey, user, server, password)|);
      && (outcome.Judged? && outcome.token == Token(c.base64, user, server, password) <==> good)
      && (outcome.Judged? && outcome.auth.Ok? <==> good && password == PASSWORD && server in gameServers)
  {
    if |chunks| < 3 {
      JudgedNeedsThree(c, gameServers, challenge, serverKey, chunks);
    } else {
      var key, secret := PublicKey(clientKey), SharedSecret(clientKey, PublicKey(serverKey));
      KeyAgreement(clientKey, serverKey);
      WrittenLines(c, challenge, PublicKey(serverKey), clientKey, user, server, password);
      var all := Written(c, challenge, PublicKey(serverKey), clientKey, user, server, password);
      TokenIsRefusedCut(c.base64, gameServers, user, server, password);
      ServerOnPieces(c, gameServers, challenge, serverKey, key, Token(c.base64, user, server, password), all, chunks);
    }
    JudgedByHandler(c, gameServers, challenge, serverKey, chunks);
    Verdict(c.base64, gameServers, user, server, password);
  }

  lemma TokenIsRefusedCut(k: Codec, gameServers: set<Bytes>, user: Bytes, server: Bytes, password: Bytes)
    requires Base64.Lawful(k)
    ensures CutsAreRefused(k, gameServers, Token(k, user, server, password))
  {
    TokenSurvives(k, user, server, password);
    var token := Token(k, user, server, password);
    forall n | 0 <= n < |token| ensures AuthHandler(k, gameServers, token[..n]).Err? {
      CutTokenIsRefused(k, gameServers, user, server, password, n);
    }
  }

  lemma JudgedByHandler(c: Crypto, gameServers: set<Bytes>, challenge: Bytes, private: Bytes, chunks: seq<Bytes>)
    requires HmacSized(c)
    ensures var outcome := ServerRun(c, gameServers, challenge, private, chunks).outcome;
            outcome.Judged? ==> outcome.auth == AuthHandler(c.base64, gameServers, outcome.token)
  {
  }

  lemma ServerOnPieces(c: Crypto, gameServers: set<Bytes>, challenge: Bytes, private: Bytes, key: Bytes, token: Bytes,
                       all: Bytes, chunks: seq<Bytes>)
    requires LawfulCrypto(c) && |private| == |key| == 8 && CutsAreRefused(c.base64, gameServers, token)
    requires |chunks| >= 3 && Joined(chunks) <= all && forall i :: 0 <= i < |chunks| ==> |chunks[i]| <= READ_SIZE
    requires var k, secret := c.base64, SharedSecret(private, key);
             all == Then(Base64.Encode(k, key), Then(Base64.Encode(k, Hmac64(c, challenge, secret)),
                      Then(Base64.Encode(k, Encrypted(c.cipher, secret, token)), [])))
    ensures Recovers(ServerRun(c, gameServers, challenge, private, chunks).outcome, token, GoodCut(chunks, |all|))
  {
    var k, secret := c.base64, SharedSecret(private, key);
    var a, b := Base64.Encode(k, key), Base64.Encode(k, Hmac64(c, challenge, secret));
    var e := Base64.Encode(k, Encrypted(c.cipher, secret, token));
    EncodedForm(k, key);
    EncodedForm(k, Hmac64(c, challenge, secret));
    CiphertextHasText(c, secret, token);
    TextualPieces(a, b, e, all, chunks);
    Pieces(chunks, all);
    KeyRead(c, gameServers, challenge, private, key, Then(b, Then(e, [])), chunks);
    if 12 <= |chunks[0]| <= 13 {
      LaterReads(c, gameServers, challenge, secret, token, a, all, |chunks[0]|, chunks[1..]);
    }
  }

  lemma LaterReads(c: Crypto, gameServers: set<Bytes>, challenge: Bytes, secret: Bytes, token: Bytes, a: Bytes, all: Bytes,
                   p: nat, chunks: seq<Bytes>)
    requires LawfulCrypto(c) && |secret| == 8 && CutsAreRefused(c.base64, gameServers, token) && |a| == 12 && 12 <= p <= 13
    requires |chunks| >= 2 && Textual(chunks[0]) && |chunks[0]| <= READ_SIZE && Textual(chunks[1]) && |chunks[1]| <= READ_SIZE
    requires var k := c.base64;
             all == Then(a, Then(Base64.Encode(k, Hmac64(c, challenge, secret)),
                      Then(Base64.Encode(k, Encrypted(c.cipher, secret, token)), [])))
    requires var q := p + |chunks[0]|; var r := q + |chunks[1]|; r <= |all| && chunks[0] == all[p..q] && chunks[1] == all[q..r]
    ensures var q := p + |chunks[0]|; var r := q + |chunks[1]|;
            Recovers(CheckHmac(c, gameServers, challenge, secret, chunks).outcome, token, 25 <= q <= 26 && r >= |all| - 1)
  {
    var b, e := Base64.Encode(c.base64, Hmac64(c, challenge, secret)), Base64.Encode(c.base64, Encrypted(c.cipher, secret, token));
    EncodedForm(c.base64, Hmac64(c, challenge, secret));
    CiphertextHasText(c, secret, token);
    StartsWithText(e, []);
    HmacRead(c, gameServers, challenge, secret, a, Then(e, []), p, chunks);
    if 25 <= p + |chunks[0]| <= 26 {
      TokenRead(c, gameServers, secret, token, a, b, all, p + |chunks[0]|, chunks[1..]);
    }
  }

  lemma Verdict(k: Codec, gameServers: set<Bytes>, user: Bytes, server: Bytes, password: Bytes)
    requires Base64.Lawful(k)
    ensures AuthHandler(k, gameServers, Token(k, user, server, password)).Ok? <==> password == PASSWORD && server in gameServers
  {
    TokenRoundTrip(k, user, server, password);
  }

  lemma TextualPieces(a: Bytes, b: Bytes, e: Bytes, all: Bytes, chunks: seq<Bytes>)
    requires Base64.Clean(a) && Base64.Clean(b) && Base64.Clean(e) && b != [] && e != []
    requires all == Then(a, Then(b, Then(e, []))) && |chunks| >= 3 && Joined(chunks) <= all
    ensures Textual(chunks[0]) && Textual(chunks[1]) && Textual(chunks[2])
    ensures Starts(Then(b, Then(e, []))) && Starts(Then(e, []))
  {
    StartsWithText(b, Then(e, []));
    StartsWithText(e, []);
    CleanIsTextual(e, []);
    CleanIsTextual(b, Then(e, []));
    CleanIsTextual(a, Then(b, Then(e, [])));
    PiecesAreTextual(chunks, all);
  }

  lemma SliceIsTextual(t: Bytes, p: nat, q: nat)
    requires Textual(t) && p <= q <= |t|
    ensures Textual(t[p..q])
  {
  }

  lemma PiecesAreTextual(chunks: seq<Bytes>, all: Bytes)
    requires |chunks| >= 3 && Joined(chunks) <= all && Textual(all)
    ensures Textual(chunks[0]) && Textual(chunks[1]) && Textual(chunks[2])
  {
    Pieces(chunks, all);
    var p, q, r := |chunks[0]|, |chunks[0]| + |chunks[1]|, |chunks[0]| + |chunks[1]| + |chunks[2]|;
    SliceIsTextual(all, 0, p);
    SliceIsTextual(all, p, q);
    SliceIsTextual(all, q, r);
    assert all[0..p] == all[..p];
  }
}

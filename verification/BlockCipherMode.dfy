/** DESEncode and DESDecode over any block cipher: block by block, with a padding that leaves whole blocks
    unpadded (section 6.1.1 of RFC 8018 would add a full block there). */
module BlockCipherMode {
  import opened Basics

  /** A block cipher: functions of a key and an eight-byte block. */
  datatype BlockCipher = BlockCipher(
    encrypt: (seq<byte>, seq<byte>) -> seq<byte>,
    decrypt: (seq<byte>, seq<byte>) -> seq<byte>)

  /** The one law used: decrypting undoes encrypting, on eight-byte blocks. */
  ghost predicate Lawful(c: BlockCipher) {
    forall k: seq<byte>, b: seq<byte> {:trigger c.encrypt(k, b)} :: |k| == 8 && |b| == 8 ==>
      |c.encrypt(k, b)| == 8 && c.decrypt(k, c.encrypt(k, b)) == b
  }

  /** Decryption keeps blocks eight bytes long, whatever the ciphertext. */
  ghost predicate KeepsBlocks(c: BlockCipher) {
    forall k: seq<byte>, b: seq<byte> {:trigger c.decrypt(k, b)} :: |k| == 8 && |b| == 8 ==> |c.decrypt(k, b)| == 8
  }

  function Blocks(f: (seq<byte>, seq<byte>) -> seq<byte>, key: seq<byte>, s: seq<byte>): seq<byte> {
    if |s| < 8 then [] else f(key, s[..8]) + Blocks(f, key, s[8..])
  }

  /** Bytes needed to fill the last block, none if it is full. */
  function PadLen(n: nat): (p: nat)
    ensures p < 8 && (n + p) % 8 == 0
  {
    (8 - n % 8) % 8
  }

  function Padded(d: seq<byte>): (p: seq<byte>)
    ensures |p| % 8 == 0
  {
    d + seq(PadLen(|d|), _ => PadLen(|d|))
  }

  function Unpadded(s: seq<byte>): seq<byte> {
    if s != [] && 0 < s[|s| - 1] <= 8 && s[|s| - 1] <= |s| then s[..|s| - s[|s| - 1]] else s
  }

  function Encrypted(c: BlockCipher, key: seq<byte>, d: seq<byte>): seq<byte> {
    Blocks(c.encrypt, key, Padded(d))
  }

  function Decrypted(c: BlockCipher, key: seq<byte>, s: seq<byte>): seq<byte> {
    Unpadded(Blocks(c.decrypt, key, s))
  }

  lemma {:induction false} DecryptUndoes(c: BlockCipher, key: seq<byte>, s: seq<byte>)
    requires Lawful(c) && |key| == 8 && |s| % 8 == 0
    ensures |Blocks(c.encrypt, key, s)| == |s|
    ensures Blocks(c.decrypt, key, Blocks(c.encrypt, key, s)) == s
  {
    if s != [] {
      DecryptUndoes(c, key, s[8..]);
      var first, rest := c.encrypt(key, s[..8]), Blocks(c.encrypt, key, s[8..]);
      assert (first + rest)[..8] == first && (first + rest)[8..] == rest;
      assert s == s[..8] + s[8..];
    }
  }

  /** Block by block: each block of the result is the function's value on that block. */
  lemma {:induction false} BlockOf(f: (seq<byte>, seq<byte>) -> seq<byte>, key: seq<byte>, s: seq<byte>, i: nat)
    requires 8 * i + 8 <= |s| && forall b: seq<byte> {:trigger f(key, b)} :: |b| == 8 ==> |f(key, b)| == 8
    ensures 8 * i + 8 <= |Blocks(f, key, s)| && Blocks(f, key, s)[8 * i..8 * i + 8] == f(key, s[8 * i..8 * i + 8])
  {
    var first, rest := f(key, s[..8]), Blocks(f, key, s[8..]);
    if i > 0 {
      BlockOf(f, key, s[8..], i - 1);
      assert s[8..][8 * i - 8..8 * i] == s[8 * i..8 * i + 8];
      assert (first + rest)[8 * i..8 * i + 8] == rest[8 * i - 8..8 * i];
    } else {
      assert (first + rest)[..8] == first;
    }
  }

  /** The ciphertext is the cipher's value on each block of the padded data, and the padding repeats its own length. */
  lemma EncryptedBlockwise(c: BlockCipher, key: seq<byte>, d: seq<byte>, i: nat)
    requires Lawful(c) && |key| == 8 && 8 * i < |Padded(d)|
    ensures 8 * i + 8 <= |Padded(d)| && 8 * i + 8 <= |Encrypted(c, key, d)|
    ensures Encrypted(c, key, d)[8 * i..8 * i + 8] == c.encrypt(key, Padded(d)[8 * i..8 * i + 8])
    ensures d <= Padded(d) && |Padded(d)| < |d| + 8 && forall j :: |d| <= j < |Padded(d)| ==> Padded(d)[j] == |Padded(d)| - |d|
  {
    BlockOf(c.encrypt, key, Padded(d), i);
  }

  /** Whether a plaintext survives the round trip; otherwise its last byte is taken for padding. */
  predicate Survives(d: seq<byte>) {
    |d| == 0 || |d| % 8 != 0 || !(1 <= d[|d| - 1] <= 8)
  }

  /** Decoding gives back the plaintext exactly when it survives; otherwise it drops as many final bytes as the last
      byte says. */
  lemma PaddingRoundTrip(c: BlockCipher, key: seq<byte>, d: seq<byte>)
    requires Lawful(c) && |key| == 8
    ensures Decrypted(c, key, Encrypted(c, key, d)) == d <==> Survives(d)
    ensures !Survives(d) ==> Decrypted(c, key, Encrypted(c, key, d)) == d[..|d| - d[|d| - 1]]
  {
    DecryptUndoes(c, key, Padded(d));
    UnpadPadded(d);
  }

  lemma UnpadPadded(d: seq<byte>)
    ensures Unpadded(Padded(d)) == d <==> Survives(d)
    ensures !Survives(d) ==> Unpadded(Padded(d)) == d[..|d| - d[|d| - 1]]
  {
    if |d| % 8 == 0 { UnpadWhole(d); } else { UnpadPartial(d); }
  }

  lemma UnpadWhole(d: seq<byte>)
    requires |d| % 8 == 0
    ensures Padded(d) == d && (Unpadded(d) == d <==> Survives(d))
    ensures !Survives(d) ==> Unpadded(d) == d[..|d| - d[|d| - 1]]
  {
  }

  lemma UnpadPartial(d: seq<byte>)
    requires |d| % 8 != 0
    ensures Unpadded(Padded(d)) == d
  {
    var p, n := Padded(d), PadLen(|d|);
    assert 0 < n < 8 && |p| == |d| + n;
    assert p[|p| - 1] == n && p[..|p| - n] == d;
  }

  // ---- the code's own loops ----

  /** Processing one more block extends the processed part. */
  lemma {:induction false} BlocksExtend(f: (seq<byte>, seq<byte>) -> seq<byte>, key: seq<byte>, s: seq<byte>, b: seq<byte>)
    requires |s| % 8 == 0 && |b| == 8
    ensures Blocks(f, key, s + b) == Blocks(f, key, s) + f(key, b)
  {
    if s == [] {
      assert s + b == b && b[..8] == b && Blocks(f, key, b[8..]) == [];
      assert Blocks(f, key, b) == f(key, b) + [];
    } else {
      BlocksExtend(f, key, s[8..], b);
      assert (s + b)[..8] == s[..8] && (s + b)[8..] == s[8..] + b;
    }
  }

  method ApplyBlocks(f: (seq<byte>, seq<byte>) -> seq<byte>, key: seq<byte>, data: seq<byte>) returns (out: array<byte>)
    requires |data| % 8 == 0 && |key| == 8
    requires forall b: seq<byte> :: |b| == 8 ==> |f(key, b)| == 8
    ensures fresh(out) && out[..] == Blocks(f, key, data)
  {
    out := new byte[|data|];
    var i := 0;
    while i < |data|
      invariant 0 <= i <= |data| && i % 8 == 0
      invariant out[..i] == Blocks(f, key, data[..i])
    {
      var block := f(key, data[i..i + 8]);
      BlocksExtend(f, key, data[..i], data[i..i + 8]);
      assert data[..i + 8] == data[..i] + data[i..i + 8];
      forall k | 0 <= k < 8 {
        out[i + k] := block[k];
      }
      assert out[..i + 8] == out[..i] + block;
      i := i + 8;
    }
    assert data[..i] == data;
  }

  method DESEncode(c: BlockCipher, key: seq<byte>, data: seq<byte>) returns (encrypted: array<byte>)
    requires |key| == 8 && Lawful(c)
    ensures fresh(encrypted) && encrypted[..] == Encrypted(c, key, data)
  {
    var padLen := 8 - |data| % 8;
    if padLen == 8 { padLen := 0; }
    var padded := new byte[|data| + padLen](i => if 0 <= i < |data| then data[i] else 0);
    for i := |data| to padded.Length
      invariant forall k :: 0 <= k < |data| ==> padded[k] == data[k]
      invariant forall k :: |data| <= k < i ==> padded[k] == padLen
    {
      padded[i] := padLen;
    }
    assert padded[..] == Padded(data);
    encrypted := ApplyBlocks(c.encrypt, key, padded[..]);
  }

  /** Panics in the source when the length is not a multiple of eight. */
  method DESDecode(c: BlockCipher, key: seq<byte>, data: seq<byte>) returns (decrypted: seq<byte>)
    requires |key| == 8 && |data| % 8 == 0 && KeepsBlocks(c)
    ensures decrypted == Decrypted(c, key, data)
  {
    var buf := ApplyBlocks(c.decrypt, key, data);
    decrypted := buf[..];
    if |decrypted| > 0 {
      var padLen := decrypted[|decrypted| - 1];
      if padLen > 0 && padLen <= 8 && padLen <= |decrypted| {
        decrypted := decrypted[..|decrypted| - padLen];
      }
    }
  }
}

/** Diffie-Hellman with 8-byte keys over the modulus 2^32 - 5 (section 2.1.1 of RFC 2631). */
module KeyExchange {
  import opened Arithmetic
  import opened Basics
  import opened BigEndian

  const MODULUS: int := 0xFFFF_FFFB
  const GENERATOR: nat := 2

  function Pow(b: nat, e: nat): nat {
    if e == 0 then 1 else b * Pow(b, e - 1)
  }

  /** big.Int.Exp with the fixed modulus. */
  function ExpMod(b: nat, e: nat): (r: nat)
    ensures r < MODULUS
  {
    Pow(b, e) % MODULUS
  }

  lemma {:induction false} PowAdd(b: nat, e: nat, f: nat)
    ensures Pow(b, e + f) == Pow(b, e) * Pow(b, f)
  {
    if e > 0 {
      PowAdd(b, e - 1, f);
      Multiply3(b, Pow(b, e - 1), Pow(b, f));
    }
  }

  lemma Multiply3(a: int, b: int, c: int)
    ensures a * (b * c) == (a * b) * c
  {
  }

  lemma {:induction false} PowPow(b: nat, e: nat, f: nat)
    ensures Pow(Pow(b, e), f) == Pow(b, e * f)
  {
    if f > 0 {
      PowPow(b, e, f - 1);
      assert e * f == e + e * (f - 1);
      PowAdd(b, e, e * (f - 1));
    }
  }

  /** Reducing the base first does not change a modular power. */
  lemma {:induction false} PowOfMod(b: nat, e: nat)
    ensures ExpMod(b % MODULUS, e) == ExpMod(b, e)
  {
    if e > 0 {
      PowOfMod(b, e - 1);
      var x, y := Pow(b % MODULUS, e - 1), Pow(b, e - 1);
      MultiplyMod(b, x, MODULUS);
      MultiplyMod(x, b, MODULUS);
      MultiplyMod(y, b, MODULUS);
      assert b * x == x * b && b * y == y * b;
    }
  }

  /** A private key: the low 31 bits of the key, but at least 2. */
  function Exponent(key: seq<byte>): (e: nat)
    ensures 2 <= e < TWO_31
  {
    var low := FromBytes(key) % TWO_31;
    if low <= 1 then 2 else low
  }

  function PublicKey(key: seq<byte>): (r: seq<byte>)
    ensures |r| == 8
  {
    ToBytes(8, ExpMod(GENERATOR, Exponent(key)))
  }

  function SharedSecret(privateKey: seq<byte>, publicKey: seq<byte>): (r: seq<byte>)
    ensures |r| == 8
  {
    ToBytes(8, ExpMod(FromBytes(publicKey), Exponent(privateKey)))
  }

  /** Both sides compute the same eight bytes. */
  lemma KeyAgreement(a: seq<byte>, b: seq<byte>)
    ensures SharedSecret(a, PublicKey(b)) == SharedSecret(b, PublicKey(a))
  {
    SecretIsPower(a, b);
    SecretIsPower(b, a);
    assert Exponent(a) * Exponent(b) == Exponent(b) * Exponent(a);
  }

  /** The secret is the generator to the product of both exponents. */
  lemma SecretIsPower(a: seq<byte>, b: seq<byte>)
    ensures SharedSecret(a, PublicKey(b)) == ToBytes(8, ExpMod(GENERATOR, Exponent(b) * Exponent(a)))
  {
    var x, y := Exponent(a), Exponent(b);
    Round64(ExpMod(GENERATOR, y));
    PowOfMod(Pow(GENERATOR, y), x);
    PowPow(GENERATOR, y, x);
  }

  /** Powers are repeated products. */
  lemma PowIsProduct(b: nat, e: nat)
    ensures Pow(b, 0) == 1 && Pow(b, 1) == b && Pow(b, e + 1) == b * Pow(b, e)
  {
    assert Pow(b, 1) == b * Pow(b, 0);
  }

  /** Of an 8-byte private key exactly the low 31 bits count, and of these 0 and 1 count as 2. */
  lemma ExponentIsLowBits(h: nat, k: nat)
    requires k < TWO_31 && h * TWO_31 + k < TWO_64
    ensures Exponent(ToBytes(8, h * TWO_31 + k)) == if k <= 1 then 2 else k
  {
    Round64(h * TWO_31 + k);
    assert (h * TWO_31 + k) % TWO_31 == k;
  }

  /** Public key and secret are powers of 2 modulo 2^32 - 5, with the low bits of the private keys as exponents. */
  lemma KeysArePowers(h: nat, k: nat, x: nat, g: nat, l: nat, y: nat)
    requires k < TWO_31 && h * TWO_31 + k < TWO_64 && x == if k <= 1 then 2 else k
    requires l < TWO_31 && g * TWO_31 + l < TWO_64 && y == if l <= 1 then 2 else l
    ensures PublicKey(ToBytes(8, h * TWO_31 + k)) == ToBytes(8, Pow(2, x) % 0xFFFF_FFFB)
    ensures SharedSecret(ToBytes(8, h * TWO_31 + k), PublicKey(ToBytes(8, g * TWO_31 + l))) ==
            ToBytes(8, Pow(Pow(2, y), x) % 0xFFFF_FFFB)
  {
    ExponentIsLowBits(h, k);
    ExponentIsLowBits(g, l);
    SecretIsPower(ToBytes(8, h * TWO_31 + k), ToBytes(8, g * TWO_31 + l));
    PowPow(2, y, x);
  }

  /** The private key 5 has the public key 32. */
  lemma PublicKeyOfFive()
    ensures PublicKey(ToBytes(8, 5)) == ToBytes(8, 32)
  {
    ExponentIsLowBits(0, 5);
    PowIsProduct(2, 2);
    PowIsProduct(2, 3);
    PowIsProduct(2, 4);
    PowIsProduct(2, 1);
  }

  /** And 32 has the public key 5, since 2^32 is 5 more than the modulus. */
  lemma PublicKeyOfThirtyTwo()
    ensures PublicKey(ToBytes(8, 32)) == ToBytes(8, 5)
  {
    ExponentIsLowBits(0, 32);
    PowIsProduct(2, 2);
    PowIsProduct(2, 3);
    PowIsProduct(2, 1);
    PowAdd(2, 4, 4);
    PowAdd(2, 8, 8);
    PowAdd(2, 16, 16);
  }

  // ---- the code's own byte handling ----

  /** big.Int.Bytes: big-endian without leading zeros. */
  function MinimalBytes(x: nat): seq<byte> {
    if x == 0 then [] else MinimalBytes(x / 256) + [x % 256]
  }

  function Zeros(n: nat): (z: seq<byte>)
    ensures |z| == n && forall i :: 0 <= i < n ==> z[i] == 0
  {
    seq(n, _ => 0)
  }

  lemma {:induction false} PaddedMinimal(n: nat, x: nat)
    requires x < Pow256(n)
    ensures |MinimalBytes(x)| <= n && Zeros(n - |MinimalBytes(x)|) + MinimalBytes(x) == ToBytes(n, x)
  {
    if x == 0 {
      ZeroBytes(n);
    } else {
      PaddedMinimal(n - 1, x / 256);
      var short := MinimalBytes(x / 256);
      assert Zeros(n - 1 - |short|) + (short + [x % 256]) == Zeros(n - 1 - |short|) + short + [x % 256];
    }
  }

  lemma {:induction false} ZeroBytes(n: nat)
    ensures ToBytes(n, 0) == Zeros(n)
  {
    if n > 0 {
      ZeroBytes(n - 1);
      assert Zeros(n) == Zeros(n - 1) + [0];
    }
  }

  /** Right-aligns a byte string in eight bytes, keeping the last eight if it is longer. */
  method AlignRight(bytes: seq<byte>) returns (result: array<byte>)
    ensures fresh(result) && result.Length == 8
    ensures result[..] == (Zeros(8) + bytes)[|bytes|..]
  {
    result := new byte[8](_ => 0);
    if |bytes| <= 8 {
      for i := 0 to |bytes|
        invariant forall k :: 0 <= k < 8 - |bytes| ==> result[k] == 0
        invariant forall k :: 0 <= k < i ==> result[8 - |bytes| + k] == bytes[k]
      {
        result[8 - |bytes| + i] := bytes[i];
      }
    } else {
      for i := 0 to 8
        invariant forall k :: 0 <= k < i ==> result[k] == bytes[|bytes| - 8 + k]
      {
        result[i] := bytes[|bytes| - 8 + i];
      }
    }
  }

  lemma AlignedIsPadded(x: nat)
    requires x < MODULUS
    ensures (Zeros(8) + MinimalBytes(x))[|MinimalBytes(x)|..] == ToBytes(8, x)
  {
    Widths();
    PaddedMinimal(8, x);
    var m := MinimalBytes(x);
    assert (Zeros(8) + m)[|m|..] == Zeros(8 - |m|) + m;
  }

  method DHExchange(key: seq<byte>) returns (result: array<byte>)
    requires |key| == 8
    ensures fresh(result) && result[..] == PublicKey(key)
  {
    var private := FromBytes(key) % TWO_31;
    if private <= 1 { private := 2; }
    var public := ExpMod(GENERATOR, private);
    AlignedIsPadded(public);
    result := AlignRight(MinimalBytes(public));
  }

  method DHSecret(privateKey: seq<byte>, publicKey: seq<byte>) returns (result: array<byte>)
    requires |privateKey| == 8 && |publicKey| == 8
    ensures fresh(result) && result[..] == SharedSecret(privateKey, publicKey)
  {
    var private, public := FromBytes(privateKey) % TWO_31, FromBytes(publicKey);
    if private <= 1 { private := 2; }
    var secret := ExpMod(public, private);
    AlignedIsPadded(secret);
    result := AlignRight(MinimalBytes(secret));
  }
}

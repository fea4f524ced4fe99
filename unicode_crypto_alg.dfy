/**
 * `UnicodeCryptoAlg`: every UTF-16 code unit of the text is moved by the key,
 * and the sum is cut back to 16 bits by the `(char)` cast.
 */
module UnicodeCrypto {
  import opened JavaInt

  /**
   * `encryptChar`: `(char) (letter + key)`. The `int` sum may wrap at 32 bits
   * before the cast, which does not matter: the result is the sum modulo 2^16.
   */
  function EncryptChar(letter: Char16, key: Int32): (r: Char16)
    ensures r == (letter + key) % 0x1_0000
  {
    Wrap32LowBits(letter + key);
    ToChar(Wrap32(letter + key))
  }

  /** The text `encrypt` builds: each code unit passed through `EncryptChar`. */
  function Shifted(data: String, key: Int32): (r: String)
  {
    seq(|data|, i requires 0 <= i < |data| => EncryptChar(data[i], key))
  }

  /** The per-character rule: same length, each unit moved by the key modulo 2^16. */
  lemma ShiftedAt(data: String, key: Int32)
    ensures |Shifted(data, key)| == |data|
    ensures forall i :: 0 <= i < |data| ==> Shifted(data, key)[i] == (data[i] + key) % 0x1_0000
  {
  }

  /** Decrypting a code unit with the same key (`-key`, wrapped) restores it. */
  lemma {:induction false} CharRoundTrip(c: Char16, key: Int32)
    ensures EncryptChar(EncryptChar(c, key), Neg(key)) == c
  {
    NegLowBits(key);
    CancelResidue(c, key, Neg(key), 0x1_0000);
    ResidueUnique(c, 0, 0x1_0000, c);
  }

  /** `decrypt(encrypt(s)) == s` under one key, for every `int` key. */
  lemma {:induction false} RoundTrip(data: String, key: Int32)
    ensures Shifted(Shifted(data, key), Neg(key)) == data
  {
    var e := Shifted(data, key);
    forall i | 0 <= i < |data|
      ensures Shifted(e, Neg(key))[i] == data[i]
    {
      CharRoundTrip(data[i], key);
    }
  }

  /** A key of 0 leaves every text as it is. */
  lemma ZeroKeyIsIdentity(data: String)
    ensures Shifted(data, 0) == data
  {
  }

  /** "A" encrypts to "B" under key 1, and "B" decrypts back to "A". */
  lemma OneStepExample()
    ensures Shifted(Lit("A"), 1) == Lit("B")
    ensures Shifted(Lit("B"), Neg(1)) == Lit("A")
  {
  }

  /** The top code unit wraps to the bottom one: `(char) (0xFFFF + 1)` is 0. */
  lemma TopUnitWraps()
    ensures EncryptChar(0xFFFF, 1) == 0
    ensures EncryptChar(0, -1) == 0xFFFF
  {
  }

  /** The class `UnicodeCryptoAlg`, whose one field is the key set by `setKey`. */
  class UnicodeCryptoAlg {
    var key: Int32

    /** Java leaves an `int` field at 0 until it is set. */
    constructor ()
      ensures key == 0
    {
      key := 0;
    }

    method SetKey(key: Int32)
      modifies this
      ensures this.key == key
    {
      this.key := key;
    }

    /** Appends `encryptChar(data.charAt(i), key)` for each `i` in turn. */
    method Encrypt(data: String) returns (r: String)
      ensures |r| == |data|
      ensures r == Shifted(data, key)
    {
      var sb: String := [];
      var i := 0;
      while i < |data|
        invariant 0 <= i <= |data|
        invariant |sb| == i
        invariant forall j :: 0 <= j < i ==> sb[j] == EncryptChar(data[j], key)
      {
        sb := sb + [EncryptChar(data[i], key)];
        i := i + 1;
      }
      r := sb;
    }

    /** The same loop with `-key`. */
    method Decrypt(data: String) returns (r: String)
      ensures |r| == |data|
      ensures r == Shifted(data, Neg(key))
    {
      var k := Neg(key);
      var sb: String := [];
      var i := 0;
      while i < |data|
        invariant 0 <= i <= |data|
        invariant |sb| == i
        invariant forall j :: 0 <= j < i ==> sb[j] == EncryptChar(data[j], k)
      {
        sb := sb + [EncryptChar(data[i], k)];
        i := i + 1;
      }
      r := sb;
    }
  }
}

/**
 * `ShiftCryptoAlg`: a Caesar shift. An ASCII lower-case letter moves by the key
 * within "abcdefghijklmnopqrstuvwxyz", an upper-case one within
 * "ABCDEFGHIJKLMNOPQRSTUVWXYZ"; every other code unit is kept.
 */
module ShiftCrypto {
  import opened JavaInt

  /** The field `lowerLetters`. */
  const LowerLetters: String := Lit("abcdefghijklmnopqrstuvwxyz")

  /** The field `upperLetters`. */
  const UpperLetters: String := Lit("ABCDEFGHIJKLMNOPQRSTUVWXYZ")

  /** Each table holds its 26 letters in code-unit order, from "a" and from "A". */
  lemma LetterTables()
    ensures |LowerLetters| == 26 && forall i :: 0 <= i < 26 ==> LowerLetters[i] == 'a' as int + i
    ensures |UpperLetters| == 26 && forall i :: 0 <= i < 26 ==> UpperLetters[i] == 'A' as int + i
  {
    forall i | 0 <= i < 26
      ensures LowerLetters[i] == 'a' as int + i
    {
      var s := "abcdefghijklmnopqrstuvwxyz";
      assert s[i] as int == 'a' as int + i;
    }
    forall i | 0 <= i < 26
      ensures UpperLetters[i] == 'A' as int + i
    {
      var s := "ABCDEFGHIJKLMNOPQRSTUVWXYZ";
      assert s[i] as int == 'A' as int + i;
    }
  }

  predicate IsLower(c: Char16) {
    'a' as int <= c <= 'z' as int
  }

  predicate IsUpper(c: Char16) {
    'A' as int <= c <= 'Z' as int
  }

  /** `String.indexOf(char)`: the first position of `c` in `s`, or -1. */
  function IndexOf(s: String, c: Char16): (r: int)
    ensures -1 <= r < |s|
    ensures r == -1 <==> c !in s
    ensures r >= 0 ==> s[r] == c && c !in s[..r]
  {
    if s == [] then -1
    else if s[0] == c then 0
    else
      var k := IndexOf(s[1..], c);
      if k == -1 then -1
      else
        assert s[..k + 1] == [s[0]] + s[1..][..k];
        k + 1
  }

  /** The alphabet positions the two lookups of `encryptChar` find. */
  lemma LetterPositions(c: Char16)
    ensures IndexOf(LowerLetters, c) == if IsLower(c) then c - 'a' as int else -1
    ensures IndexOf(UpperLetters, c) == if IsUpper(c) then c - 'A' as int else -1
  {
    LetterTables();
    if IsLower(c) {
      assert LowerLetters[c - 'a' as int] == c;
    } else {
      assert c !in LowerLetters;
    }
    if IsUpper(c) {
      assert UpperLetters[c - 'A' as int] == c;
    } else {
      assert c !in UpperLetters;
    }
  }

  /**
   * The index `encryptChar` ends with: `(index + key) % 26` in Java's 32-bit,
   * truncating arithmetic, then raised by 26 while it is negative. It always
   * lies in `[0, 26)` and is the Euclidean residue of the wrapped sum.
   */
  function RotatedIndex(index: int, key: Int32): (r: int)
    requires 0 <= index < 26
    ensures 0 <= r < 26
    ensures r == Wrap32(index + key) % 26
  {
    var i := Rem(Wrap32(index + key), 26);
    if i < 0 then i + 26 else i
  }

  /**
   * What `encryptChar(letter, key)` returns: a letter keeps its case and moves
   * to the residue of its wrapped `int` sum with the key; anything else stays.
   */
  function ShiftChar(letter: Char16, key: Int32): (r: Char16)
    ensures IsLower(r) <==> IsLower(letter)
    ensures IsUpper(r) <==> IsUpper(letter)
    ensures IsLower(letter) ==> r - 'a' as int == Wrap32(letter - 'a' as int + key) % 26
    ensures IsUpper(letter) ==> r - 'A' as int == Wrap32(letter - 'A' as int + key) % 26
    ensures !IsLower(letter) && !IsUpper(letter) ==> r == letter
  {
    if IsLower(letter) then 'a' as int + RotatedIndex(letter - 'a' as int, key)
    else if IsUpper(letter) then 'A' as int + RotatedIndex(letter - 'A' as int, key)
    else letter
  }

  /** The text `encrypt` builds: each code unit passed through `ShiftChar`. */
  function Shifted(data: String, key: Int32): (r: String)
  {
    seq(|data|, i requires 0 <= i < |data| => ShiftChar(data[i], key))
  }

  /**
   * Keys for which neither `index + key` nor `index - key` leaves the `int`
   * range for any alphabet index, so that both directions are an exact shift.
   */
  predicate NoOverflow(key: Int32) {
    IntMin + 26 <= key <= IntMax - 25
  }

  /**
   * Where `index + key` cannot overflow, that is for every key up to
   * `Integer.MAX_VALUE - 25`, the letter rule is the plain Caesar shift.
   */
  lemma LetterRule(c: Char16, key: Int32)
    requires key <= IntMax - 25
    ensures IsLower(c) ==> ShiftChar(c, key) == 'a' as int + (c - 'a' as int + key) % 26
    ensures IsUpper(c) ==> ShiftChar(c, key) == 'A' as int + (c - 'A' as int + key) % 26
    ensures !IsLower(c) && !IsUpper(c) ==> ShiftChar(c, key) == c
  {
  }

  /** Length, letter class and case are kept; every other code unit is copied. */
  lemma ClassPreserved(data: String, key: Int32)
    ensures |Shifted(data, key)| == |data|
    ensures forall i :: 0 <= i < |data| ==>
      && (IsLower(Shifted(data, key)[i]) <==> IsLower(data[i]))
      && (IsUpper(Shifted(data, key)[i]) <==> IsUpper(data[i]))
      && (!IsLower(data[i]) && !IsUpper(data[i]) ==> Shifted(data, key)[i] == data[i])
  {
  }

  /** A letter at position `p` moves back to `p` under `-key`. */
  lemma {:induction false} CharRoundTrip(c: Char16, key: Int32)
    requires NoOverflow(key)
    ensures ShiftChar(ShiftChar(c, key), Neg(key)) == c
  {
    var e, n := ShiftChar(c, key), Neg(key);
    assert n == -(key as int) && NoOverflow(n);
    LetterRule(c, key);
    LetterRule(e, n);
    if IsLower(c) {
      var p := c - 'a' as int;
      var q := (p + key) % 26;
      assert e == 'a' as int + q;
      assert ShiftChar(e, n) == 'a' as int + (q + n) % 26;
      ShiftBack(p, key);
    } else if IsUpper(c) {
      var p := c - 'A' as int;
      var q := (p + key) % 26;
      assert e == 'A' as int + q;
      assert ShiftChar(e, n) == 'A' as int + (q + n) % 26;
      ShiftBack(p, key);
    } else {
      assert e == c;
    }
  }

  /** Moving an alphabet position by `key` and then by `-key` returns it. */
  lemma ShiftBack(p: int, key: int)
    requires 0 <= p < 26
    ensures ((p + key) % 26 + -key) % 26 == p
  {
    CancelResidue(p, key, -key, 26);
  }

  /** `decrypt(encrypt(s)) == s` under one key, for every key without overflow. */
  lemma {:induction false} RoundTrip(data: String, key: Int32)
    requires NoOverflow(key)
    ensures Shifted(Shifted(data, key), Neg(key)) == data
  {
    var e := Shifted(data, key);
    forall i | 0 <= i < |data|
      ensures Shifted(e, Neg(key))[i] == data[i]
    {
      CharRoundTrip(data[i], key);
    }
  }

  /** Moving an alphabet position by a multiple of 26 leaves it where it is. */
  lemma ShiftByMultiple(p: int, key: int)
    requires 0 <= p < 26 && key % 26 == 0
    ensures (p + key) % 26 == p
  {
    AddResidue(key, p, 26);
  }

  /**
   * A key that is a multiple of 26 (0 among them) leaves every text as it is,
   * for every such key up to `Integer.MAX_VALUE - 25`.
   */
  lemma {:induction false} MultipleOf26IsIdentity(data: String, key: Int32)
    requires key <= IntMax - 25 && key % 26 == 0
    ensures Shifted(data, key) == data
  {
    forall i | 0 <= i < |data|
      ensures Shifted(data, key)[i] == data[i]
    {
      var c := data[i];
      LetterRule(c, key);
      if IsLower(c) {
        ShiftByMultiple(c - 'a' as int, key);
      } else if IsUpper(c) {
        ShiftByMultiple(c - 'A' as int, key);
      }
    }
  }

  /**
   * Near `Integer.MIN_VALUE` the sum `index + key` cannot overflow, so the
   * lowest multiple of 26 in the `int` range leaves every text as it is.
   */
  lemma LowestMultipleOf26IsIdentity(data: String)
    ensures Shifted(data, -2147483624) == data
  {
    ResidueUnique(-2147483624, -82595524, 26, 0);
    MultipleOf26IsIdentity(data, -2147483624);
  }

  /** Under `Integer.MIN_VALUE`, which is 2 modulo 26, "a" moves to "c". */
  lemma MinKeyMovesA()
    ensures ShiftChar('a' as int, IntMin) == 'c' as int
  {
    assert Wrap32(0 + IntMin) == IntMin;
    ResidueUnique(IntMin, -82595525, 26, 2);
  }

  /** Under `Integer.MIN_VALUE` "c" moves to "e". */
  lemma MinKeyMovesC()
    ensures ShiftChar('c' as int, IntMin) == 'e' as int
  {
    assert Wrap32(2 + IntMin) == 2 + IntMin;
    ResidueUnique(2 + IntMin, -82595525, 26, 4);
  }

  /** The wrap-arounds at both ends of the alphabet, and a full turn. */
  lemma AlphabetEnds()
    ensures ShiftChar('a' as int, -1) == 'z' as int
    ensures ShiftChar('Z' as int, 1) == 'A' as int
    ensures ShiftChar('a' as int, 26) == 'a' as int
  {
    LetterRule('a' as int, -1);
    LetterRule('Z' as int, 1);
    LetterRule('a' as int, 26);
  }

  /** Letters move by three, keeping case, "z" wraps to "c"; the comma, blank and "1" stay. */
  lemma HelloWorld()
    ensures Shifted(['H' as int, 'i' as int, ',' as int, ' ' as int, 'z' as int, 'Z' as int, '1' as int], 3)
         == ['K' as int, 'l' as int, ',' as int, ' ' as int, 'c' as int, 'C' as int, '1' as int]
  {
    var s: String := ['H' as int, 'i' as int, ',' as int, ' ' as int, 'z' as int, 'Z' as int, '1' as int];
    forall i | 0 <= i < |s|
      ensures Shifted(s, 3)[i] == ShiftChar(s[i], 3)
    {
    }
    LetterRule('H' as int, 3);
    LetterRule('i' as int, 3);
    LetterRule('z' as int, 3);
    LetterRule('Z' as int, 3);
  }

  /** On a one-unit text `encrypt` is `encryptChar`. */
  lemma StringOfOne(c: Char16, key: Int32)
    ensures Shifted([c], key) == [ShiftChar(c, key)]
  {
  }

  /**
   * Outside the overflow-free range the round trip can fail: under
   * `Integer.MIN_VALUE` "a" encrypts to "c", which decrypts to "e".
   */
  lemma MinKeyRoundTripFails()
    ensures Shifted(['a' as int], IntMin) == ['c' as int]
    ensures Shifted(Shifted(['a' as int], IntMin), Neg(IntMin)) == ['e' as int]
  {
    MinKeyMovesA();
    StringOfOne('a' as int, IntMin);
    var encrypted := Shifted(['a' as int], IntMin);
    assert encrypted == ['c' as int];
    MinKeyMovesC();
    StringOfOne('c' as int, IntMin);
    assert Shifted(encrypted, IntMin) == ['e' as int];
  }

  /**
   * A multiple of 26 next to `Integer.MAX_VALUE` is not the identity:
   * `25 + key` wraps to a negative `int`, and "z" becomes "d". Decrypting
   * with `-key`, which does not overflow, leaves "d" as it is, so the round
   * trip fails under this key as well.
   */
  lemma WrappedMultipleOf26MovesZ()
    ensures 2147483624 % 26 == 0
    ensures Shifted(['z' as int], 2147483624) == ['d' as int]
    ensures Shifted(Shifted(['z' as int], 2147483624), Neg(2147483624)) == ['d' as int]
  {
    ResidueUnique(4294967297, 1, 0x1_0000_0000, 1);
    assert Wrap32(25 + 2147483624) == -2147483647;
    ResidueUnique(-2147483647, -82595525, 26, 3);
    assert ShiftChar('z' as int, 2147483624) == 'd' as int;
    StringOfOne('z' as int, 2147483624);
    var encrypted := Shifted(['z' as int], 2147483624);
    assert encrypted == ['d' as int];
    assert Neg(2147483624) == -2147483624;
    ResidueUnique(3 - 2147483624, -82595524, 26, 3);
    assert ShiftChar('d' as int, -2147483624) == 'd' as int;
    StringOfOne('d' as int, -2147483624);
  }

  /** The class `ShiftCryptoAlg`, whose mutable field is the key set by `setKey`. */
  class ShiftCryptoAlg {
    var key: Int32

    /** Java leaves an `int` field at 0 until it is set. */
    constructor ()
      ensures key == 0
    {
      key := 0;
    }

    method SetKey(key: Int32)
      modifies this
      ensures this.key == key
    {
      this.key := key;
    }

    /** Appends `encryptChar(data.charAt(i), key)` for each `i` in turn. */
    method Encrypt(data: String) returns (r: String)
      ensures |r| == |data|
      ensures r == Shifted(data, key)
    {
      var sb: String := [];
      var i := 0;
      while i < |data|
        invariant 0 <= i <= |data|
        invariant |sb| == i
        invariant forall j :: 0 <= j < i ==> sb[j] == ShiftChar(data[j], key)
      {
        var c := EncryptChar(data[i], key);
        sb := sb + [c];
        i := i + 1;
      }
      assert sb == Shifted(data, key);
      r := sb;
    }

    /** The same loop with `-key`. */
    method Decrypt(data: String) returns (r: String)
      ensures |r| == |data|
      ensures r == Shifted(data, Neg(key))
    {
      var k := Neg(key);
      var sb: String := [];
      var i := 0;
      while i < |data|
        invariant 0 <= i <= |data|
        invariant |sb| == i
        invariant forall j :: 0 <= j < i ==> sb[j] == ShiftChar(data[j], k)
      {
        var c := EncryptChar(data[i], k);
        sb := sb + [c];
        i := i + 1;
      }
      assert sb == Shifted(data, k);
      r := sb;
    }

    /**
     * `encryptChar`: look the letter up in both alphabets, move its index by
     * the key and normalise a negative remainder with a loop, which runs at
     * most once.
     */
    method EncryptChar(letter: Char16, key: Int32) returns (r: Char16)
      ensures r == ShiftChar(letter, key)
    {
      LetterTables();
      LetterPositions(letter);
      var lowerIndex := IndexOf(LowerLetters, letter);
      var upperIndex := IndexOf(UpperLetters, letter);
      if lowerIndex != -1 {
        var i := NormalisedRem(lowerIndex, key);
        r := LowerLetters[i];
      } else if upperIndex != -1 {
        var i := NormalisedRem(upperIndex, key);
        r := UpperLetters[i];
      } else {
        r := letter;
      }
    }

    /** `index = (index + key) % 26; while (index < 0) index += 26;` */
    static method NormalisedRem(index: int, key: Int32) returns (r: int)
      requires 0 <= index < 26
      ensures 0 <= r < 26
      ensures r == RotatedIndex(index, key)
    {
      r := Rem(Wrap32(index + key), 26);
      ghost var first := r;
      while r < 0
        invariant r == first || (first < 0 && r == first + 26)
        decreases -r
      {
        r := r + 26;
      }
    }
  }
}

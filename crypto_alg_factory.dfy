/**
 * The `CryptoAlg` interface and `CryptoAlgFactory`: the name given to `-alg`
 * chooses one of the two cipher classes, and the interface's three methods
 * dispatch to the chosen object.
 */
module CryptoAlgFactory {
  import opened JavaInt
  import UnicodeCrypto
  import ShiftCrypto

  /** The two classes that implement `CryptoAlg`. */
  datatype AlgKind = Unicode | Shift

  /** The `-alg` name that selects each class. */
  function NameOf(kind: AlgKind): String {
    match kind
    case Unicode => Lit("unicode")
    case Shift => Lit("shift")
  }

  /** Which class `makeCryptoAlg(algName)` instantiates; `None` where it returns `null`. */
  function KindNamed(algName: Option<String>): (r: Option<AlgKind>)
    ensures r.Some? ==> algName == Some(NameOf(r.value))
    ensures r.None? <==> algName != Some(NameOf(Unicode)) && algName != Some(NameOf(Shift))
  {
    if algName == Some(Lit("unicode")) then Some(Unicode)
    else if algName == Some(Lit("shift")) then Some(Shift)
    else None
  }

  /** A name selects a class exactly when it is that class's name. */
  lemma KindNamedExactly(algName: Option<String>, kind: AlgKind)
    ensures KindNamed(algName) == Some(kind) <==> algName == Some(NameOf(kind))
  {
    assert Lit("unicode") != Lit("shift") by {
      assert |Lit("unicode")| == 7 && |Lit("shift")| == 5;
    }
  }

  /** What `encrypt` of a `kind` object whose key is `key` returns; `decrypt` uses `Neg(key)`. */
  function Encrypted(kind: AlgKind, key: Int32, data: String): (r: String)
    ensures |r| == |data|
  {
    match kind
    case Unicode => UnicodeCrypto.Shifted(data, key)
    case Shift => ShiftCrypto.Shifted(data, key)
  }

  /**
   * A value of the interface type `CryptoAlg`: a reference to an object of
   * one of the two classes. Its methods dispatch as Java's virtual calls do.
   */
  datatype CryptoAlg =
    | UnicodeAlg(u: UnicodeCrypto.UnicodeCryptoAlg)
    | ShiftAlg(s: ShiftCrypto.ShiftCryptoAlg)
  {
    function Kind(): AlgKind {
      match this
      case UnicodeAlg(_) => Unicode
      case ShiftAlg(_) => Shift
    }

    /** The object the reference points to. */
    function Object(): object {
      match this
      case UnicodeAlg(u) => u
      case ShiftAlg(s) => s
    }

    /** The object's `key` field. */
    function Key(): Int32
      reads Object()
    {
      match this
      case UnicodeAlg(u) => u.key
      case ShiftAlg(s) => s.key
    }

    method SetKey(key: Int32)
      modifies Object()
      ensures Key() == key
    {
      match this
      case UnicodeAlg(u) => u.SetKey(key);
      case ShiftAlg(s) => s.SetKey(key);
    }

    method Encrypt(data: String) returns (r: String)
      ensures r == Encrypted(Kind(), Key(), data)
    {
      match this
      case UnicodeAlg(u) => r := u.Encrypt(data);
      case ShiftAlg(s) => r := s.Encrypt(data);
    }

    method Decrypt(data: String) returns (r: String)
      ensures r == Encrypted(Kind(), Neg(Key()), data)
    {
      match this
      case UnicodeAlg(u) => r := u.Decrypt(data);
      case ShiftAlg(s) => r := s.Decrypt(data);
    }
  }

  /** `makeCryptoAlg`: a new object of the named class, or `null` for any other name. */
  method MakeCryptoAlg(algName: Option<String>) returns (alg: Option<CryptoAlg>)
    ensures alg.None? <==> KindNamed(algName).None?
    ensures alg.Some? ==> alg.value.Kind() == KindNamed(algName).value
    ensures alg.Some? ==> fresh(alg.value.Object()) && alg.value.Key() == 0
  {
    if algName == Some(Lit("unicode")) {
      var u := new UnicodeCrypto.UnicodeCryptoAlg();
      return Some(UnicodeAlg(u));
    } else if algName == Some(Lit("shift")) {
      var s := new ShiftCrypto.ShiftCryptoAlg();
      return Some(ShiftAlg(s));
    }
    return None;
  }
}

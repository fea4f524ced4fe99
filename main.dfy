/**
 * The class `Main`: the command-line flag lookups and the part of `main` that
 * resolves the algorithm, sets its key and runs it in the requested mode.
 * `System.out.println` followed by `System.exit(1)` becomes a `Failed` outcome.
 */
module EncryptDecrypt {
  import opened JavaInt
  import opened CryptoAlgFactory
  import ShiftCrypto

  /** The two fatal errors of the dispatch, in the order `main` checks them. */
  datatype Error = InvalidAlg | InvalidMode

  /** The result text of a run, or the error that stopped it. */
  datatype Outcome = Done(result: String) | Failed(error: Error)

  /** The two valid `-mode` values. */
  const Enc: String := Lit("enc")
  const Dec: String := Lit("dec")

  /**
   * Lines 36-49 of `main`: `makeCryptoAlg(algName)`, `setKey(key)`, then
   * `encrypt` on "enc", `decrypt` on "dec", and an error on anything else.
   */
  function Transform(mode: String, algName: Option<String>, key: Int32, data: String): (r: Outcome)
    ensures r == Failed(InvalidAlg) <==> algName != Some(Lit("unicode")) && algName != Some(Lit("shift"))
    ensures r == Failed(InvalidMode) <==> KindNamed(algName).Some? && mode != Enc && mode != Dec
    ensures r.Done? ==> |r.result| == |data|
  {
    match KindNamed(algName)
    case None => Failed(InvalidAlg)
    case Some(kind) =>
      if mode == Enc then Done(Encrypted(kind, key, data))
      else if mode == Dec then Done(Encrypted(kind, Neg(key), data))
      else Failed(InvalidMode)
  }

  /** The dispatch as `main` performs it, on an object made by the factory. */
  method Run(mode: String, algName: Option<String>, key: Int32, data: String) returns (r: Outcome)
    ensures r == Transform(mode, algName, key, data)
  {
    var algorithm := MakeCryptoAlg(algName);
    if algorithm.None? {
      return Failed(InvalidAlg);
    }
    var alg := algorithm.value;
    alg.SetKey(key);
    if mode == Enc {
      var result := alg.Encrypt(data);
      return Done(result);
    } else if mode == Dec {
      var result := alg.Decrypt(data);
      return Done(result);
    }
    return Failed(InvalidMode);
  }

  /**
   * Decrypting what `-mode enc` produced, with the same `-alg` and `-key`,
   * gives the input back: for "unicode" under every key, for "shift" under
   * every key whose shifts cannot overflow an `int`.
   */
  lemma RoundTrip(algName: Option<String>, key: Int32, data: String)
    requires KindNamed(algName).Some?
    requires KindNamed(algName) == Some(Shift) ==> ShiftCrypto.NoOverflow(key)
    ensures Transform(Enc, algName, key, data).Done?
    ensures Transform(Dec, algName, key, Transform(Enc, algName, key, data).result) == Done(data)
  {
    assert Enc != Dec by {
      assert Enc[0] == 'e' as int && Dec[0] == 'd' as int;
    }
    var kind := KindNamed(algName).value;
    var encrypted := Encrypted(kind, key, data);
    assert Transform(Enc, algName, key, data) == Done(encrypted);
    assert Transform(Dec, algName, key, encrypted) == Done(Encrypted(kind, Neg(key), encrypted));
    match kind
    case Unicode => UnicodeCrypto.RoundTrip(data, key);
    case Shift => ShiftCrypto.RoundTrip(data, key);
  }

  /** A key of 0 leaves the text unchanged under both algorithms. */
  lemma ZeroKeyIsIdentity(algName: Option<String>, data: String)
    requires KindNamed(algName).Some?
    ensures Transform(Enc, algName, 0, data) == Done(data)
  {
    match KindNamed(algName).value
    case Unicode => UnicodeCrypto.ZeroKeyIsIdentity(data);
    case Shift => ShiftCrypto.MultipleOf26IsIdentity(data, 0);
  }

  // The flag lookups. Each scans `args` for the first `i < args.length - 1`
  // with `args[i]` equal to its flag and returns `args[i + 1]`.

  /** The first position at or after `from` where `flag` stands with an element after it. */
  function FirstFlag(args: seq<String>, flag: String, from: nat): (r: Option<nat>)
    decreases |args| - from
    ensures r.None? ==> forall j :: from <= j < |args| - 1 ==> args[j] != flag
    ensures r.Some? ==> from <= r.value < |args| - 1 && args[r.value] == flag
    ensures r.Some? ==> forall j :: from <= j < r.value ==> args[j] != flag
  {
    if from < |args| - 1 then
      if args[from] == flag then Some(from) else FirstFlag(args, flag, from + 1)
    else None
  }

  /** The value of `flag`: the element after its first occurrence, or `None`. */
  function FlagValue(args: seq<String>, flag: String): (r: Option<String>)
    ensures r.None? <==> forall j :: 0 <= j < |args| - 1 ==> args[j] != flag
    ensures forall i ::
              0 <= i < |args| - 1 && args[i] == flag && (forall j :: 0 <= j < i ==> args[j] != flag)
              ==> r == Some(args[i + 1])
  {
    match FirstFlag(args, flag, 0)
    case None => None
    case Some(i) => Some(args[i + 1])
  }

  /** The loop every `get*` helper runs, with its early return. */
  method FindFlag(args: seq<String>, flag: String) returns (value: Option<String>)
    ensures value == FlagValue(args, flag)
    ensures value.None? <==> forall j :: 0 <= j < |args| - 1 ==> args[j] != flag
  {
    var i := 0;
    while i < |args| - 1
      invariant 0 <= i <= |args|
      invariant forall j :: 0 <= j < i ==> args[j] != flag
    {
      if args[i] == flag {
        return Some(args[i + 1]);
      }
      i := i + 1;
    }
    return None;
  }

  method GetAlgorithmName(args: seq<String>) returns (algName: Option<String>)
    ensures algName == FlagValue(args, Lit("-alg"))
  {
    algName := FindFlag(args, Lit("-alg"));
  }

  method GetOutFile(args: seq<String>) returns (path: Option<String>)
    ensures path == FlagValue(args, Lit("-out"))
  {
    path := FindFlag(args, Lit("-out"));
  }

  method GetInFilePath(args: seq<String>) returns (path: Option<String>)
    ensures path == FlagValue(args, Lit("-in"))
  {
    path := FindFlag(args, Lit("-in"));
  }

  /** `-mode`, "enc" when it is absent. */
  function ModeOf(args: seq<String>): String {
    FlagValue(args, Lit("-mode")).GetOr(Enc)
  }

  method GetMode(args: seq<String>) returns (mode: String)
    ensures mode == ModeOf(args)
    ensures FlagValue(args, Lit("-mode")).None? ==> mode == Enc
  {
    var value := FindFlag(args, Lit("-mode"));
    mode := if value.Some? then value.value else Enc;
  }

  /**
   * `-key`, 0 when it is absent. `Integer.parseInt` is the parameter
   * `parseInt`; the exception it throws on text that is not a number is not
   * part of this model.
   */
  function KeyOf(args: seq<String>, parseInt: String -> Int32): Int32 {
    match FlagValue(args, Lit("-key"))
    case None => 0
    case Some(text) => parseInt(text)
  }

  method GetKey(args: seq<String>, parseInt: String -> Int32) returns (key: Int32)
    ensures key == KeyOf(args, parseInt)
    ensures FlagValue(args, Lit("-key")).None? ==> key == 0
  {
    var value := FindFlag(args, Lit("-key"));
    key := if value.Some? then parseInt(value.value) else 0;
  }

  /** `-data`, the empty string when it is absent. */
  function DataOf(args: seq<String>): String {
    FlagValue(args, Lit("-data")).GetOr([])
  }

  method GetData(args: seq<String>) returns (data: String)
    ensures data == DataOf(args)
    ensures FlagValue(args, Lit("-data")).None? ==> data == []
  {
    var value := FindFlag(args, Lit("-data"));
    data := if value.Some? then value.value else [];
  }

  /** What the flags ask `main` to do, before any input file is read. */
  datatype Request = Request(mode: String, algName: Option<String>, key: Int32, data: String)

  function RequestOf(args: seq<String>, parseInt: String -> Int32): (r: Request)
    ensures r.algName == FlagValue(args, Lit("-alg"))
    ensures FlagValue(args, Lit("-mode")).None? ==> r.mode == Enc
    ensures FlagValue(args, Lit("-key")).None? ==> r.key == 0
    ensures FlagValue(args, Lit("-data")).None? ==> r.data == []
    ensures forall text :: FlagValue(args, Lit("-mode")) == Some(text) ==> r.mode == text
    ensures forall text :: FlagValue(args, Lit("-key")) == Some(text) ==> r.key == parseInt(text)
    ensures forall text :: FlagValue(args, Lit("-data")) == Some(text) ==> r.data == text
  {
    Request(ModeOf(args), FlagValue(args, Lit("-alg")), KeyOf(args, parseInt), DataOf(args))
  }

  /** Two leading elements that are not `flag` do not change what `flag` finds. */
  lemma {:induction false} FlagValueAfterPair(a: String, b: String, args: seq<String>, flag: String)
    requires a != flag && b != flag
    ensures FlagValue([a, b] + args, flag) == FlagValue(args, flag)
  {
    var all := [a, b] + args;
    var inner, outer := FirstFlag(args, flag, 0), FirstFlag(all, flag, 0);
    assert forall j :: 0 <= j < |args| ==> all[j + 2] == args[j];
    match inner
    case None =>
    case Some(i) =>
      assert all[i + 2] == flag;
      var k := outer.value;
      assert k >= 2 && args[k - 2] == flag;
      assert k == i + 2;
  }

  /** Omitting `-mode` does what `-mode enc` in front of the other flags does. */
  lemma DefaultModeIsEnc(args: seq<String>, parseInt: String -> Int32)
    requires FlagValue(args, Lit("-mode")).None?
    ensures RequestOf([Lit("-mode"), Enc] + args, parseInt) == RequestOf(args, parseInt)
  {
    var pre := [Lit("-mode"), Enc];
    assert pre[0][0] == '-' as int && pre[1][0] == 'e' as int;
    assert Lit("-alg")[0] == '-' as int && Lit("-alg") != Lit("-mode");
    assert Lit("-key")[0] == '-' as int && Lit("-key") != Lit("-mode");
    assert Lit("-data")[1] == 'd' as int && Lit("-mode")[1] == 'm' as int;
    FlagValueAfterPair(pre[0], pre[1], args, Lit("-alg"));
    FlagValueAfterPair(pre[0], pre[1], args, Lit("-key"));
    FlagValueAfterPair(pre[0], pre[1], args, Lit("-data"));
    assert FirstFlag(pre + args, Lit("-mode"), 0) == Some(0);
  }

  /** An algorithm name that is neither "unicode" nor "shift" stops the run. */
  lemma UnknownAlgorithmFails(mode: String, key: Int32, data: String)
    ensures Transform(mode, Some(Lit("rot13")), key, data) == Failed(InvalidAlg)
  {
    assert Lit("rot13")[0] == 'r' as int;
  }
}

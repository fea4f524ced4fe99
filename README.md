# encrypt-decrypt cipher core, in Dafny

This project models the command-line text cipher `encryptdecrypt.Main`. The tool reads
`-mode enc|dec`, `-alg unicode|shift`, `-key <int>` and `-data <text>` from its
arguments. It picks one of two ciphers and prints or writes the encrypted or decrypted text.

- `UnicodeCryptoAlg` adds the key to every UTF-16 code unit. The `(char)` cast cuts the
  sum back to 16 bits (module `UnicodeCrypto`).
- `ShiftCryptoAlg` is a Caesar shift. An ASCII lower-case or upper-case letter moves by
  the key within its own 26-letter alphabet, and every other code unit is copied. The
  index uses Java's truncating `%`, then a `while (index < 0) index += 26` loop (module
  `ShiftCrypto`).
- `CryptoAlgFactory.makeCryptoAlg` maps "unicode" and "shift" to the two classes and
  every other name to `null`. The `CryptoAlg` interface is a datatype whose two variants
  hold a reference to an object of either class (module `CryptoAlgFactory`).
- In `main`, the dispatch resolves the algorithm and sets its key. It encrypts on "enc",
  decrypts on "dec", and fails otherwise. The `get*` helpers look a flag up in the
  argument array (module `EncryptDecrypt`).

Java's value types are written out in module `JavaInt`:
- `int` is `Int32`. Its wrap-around is `Wrap32`, and unary minus is `Neg`, where
  `-Integer.MIN_VALUE` is `Integer.MIN_VALUE`.
- `char` is `Char16`, an unsigned 16-bit number, and `String` is a sequence of `Char16`.
- The truncating `%` is `Rem`, and the `(char)` cast is `ToChar`.
- `null` is `None` of `Option`.

The two classes have a mutable `key` field, so they are Dafny classes. `SetKey` changes
the field. `Encrypt` and `Decrypt` are loops that append to a builder, and each is proved
equal to a specification function (`Shifted`). The round-trip, length, case and
per-character properties are lemmas about those functions.

A shift cipher is expected to satisfy `decrypt(encrypt(s)) == s` for every key. The code
keeps that only where `index + key` and `index - key` cannot overflow an `int`. The
model follows the code. It proves the shift cipher's round trip for keys in
`[-2^31 + 26, 2^31 - 26]` (`ShiftCrypto.NoOverflow`). It also proves two keys where the
round trip fails:
- under `Integer.MIN_VALUE`, "a" encrypts to "c" and decrypts to "e";
- under `2147483624`, "z" encrypts to "d" and decrypts to "d".

The second key is a multiple of 26, so it also breaks the rule that a multiple of 26
leaves every text unchanged. The Unicode cipher's round trip holds for every `int` key.

## Model

| member | source | states |
|---|---|---|
| `JavaInt.Wrap32` | src/encryptdecrypt/Main.java:206 | Java's 32-bit `int` sum, as in `index + key` here and at lines 169 and 212: the exact value when it fits in `int`, and otherwise the `int` that differs from it by a multiple of 2^32 |
| `JavaInt.ToChar` | src/encryptdecrypt/Main.java:169 | the `(char)` cast: an `int` that fits in a `char` is kept, and otherwise the result differs from it by a multiple of 2^16 |
| `JavaInt.Neg` | src/encryptdecrypt/Main.java:163 | Java's `-key`: the exact negation, except that `Integer.MIN_VALUE` maps to itself |
| `JavaInt.NegLowBits` | src/encryptdecrypt/Main.java:163 | Java's `-key` has the same low 16 bits as the exact negation, `Integer.MIN_VALUE` included, so the `(char)` cast cannot tell them apart |
| `JavaInt.Rem` | src/encryptdecrypt/Main.java:206 | Java's `%` with a positive divisor: the result lies in `(-b, b)` and has the sign of the dividend, and adding `b` to a negative result gives the Euclidean residue |
| `UnicodeCrypto.EncryptChar` | src/encryptdecrypt/Main.java:168-170 | `(char) (letter + key)` equals `(letter + key) mod 65536`, even where the `int` sum wraps first |
| `UnicodeCrypto.ShiftedAt` | src/encryptdecrypt/Main.java:151-157 | the encrypted text has the input's length, and unit `i` is `(input[i] + key) mod 65536` |
| `UnicodeCrypto.CharRoundTrip` | src/encryptdecrypt/Main.java:163-170 | one code unit encrypted with `key` and then with `-key` is the unit itself, for every `int` key |
| `UnicodeCrypto.RoundTrip` | src/encryptdecrypt/Main.java:151-166 | `decrypt(encrypt(s)) == s` for every text and every `int` key |
| `UnicodeCrypto.ZeroKeyIsIdentity` | src/encryptdecrypt/Main.java:151-157 | a key of 0 leaves every text unchanged |
| `UnicodeCrypto.OneStepExample` | src/encryptdecrypt/Main.java:151-170 | "A" encrypts to "B" under key 1, and "B" decrypts to "A" |
| `UnicodeCrypto.TopUnitWraps` | src/encryptdecrypt/Main.java:169 | the cast wraps: 0xFFFF + 1 gives 0, and 0 - 1 gives 0xFFFF |
| `UnicodeCrypto.UnicodeCryptoAlg.constructor` | src/encryptdecrypt/Main.java:141-143 | a new object has key 0, the `int` field default |
| `UnicodeCrypto.UnicodeCryptoAlg.SetKey` | src/encryptdecrypt/Main.java:146-148 | `setKey` stores its argument in the `key` field |
| `UnicodeCrypto.UnicodeCryptoAlg.Encrypt` | src/encryptdecrypt/Main.java:151-157 | the builder loop returns a text as long as the input, namely `Shifted(data, key)` |
| `UnicodeCrypto.UnicodeCryptoAlg.Decrypt` | src/encryptdecrypt/Main.java:160-166 | the builder loop with `-key` returns `Shifted(data, Neg(key))` |
| `ShiftCrypto.LetterTables` | src/encryptdecrypt/Main.java:176-177 | the literals `lowerLetters` and `upperLetters` each hold 26 code units, and position `i` holds `'a' + i` and `'A' + i` respectively |
| `ShiftCrypto.IndexOf` | src/encryptdecrypt/Main.java:203-204 | `String.indexOf`: -1 exactly when the unit is absent, otherwise a position that holds it with no earlier occurrence |
| `ShiftCrypto.LetterPositions` | src/encryptdecrypt/Main.java:203-204 | the lookups find `c - 'a'` for a lower-case letter and `c - 'A'` for an upper-case one, and -1 for anything else |
| `ShiftCrypto.RotatedIndex` | src/encryptdecrypt/Main.java:206-209 | after the truncating `% 26` and the `< 0` correction, the index lies in `[0, 26)` and equals the Euclidean residue of the wrapped `index + key` |
| `ShiftCrypto.ShiftChar` | src/encryptdecrypt/Main.java:202-220 | `encryptChar` keeps lower case lower and upper case upper. A letter moves to the residue of its wrapped sum with the key, and every other unit is returned unchanged |
| `ShiftCrypto.LetterRule` | src/encryptdecrypt/Main.java:205-216 | for every key up to `Integer.MAX_VALUE - 25`, where `index + key` cannot overflow, a letter at alphabet position `p` becomes the letter at `(p + key) mod 26`, and a non-letter is copied |
| `ShiftCrypto.ClassPreserved` | src/encryptdecrypt/Main.java:185-191 | the encrypted text has the input's length. At every position, lower case stays lower case and upper case stays upper case, and a non-letter is copied |
| `ShiftCrypto.CharRoundTrip` | src/encryptdecrypt/Main.java:197-219 | one unit encrypted with `key` and then with `-key` is the unit itself, for overflow-free keys |
| `ShiftCrypto.RoundTrip` | src/encryptdecrypt/Main.java:185-200 | `decrypt(encrypt(s)) == s` for every text and every overflow-free key |
| `ShiftCrypto.MultipleOf26IsIdentity` | src/encryptdecrypt/Main.java:205-216 | a key that is a multiple of 26, 0 included, leaves every text unchanged, for every such key up to `Integer.MAX_VALUE - 25` |
| `ShiftCrypto.LowestMultipleOf26IsIdentity` | src/encryptdecrypt/Main.java:205-216 | the lowest multiple of 26 in the `int` range, -2147483624, leaves every text unchanged, because `index + key` cannot overflow at that end |
| `ShiftCrypto.MinKeyMovesA` | src/encryptdecrypt/Main.java:206-210 | under `Integer.MIN_VALUE`, "a" moves to "c" |
| `ShiftCrypto.MinKeyMovesC` | src/encryptdecrypt/Main.java:206-210 | under `Integer.MIN_VALUE`, "c" moves to "e" |
| `ShiftCrypto.MinKeyRoundTripFails` | src/encryptdecrypt/Main.java:185-200 | with key `Integer.MIN_VALUE`, whose negation is itself, "a" encrypts to "c" and decrypts to "e", so the round trip fails |
| `ShiftCrypto.WrappedMultipleOf26MovesZ` | src/encryptdecrypt/Main.java:194-216 | the key 2147483624 is a multiple of 26, yet `25 + key` wraps and "z" becomes "d". Decrypting "d" under `-key` gives "d" again, so the round trip fails too |
| `ShiftCrypto.AlphabetEnds` | src/encryptdecrypt/Main.java:202-220 | "a" under -1 is "z", "Z" under 1 is "A", and "a" under 26 is "a" |
| `ShiftCrypto.HelloWorld` | src/encryptdecrypt/Main.java:185-191 | "Hi, zZ1" under key 3 is "Kl, cC1": both cases move, "z" and "Z" wrap round, and the comma, blank and digit are copied |
| `ShiftCrypto.ShiftCryptoAlg.constructor` | src/encryptdecrypt/Main.java:173-175 | a new object has key 0, the `int` field default |
| `ShiftCrypto.ShiftCryptoAlg.SetKey` | src/encryptdecrypt/Main.java:180-182 | `setKey` stores its argument in the `key` field |
| `ShiftCrypto.ShiftCryptoAlg.Encrypt` | src/encryptdecrypt/Main.java:185-191 | the builder loop returns a text as long as the input, namely `Shifted(data, key)` |
| `ShiftCrypto.ShiftCryptoAlg.Decrypt` | src/encryptdecrypt/Main.java:194-200 | the builder loop with `-key` returns `Shifted(data, Neg(key))` |
| `ShiftCrypto.ShiftCryptoAlg.EncryptChar` | src/encryptdecrypt/Main.java:202-220 | the lookups by `indexOf`, the correction loops and `charAt` return `ShiftChar(letter, key)` |
| `ShiftCrypto.ShiftCryptoAlg.NormalisedRem` | src/encryptdecrypt/Main.java:206-209 | the `while (index < 0) index += 26` loop runs at most once and ends with an index in `[0, 26)`, so `charAt` is in range |
| `CryptoAlgFactory.KindNamed` | src/encryptdecrypt/Main.java:125-132 | the class `makeCryptoAlg` picks is the one whose name was given. It picks none exactly when the name is neither "unicode" nor "shift" or is `null` |
| `CryptoAlgFactory.KindNamedExactly` | src/encryptdecrypt/Main.java:125-132 | `makeCryptoAlg` picks a class exactly when the name is that class's name ("unicode" or "shift"). Every other name, or none, gives `null` |
| `CryptoAlgFactory.Encrypted` | src/encryptdecrypt/Main.java:135-137 | either algorithm's output has the length of its input |
| `CryptoAlgFactory.MakeCryptoAlg` | src/encryptdecrypt/Main.java:125-132 | returns `null` exactly for an unknown name. Otherwise it returns a fresh object of the named class, with key 0 |
| `CryptoAlgFactory.CryptoAlg.SetKey` | src/encryptdecrypt/Main.java:138 | the interface call sets the key of whichever object it holds |
| `CryptoAlgFactory.CryptoAlg.Encrypt` | src/encryptdecrypt/Main.java:136 | the interface call runs the held object's `encrypt` with its key |
| `CryptoAlgFactory.CryptoAlg.Decrypt` | src/encryptdecrypt/Main.java:137 | the interface call runs the held object's `decrypt`, that is, encryption with `-key` |
| `EncryptDecrypt.Transform` | src/encryptdecrypt/Main.java:36-49 | the run fails with an invalid `-alg` exactly when the name is neither "unicode" nor "shift". It fails with an invalid `-mode` exactly when the name is valid and the mode is neither "enc" nor "dec". Otherwise the output is as long as the input |
| `EncryptDecrypt.Run` | src/encryptdecrypt/Main.java:36-49 | the factory call, `setKey` and the mode dispatch on objects produce `Transform`'s outcome |
| `EncryptDecrypt.RoundTrip` | src/encryptdecrypt/Main.java:42-45 | a run with "dec" on the output of a run with "enc" gives the input back, for the same algorithm and key. The key is any key for "unicode" and an overflow-free key for "shift" |
| `EncryptDecrypt.ZeroKeyIsIdentity` | src/encryptdecrypt/Main.java:41-43 | with key 0, "enc" returns the input under either algorithm |
| `EncryptDecrypt.UnknownAlgorithmFails` | src/encryptdecrypt/Main.java:36-40 | `-alg rot13` stops the run with the invalid-`-alg` error |
| `EncryptDecrypt.FirstFlag` | src/encryptdecrypt/Main.java:94-98 | the scan finds the first `i < args.length - 1` with `args[i]` equal to the flag, or reports that there is none |
| `EncryptDecrypt.FlagValue` | src/encryptdecrypt/Main.java:62-120 | the value a `get*` helper finds. It is absent exactly when no element before the last one equals the flag. Otherwise it is the element after the first one that does |
| `EncryptDecrypt.RequestOf` | src/encryptdecrypt/Main.java:16-21 | what `main` reads from its arguments. The mode is the `-mode` value, or "enc" when there is none. The key is the parsed `-key` value, or 0. The data is the `-data` value, or the empty string. The algorithm name is the `-alg` value, or `null` |
| `EncryptDecrypt.FindFlag` | src/encryptdecrypt/Main.java:62-69 | the loop with early return gives `args[i+1]` for the first such `i`. It gives `None` exactly when no flag is followed by another element |
| `EncryptDecrypt.GetAlgorithmName` | src/encryptdecrypt/Main.java:62-69 | the value after the first `-alg`, or `null` |
| `EncryptDecrypt.GetOutFile` | src/encryptdecrypt/Main.java:71-78 | the value after the first `-out`, or `null` |
| `EncryptDecrypt.GetInFilePath` | src/encryptdecrypt/Main.java:80-87 | the value after the first `-in`, or `null` |
| `EncryptDecrypt.GetMode` | src/encryptdecrypt/Main.java:93-101 | the value after the first `-mode`, or "enc" when there is none |
| `EncryptDecrypt.GetKey` | src/encryptdecrypt/Main.java:103-111 | the parsed value after the first `-key`, or 0 when there is none |
| `EncryptDecrypt.GetData` | src/encryptdecrypt/Main.java:113-120 | the value after the first `-data`, or the empty string when there is none |
| `EncryptDecrypt.FlagValueAfterPair` | src/encryptdecrypt/Main.java:62-120 | two leading arguments that are not the flag do not change what any lookup finds |
| `EncryptDecrypt.DefaultModeIsEnc` | src/encryptdecrypt/Main.java:93-101 | with no `-mode` flag, the arguments ask for the same mode, algorithm, key and data as with `-mode enc` in front |

## Left out

- Reading `-in` (lines 26-33) and writing `-out` or standard output (lines 51-59) are file and console I/O. They are not modelled. `GetInFilePath` and `GetOutFile` give the paths, and nothing uses them.
- `System.out.println` followed by `System.exit(1)` on an invalid `-alg` or `-mode` becomes the `Failed` outcome. The message text is not modelled.
- `Integer.parseInt` in `getKey` is the parameter `parseInt`. The `NumberFormatException` it throws on non-numeric text is not modelled.
- Shifted code units are treated as 16-bit numbers. Surrogates and other Unicode validity rules are not modelled, which is also what the code does.
- `ShiftCrypto.RoundTrip`: proved only for keys satisfying `NoOverflow`, because the code's 32-bit `index + key` and `-key` break the round trip outside that range (see `MinKeyRoundTripFails`).
- `ShiftCrypto.MultipleOf26IsIdentity`: proved only for keys up to `Integer.MAX_VALUE - 25`. Above that, `index + key` wraps, and a multiple of 26 near `Integer.MAX_VALUE` moves letters (see `WrappedMultipleOf26MovesZ`). At the `Integer.MIN_VALUE` end no sum can overflow, and the lemma covers every key there.
- `EncryptDecrypt.RoundTrip`: for "shift", proved only for keys satisfying `NoOverflow`, for the same reason.

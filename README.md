# Dencryptor RSA core in Dafny

Dencryptor is an Android app that generates textbook RSA key pairs. It stores them
as `e:n` / `d:n` text files and encrypts a file's content as one big integer. This
project models the app's core and proves its properties:

- **The `RSA` object** (`rsa.dfy`, module `Rsa`), covering:
  - the key types;
  - `generateKeyPair`: a first prime, a second prime retried until it is far enough from the first, a public exponent that falls back from 65537 to 16-bit primes, and the private exponent as a modular inverse;
  - `generateStrongPrime`;
  - `encrypt` and `decrypt` as Java's `BigInteger.modPow`, each guarded by its size check.
  
  The main theorem is the round trip: every generated pair decrypts what it encrypts. Its proof rests on these lemmas in `primes.dfy`:
  - Fermat's little theorem, proved from the binomial theorem;
  - the Chinese remainder step for two distinct primes;
  - Bézout and the modular inverse.
- **`Formatters`** (`formatters.dfy`):
  - the plaintext conversion `BigInteger(byte[])`, which reads bytes as two's complement, big-endian;
  - `BigInteger.toByteArray()`;
  - the decimal `e:n` / `d:n` key text and its parser, which splits on `:` and returns null on bad input;
  - the key `size()` shown to the user.
- **`MainViewModel`** (`main_view_model.dfy`):
  - `HomeState`, held by a `ViewModel` class whose methods update it the way the source's `homeState.update { it.copy(...) }` calls do;
  - the key-size routing of `createKeyPair`, with dynamic and static sizing;
  - the message-too-large guard of `encryptFileContent`;
  - the key-file naming, saving and dispatch;
  - `updateKeyPair`, `resetFileList`, `resetState` and `formatMessage`.
- **The key-creation dialog** (`key_creation.dfy`):
  - the suggested `tailoredSize`;
  - the digits-only manual-size filter;
  - the create button's validation. This logic appears in both the full-screen dialog and the bottom sheet; it is modelled once.
  
  Lemmas connect the dialog to the view model: with no manual size, a key sized from the file is what gets created.

Support modules:
- `wrappers.dfy`: `Option` / `Result`;
- `arith.dfy`: powers, bit length and remainder lemmas;
- `kotlin_int.dfy`: 32-bit `Int` wrap-around and truncating division.

Random choice (`SecureRandom`, `BigInteger.probablePrime`) is a nondeterministic draw of a candidate with the requested bit length. Each draw spends one unit of a `fuel` budget, and every retry loop terminates because the budget is shared. Running out of fuel bounds the search. The view model reports it with its timeout texts, but it is an outcome of the model only (see "## Left out").

## Model

| member | source | states |
|---|---|---|
| Rsa.ModPow | app/src/main/java/com/rdiykru/dencryptor/core/encryption/rsa/KeyPairGenerator.kt:57 | fails with ModulusNotPositive exactly when the modulus is not positive; otherwise the result is in [0, m) and congruent to b^x for x >= 0; for x < 0 it exists exactly when b^(-x) mod m is coprime to m, and is that value's inverse; with a positive modulus the only failure is NotInvertible |
| Rsa.Encrypt | app/src/main/java/com/rdiykru/dencryptor/core/encryption/rsa/KeyPairGenerator.kt:53-58 | fails with MessageTooLarge exactly when message >= n (negative messages are not rejected); below that guard the result is exactly modPow(message, e, n), including its ModulusNotPositive and NotInvertible failures and its inverse route for a negative e; for n > 0 and e >= 0 it returns message^e mod n, in [0, n) |
| Rsa.Decrypt | app/src/main/java/com/rdiykru/dencryptor/core/encryption/rsa/KeyPairGenerator.kt:60-65 | fails with CiphertextTooLarge exactly when ciphertext >= n; below that guard the result is exactly modPow(ciphertext, d, n), including its ModulusNotPositive and NotInvertible failures and its inverse route for a negative d; for n > 0 and d >= 0 it returns ciphertext^d mod n, in [0, n) |
| Rsa.RoundTrip | app/src/main/java/com/rdiykru/dencryptor/core/encryption/rsa/KeyPairGenerator.kt:53-65 | for n = p*q with distinct primes and e*d = 1 mod (p-1)(q-1): decrypt(encrypt(m)) is m mod n for every m < n, and m itself for 0 <= m < n |
| Rsa.ProbablePrime | app/src/main/java/com/rdiykru/dencryptor/core/encryption/rsa/KeyPairGenerator.kt:44 | bitLength < 2 throws; otherwise either the draws run out (timeout) or the result is a prime with exactly bitLength bits, 2^(b-1) <= r < 2^b |
| Rsa.GenerateStrongPrime | app/src/main/java/com/rdiykru/dencryptor/core/encryption/rsa/KeyPairGenerator.kt:41-51 | returns only values that pass isStrongPrime and have exactly bitLength bits; fails with the bit-length error exactly when bitLength < 2, otherwise only by timeout |
| Rsa.IsStrongPrime | app/src/main/java/com/rdiykru/dencryptor/core/encryption/rsa/KeyPairGenerator.kt:49-51 | true exactly for primes (IsPrime: at least 2 with no divisor strictly between 1 and itself) |
| Rsa.GenerateSecondPrime | app/src/main/java/com/rdiykru/dencryptor/core/encryption/rsa/KeyPairGenerator.kt:19-23 | when the q loop exits, q is prime with bitLength/2 bits, q != p and bitLength(abs(p - q)) >= bitLength/4 |
| Rsa.ChooseExponent | app/src/main/java/com/rdiykru/dencryptor/core/encryption/rsa/KeyPairGenerator.kt:28-31 | when the loop exits, gcd(totient, e) = 1; e stays 65537 whenever gcd(totient, 65537) = 1, otherwise e is a 16-bit prime |
| Rsa.GenerateKeyPair | app/src/main/java/com/rdiykru/dencryptor/core/encryption/rsa/KeyPairGenerator.kt:17-39 | fails with the bit-length error exactly when bitLength / 2 (truncated) < 2, else only by timeout; a returned pair has both keys on n = p*q of distinct strong primes, the exponent rules above, 0 <= d < totient with e*d = 1 mod totient, and decrypts what it encrypts |
| Rsa.GeneratedKeyPairDecrypts | app/src/main/java/com/rdiykru/dencryptor/core/encryption/rsa/KeyPairGenerator.kt:17-39 | every generated pair satisfies decrypt(encrypt(m)) = m mod n for all m < n |
| Rsa.GeneratedModulusBounds | app/src/main/java/com/rdiykru/dencryptor/core/encryption/rsa/KeyPairGenerator.kt:18-25 | a generated modulus has 2*(bitLength/2) - 1 or 2*(bitLength/2) bits |
| Formatters.FromByteArray | app/src/main/java/com/rdiykru/dencryptor/core/extensions/Formatters.kt:7-9 | an empty array throws NumberFormatException; otherwise the value is negative exactly when the first byte is >= 0x80, lies in the two's-complement range of that many bytes, and differs from the unsigned big-endian reading by a multiple of 256^length, which pins it down |
| Formatters.ToByteArray | app/src/main/java/com/rdiykru/dencryptor/core/extensions/Formatters.kt:11-13 | the byte array of x has bitLength(x)/8 + 1 bytes |
| Formatters.SignExtendPositive | app/src/main/java/com/rdiykru/dencryptor/core/extensions/Formatters.kt:7-9 | a leading 0x00 before a first byte below 0x80 does not change the value read |
| Formatters.SignExtendNegative | app/src/main/java/com/rdiykru/dencryptor/core/extensions/Formatters.kt:7-9 | a leading 0xFF before a first byte of 0x80 or more does not change the value read |
| Formatters.FromToByteArray | app/src/main/java/com/rdiykru/dencryptor/core/extensions/Formatters.kt:7-13 | reading the byte array of any integer (negatives included) gives the integer back |
| Formatters.ToFromByteArray | app/src/main/java/com/rdiykru/dencryptor/core/extensions/Formatters.kt:7-13 | bytes whose first byte is 0x01..0x7F come back unchanged from toBigInteger then toByteArray |
| Formatters.LeadingZeroDropped | app/src/main/java/com/rdiykru/dencryptor/core/extensions/Formatters.kt:7-13 | a leading 0x00 byte is not preserved: [0x00, 0x41] reads as 0x41, which writes as [0x41] |
| Formatters.HighBitNegative | app/src/main/java/com/rdiykru/dencryptor/core/extensions/Formatters.kt:7-9 | a first byte >= 0x80 reads negative: [0xFF] is -1 |
| Formatters.ParseToDecimal | app/src/main/java/com/rdiykru/dencryptor/core/extensions/Formatters.kt:25-26 | BigInteger(String) of BigInteger.toString() gives the number back, negatives included |
| Formatters.JoinSplit | app/src/main/java/com/rdiykru/dencryptor/core/extensions/Formatters.kt:23 | joining the fields of split(":") gives back the text (split keeps empty fields) |
| Formatters.SplitJoin | app/src/main/java/com/rdiykru/dencryptor/core/extensions/Formatters.kt:23 | splitting the join of separator-free fields gives back the fields |
| Formatters.KeyText | app/src/main/java/com/rdiykru/dencryptor/core/extensions/Formatters.kt:47-54 | "a:b" splits on ':' into exactly the two decimal fields |
| Formatters.ToPublicKey | app/src/main/java/com/rdiykru/dencryptor/core/extensions/Formatters.kt:22-32 | null unless the text has exactly one ':'; with its one ':' at i, the key is (e = the number before i, n = the number after i) when both parse as decimal integers, and null otherwise |
| Formatters.ToPrivateKey | app/src/main/java/com/rdiykru/dencryptor/core/extensions/Formatters.kt:35-45 | null unless the text has exactly one ':'; with its one ':' at i, the key is (d = the number before i, n = the number after i) when both parse, and null otherwise; it accepts exactly the texts toPublicKey accepts |
| Formatters.SplitAtOnlySeparator | app/src/main/java/com/rdiykru/dencryptor/core/extensions/Formatters.kt:23 | a text whose only ':' is at i splits into the text before i and the text after it |
| Formatters.PublicKeyText | app/src/main/java/com/rdiykru/dencryptor/core/extensions/Formatters.kt:47-49 | toPublicKey(toStringFormat(k)) == k for every public key, negative components included |
| Formatters.PrivateKeyText | app/src/main/java/com/rdiykru/dencryptor/core/extensions/Formatters.kt:52-54 | toPrivateKey(toStringFormat(k)) == k for every private key |
| Formatters.PrivateTextAsPublic | app/src/main/java/com/rdiykru/dencryptor/core/extensions/Formatters.kt:22-32 | a private key's text read by toPublicKey gives (d, n) as (e, n) |
| Formatters.WrongFieldCount | app/src/main/java/com/rdiykru/dencryptor/core/extensions/Formatters.kt:23 | "65537" and "1:2:3" are rejected (not exactly two fields) |
| Formatters.EmptyFieldRejected | app/src/main/java/com/rdiykru/dencryptor/core/extensions/Formatters.kt:24-31 | "65537:" is rejected by both parsers: the empty field is a NumberFormatException, caught as null |
| Formatters.ParsesExampleKey | app/src/main/java/com/rdiykru/dencryptor/core/extensions/Formatters.kt:23-27 | "65537:119" parses to PublicKey(e = 65537, n = 119) |
| Formatters.Size | app/src/main/java/com/rdiykru/dencryptor/core/extensions/Formatters.kt:14-20 | size() is the number of whole bytes in bitLength(n): 8*size <= bitLength(n) < 8*size + 8 |
| Formatters.SizeOfSmallModulus | app/src/main/java/com/rdiykru/dencryptor/core/extensions/Formatters.kt:14-20 | a modulus below 128 reports 0 bytes; one in 128..255 reports 1 |
| Formatters.SizeOf2048BitModulus | app/src/main/java/com/rdiykru/dencryptor/core/extensions/Formatters.kt:14-20 | a modulus of exactly 2048 bits reports 256 bytes |
| Formatters.GeneratedKeySize | app/src/main/java/com/rdiykru/dencryptor/core/extensions/Formatters.kt:14-20 | a pair generated with 8k bits reports k or k - 1 bytes, the same for both keys |
| MainViewModel.FormatMessage | app/src/main/java/com/rdiykru/dencryptor/presentation/MainViewModel.kt:345-350 | keeps the event variant and prefixes "Hata: " to errors and "Başarı: " to successes |
| MainViewModel.FormatMessageInjective | app/src/main/java/com/rdiykru/dencryptor/presentation/MainViewModel.kt:345-350 | different events stay different once formatted |
| MainViewModel.CreateKeyPairRoute | app/src/main/java/com/rdiykru/dencryptor/presentation/MainViewModel.kt:171-177 | dynamic exactly when keySize == fileSize; else too large exactly when keySize > 8192; else static |
| MainViewModel.DynamicKeyBits | app/src/main/java/com/rdiykru/dencryptor/presentation/MainViewModel.kt:222-231 | with bits = fileSize*8 in Int arithmetic: no key exactly when bits > 8192; 2048 when bits < 2048; exactly bits + 24 when 2048 <= bits <= 8192; for an in-range fileSize the key has at least fileSize*8 + 8 bits |
| MainViewModel.DynamicKeyBitsWraps | app/src/main/java/com/rdiykru/dencryptor/presentation/MainViewModel.kt:222-224 | fileSize*8 overflows Int: a fileSize of 2^29 bytes is sized as a 2048-bit key |
| MainViewModel.DynamicKeyFitsFile | app/src/main/java/com/rdiykru/dencryptor/presentation/MainViewModel.kt:222-233 | for fileSize below 2^28 bytes (so fileSize*8 does not wrap), the modulus of a dynamically sized key exceeds every fileSize-byte content read as a BigInteger, so the encryption guard lets it through |
| MainViewModel.DynamicKeyMissesLargeFile | app/src/main/java/com/rdiykru/dencryptor/presentation/MainViewModel.kt:222-233 | above 2^28 bytes the guarantee fails: 0x2000_0100 bytes get a 2072-bit key, and content of that length with a first byte 0x01..0x7F reads at or above its modulus, so the encryption guard rejects it |
| MainViewModel.StaticKeyBits | app/src/main/java/com/rdiykru/dencryptor/presentation/MainViewModel.kt:198 | the bit length passed is keySize * 8 whenever that fits an Int, and its 32-bit wrap-around otherwise |
| MainViewModel.StaticKeySize | app/src/main/java/com/rdiykru/dencryptor/presentation/MainViewModel.kt:191-198 | a static key of k bytes (1 <= k <= 8192) reports k or k - 1 bytes: the argument is in bytes |
| MainViewModel.PublicFileName | app/src/main/java/com/rdiykru/dencryptor/presentation/MainViewModel.kt:126 | name + "_Public": it starts with the name and contains "Public" |
| MainViewModel.PrivateFileName | app/src/main/java/com/rdiykru/dencryptor/presentation/MainViewModel.kt:130 | name + "_Private": it starts with the name, contains "Private", and contains "Public" only if the name does |
| MainViewModel.PrivateFileOfPublicName | app/src/main/java/com/rdiykru/dencryptor/presentation/MainViewModel.kt:41-50 | the private file of a pair named "Public" contains "Public", so getKeyFile loads it as a public key |
| MainViewModel.SavePair | app/src/main/java/com/rdiykru/dencryptor/presentation/MainViewModel.kt:123-133 | the files afterwards hold name_Public with the public key's text and name_Private with the private key's text; every other file is unchanged |
| MainViewModel.ViewModel.SendHomeEvent | app/src/main/java/com/rdiykru/dencryptor/presentation/MainViewModel.kt:329-333 | appends the formatted event; state and files unchanged |
| MainViewModel.ViewModel.ResetFileList | app/src/main/java/com/rdiykru/dencryptor/presentation/MainViewModel.kt:335-338 | fileList becomes null; every other field kept |
| MainViewModel.ViewModel.ResetState | app/src/main/java/com/rdiykru/dencryptor/presentation/MainViewModel.kt:340-343 | every HomeState field returns to its default (lines 357-368) |
| MainViewModel.ViewModel.UpdateKeyPair | app/src/main/java/com/rdiykru/dencryptor/presentation/MainViewModel.kt:316-320 | both keys come from the one pair; no other field changes |
| MainViewModel.ViewModel.UpdateKeyPairName | app/src/main/java/com/rdiykru/dencryptor/presentation/MainViewModel.kt:322-326 | privateKeyName = name_Private and publicKeyName = name_Public, the same names saveKeyPairFile writes |
| MainViewModel.ViewModel.SaveKeyPairFile | app/src/main/java/com/rdiykru/dencryptor/presentation/MainViewModel.kt:123-133 | the files become SavePair of the old files; state and events unchanged |
| MainViewModel.ViewModel.GetKeyFile | app/src/main/java/com/rdiykru/dencryptor/presentation/MainViewModel.kt:39-65 | "Public" is tested before "Private": the file is parsed as that key and its name recorded, with the success event; a name containing neither sends the error event; fileList is null afterwards in every case |
| MainViewModel.ViewModel.EncryptFileContent | app/src/main/java/com/rdiykru/dencryptor/presentation/MainViewModel.kt:254-278 | no public key: error event. Empty content: BigInteger throws a NumberFormatException that nothing catches, which crashes the app; completed == false stands for that, with dencrypting still true and no event. Content >= n: encryptedContent = "", dencrypting = false, error event, no encryption. Otherwise: the encrypted text is stored with the success event |
| MainViewModel.ViewModel.GenerateAndStore | app/src/main/java/com/rdiykru/dencryptor/presentation/MainViewModel.kt:197-211 | a generated pair is saved, put in the state and announced; a failure sends the timeout or failure text and changes no key or file; dencrypting is false afterwards |
| MainViewModel.ViewModel.CreateStaticSizedKeypair | app/src/main/java/com/rdiykru/dencryptor/presentation/MainViewModel.kt:185-213 | keySize > 8192 is rejected with the error event and no generation; otherwise a pair of keySize*8 bits is generated, saved, put in the state and announced with the static success text; a failure changes no key or file and sends the static timeout text or the static failure text with the exception message; dencrypting is false afterwards |
| MainViewModel.ViewModel.CreateDynamicSizedKeypair | app/src/main/java/com/rdiykru/dencryptor/presentation/MainViewModel.kt:215-252 | fileSize*8 > 8192 is rejected with the error event; otherwise a pair of DynamicKeyBits(fileSize) bits is generated, saved, put in the state and announced with the dynamic success text; it can fail only by timeout, which changes no key or file and sends the dynamic timeout text; dencrypting is false afterwards |
| MainViewModel.ViewModel.CreateKeyPair | app/src/main/java/com/rdiykru/dencryptor/presentation/MainViewModel.kt:165-183 | names the pair, then follows CreateKeyPairRoute: the dynamic size, the too-large error without generation, or the static size; for every outcome (generated, failed, too large, dynamic size rejected) it states the whole new state, the files and the one event sent |
| KeyCreation.TailoredSize | app/src/main/java/com/rdiykru/dencryptor/ui/components/KeyCreationComponent.kt:59 | 256 when fileSize*8 (Int arithmetic) < 2048, else fileSize + 3 |
| KeyCreation.TailoredSizeIsDynamicSize | app/src/main/java/com/rdiykru/dencryptor/ui/components/KeyCreationComponent.kt:188-189 | for fileSize below 2^28 bytes, the size shown, times 8, is the bit length dynamic sizing generates |
| KeyCreation.TailoredSizeWrapsApart | app/src/main/java/com/rdiykru/dencryptor/ui/components/KeyCreationComponent.kt:59 | above 2^28 bytes the two sizes part ways: for 0x2000_0100 bytes the dialog shows 0x2000_0103 bytes while dynamic sizing asks for 2072 bits |
| KeyCreation.AcceptedManualSizeParses | app/src/main/java/com/rdiykru/dencryptor/ui/components/KeyCreationComponent.kt:89-91 | whatever the filter let through, if not empty, reads as an Int from 0 to 9999 |
| KeyCreation.KeyCreationForm.OnManualKeySizeChange | app/src/main/java/com/rdiykru/dencryptor/ui/components/KeyCreationComponent.kt:204-206 | the edit is kept only if it is all digits and at most 4 long; otherwise the old value stays |
| KeyCreation.Validate | app/src/main/java/com/rdiykru/dencryptor/ui/components/KeyCreationComponent.kt:134-151 | name error exactly when the name is empty; size error exactly when the name is set and a non-empty manual size does not parse or exceeds 1024; the "invalid value" branch is never reached; otherwise create with fileSize (empty manual size) or the parsed size k <= 1024, 0 included |
| KeyCreation.SizeErrorMeansTooLarge | app/src/main/java/com/rdiykru/dencryptor/ui/components/KeyCreationComponent.kt:136-143 | under the input filter a size error only ever means a number above 1024 |
| KeyCreation.EmptyManualSizeIsDynamic | app/src/main/java/com/rdiykru/dencryptor/ui/components/KeyCreationComponent.kt:147-151 | with an empty manual size the dialog sends fileSize, which createKeyPair (MainViewModel.kt:171) routes to dynamic sizing |
| KeyCreation.ManualSizeRoute | app/src/main/java/com/rdiykru/dencryptor/ui/components/KeyCreationComponent.kt:262-266 | a manual size the dialog lets through is never routed as too large; it is sized from the file exactly when it equals fileSize |
| KeyCreation.KeyCreationForm.OnKeyPairNameChange | app/src/main/java/com/rdiykru/dencryptor/ui/components/KeyCreationComponent.kt:214 | the name field takes every edit; the manual size and the error text are kept |
| KeyCreation.KeyCreationForm.OnCreateClick | app/src/main/java/com/rdiykru/dencryptor/ui/components/KeyCreationComponent.kt:248-267 | an empty name sets the name error and never calls back; a size error sets its text; otherwise, exactly when Validate says create, onCreateClicked receives (size, name) and the dialog is dismissed |

## Left out

- Randomness: `SecureRandom` and `BigInteger.probablePrime` are nondeterministic draws of a candidate with the right bit length. The model does not capture their probability distribution.
- GenerateAndStore: its TimedOut outcome over-approximates the source. In the source, `withTimeout(15000)` cannot interrupt `generateKeyPair`, because cancellation is cooperative and the generation never suspends; the pair is always generated and saved. In the model, running out of `fuel` gives a TimedOut failure with keys and files unchanged and the timeout text sent, which the source never produces. Wall-clock time is not modelled.
- Rsa.ProbablePrime: the library's primality is only probable. The model draws until the candidate is exactly prime, so `probablePrime` never returns a composite here.
- Rsa.IsStrongPrime: `isProbablePrime(100)` is modelled as exact primality, so its error probability is left out.
- Charset encoding: `String.toByteArray()` and `String(bytes)` are not modelled. The file content is held as its bytes (`HomeState.fileContent`). `toStringValue` is modelled up to its `toByteArray` step.
- Decimal parsing: the model's `ParseDecimal` accepts ASCII digits only; `BigInteger(String)`, `toIntOrNull` and `isDigit` also accept other Unicode digits, which are left out.
- Encryption of strings: `encryptFileContent` calls `RSA.encrypt` with the String content, but the RSA object has no such overload. The text it stores is a parameter of `MainViewModel.ViewModel.EncryptFileContent`.
- `decryptFileContent`: it calls `RSA.decrypt` with a String in the same unresolved way, so it is not modelled.
- File storage: `FileOperationsManager` is a map from file name to text. Reading a missing file gives null, as in the source. Android I/O errors are left out.
- Other view-model functions:
  - file loading and listing (`getEncryptFile`, `getDecryptFile`, `getKeyPairFileList`, `getEncryptedFileList`, `getDecryptedFileList`) is file I/O;
  - `saveEncryptedFile` and `saveDecryptedFile` are file I/O;
  - `handleSelectedFile` is content-resolver I/O.
- Concurrency:
  - coroutines run to completion one after another;
  - the event channel is a sequence of sent events;
  - an uncaught `NumberFormatException` in `encryptFileContent` reaches the thread's uncaught-exception handler and crashes the app; the model only returns `completed == false` with the state as it was at the throw;
  - `Log` calls have no effect.
- MainViewModel.ViewModel.CreateKeyPair: the outer `catch` can only be reached from code the model runs to completion, so it has no branch here.
- Dialog layout: the Compose layout of the dialog is left out. Only its remembered fields and the callbacks are modelled (`KeyCreation.KeyCreationForm`).
- Formatters.Size: the result is a `nat` rather than an Int. `bitLength / 8` cannot exceed the Int range for moduli the app can hold.

/**
 * MainViewModel: the screen state, the key-size policy of key-pair creation, the
 * key-file naming and dispatch rules, and the encryption guard. Coroutines run to
 * completion one after another; the key-pair files are a map from file name to text.
 */
module MainViewModel {
  import opened Wrappers
  import opened Arith
  import opened KotlinInt
  import opened Rsa
  import opened Formatters

  /** HomeState; fileContent is held as the bytes String.toByteArray() gives for it. */
  datatype HomeState = HomeState(
    dencrypting: bool,
    fileContent: seq<byte>,
    fileList: Option<seq<string>>,
    fileSize: Int32,
    encryptedContent: string,
    decryptedContent: string,
    publicKey: Option<PublicKey>,
    privateKey: Option<PrivateKey>,
    publicKeyName: string,
    privateKeyName: string)

  /** HomeState() with every default argument. */
  const DefaultState: HomeState :=
    HomeState(false, [], Some([]), 0, "", "", None, None, "", "")

  datatype HomeEvent = ShowErrorMessage(error: string) | ShowSuccessMessage(success: string)

  /** The three ways createKeyPair can go. */
  datatype KeySizeRoute = Dynamic | TooLarge | Static

  /** How one key-pair creation ended. */
  datatype Generation = Rejected | Generated(keyPair: KeyPair) | Failed(error: RsaError)

  /** Largest key size, in bytes, createKeyPair passes on: 1024 * 8. */
  const MaxKeySize: int := 1024 * 8

  const TooLargeText := "Oluşturulmak istenen anahtar boyutu fazla büyük."
  const DynamicTooLargeText := "Anahtar boyutu 1024 byte'tan fazla olamaz."
  const MessageTooLargeText := "Şifreleme başarısız: mesaj anahtar boyutuna çok büyük."
  const NoPublicKeyText := "Şifreleme için genel anahtar mevcut değil."
  const KeyFileErrorText := "Anahtar dosyası alınamadı."
  const StaticSuccessText := "Anahtar çifti başarıyla oluşturuldu."
  const StaticTimeoutText := "Statik boyutlu anahtar çifti oluşturma süresi aşıldı."
  const StaticFailureText := "Statik boyutlu anahtar çifti oluşturulamadı: "
  const DynamicSuccessText := "Dinamik boyutlu anahtar çifti başarıyla oluşturuldu."
  const DynamicTimeoutText := "Dinamik boyutlu anahtar çifti oluşturma süresi aşıldı."
  const DynamicFailureText := "Dinamik boyutlu anahtar çifti oluşturulamadı: "

  /** formatMessage: the same variant, its text behind "Hata: " or "Başarı: ". */
  function FormatMessage(event: HomeEvent): (r: HomeEvent)
    ensures r.ShowErrorMessage? <==> event.ShowErrorMessage?
    ensures event.ShowErrorMessage? ==> r.error == "Hata: " + event.error
    ensures event.ShowSuccessMessage? ==> r.success == "Başarı: " + event.success
  {
    match event
    case ShowErrorMessage(error) => ShowErrorMessage("Hata: " + error)
    case ShowSuccessMessage(success) => ShowSuccessMessage("Başarı: " + success)
  }

  /** Different events stay different once formatted. */
  lemma {:induction false} FormatMessageInjective(a: HomeEvent, b: HomeEvent)
    requires FormatMessage(a) == FormatMessage(b)
    ensures a == b
  {
    var fa := FormatMessage(a);
    if a.ShowErrorMessage? {
      assert a.error == fa.error[6..] == b.error;
    } else {
      assert a.success == fa.success[8..] == b.success;
    }
  }

  /** The text an exception from key generation carries (e.message). */
  function ExceptionMessage(error: RsaError): string {
    match error
    case BitLengthTooSmall => "bitLength < 2"
    case ModulusNotPositive => "BigInteger: modulus not positive"
    case NotInvertible => "BigInteger not invertible."
    case MessageTooLarge => "Message must be smaller than the modulus (n)"
    case CiphertextTooLarge => "Ciphertext must be smaller than the modulus (n)"
    case TimedOut => "Timed out waiting for 15000 ms"
  }

  predicate OccursAt(s: string, sub: string, i: int) {
    0 <= i <= |s| - |sub| && s[i..i + |sub|] == sub
  }

  /** String.contains. */
  predicate Contains(s: string, sub: string) {
    exists i | 0 <= i <= |s| - |sub| :: OccursAt(s, sub, i)
  }

  lemma {:induction false} ContainsAt(s: string, sub: string, i: int)
    requires OccursAt(s, sub, i)
    ensures Contains(s, sub)
  {
  }

  /**
   * The routing of createKeyPair: dynamic sizing exactly when keySize equals the
   * file size, otherwise an error above 1024 * 8, otherwise the static size.
   */
  function CreateKeyPairRoute(keySize: Int32, fileSize: Int32): (r: KeySizeRoute)
    ensures r == Dynamic <==> keySize == fileSize
    ensures r == TooLarge <==> keySize != fileSize && keySize > MaxKeySize
    ensures r == Static <==> keySize != fileSize && keySize <= MaxKeySize
  {
    if keySize == fileSize then Dynamic
    else if keySize > MaxKeySize then TooLarge
    else Static
  }

  /**
   * The key size createDynamicSizedKeypair asks for: bits = fileSize * 8 in Int
   * arithmetic; 2048 below 2048, none (an error) above 8192, otherwise bits + 24.
   */
  function DynamicKeyBits(fileSize: Int32): (r: Option<int>)
    ensures r.None? <==> Wrap(fileSize * 8) > 8192
    ensures r.Some? ==> 2048 <= r.value <= 8192 + 24
    ensures Wrap(fileSize * 8) < 2048 ==> r == Some(2048)
    ensures 0 <= fileSize <= IntMax / 8 && r.Some? ==> r.value >= fileSize * 8 + 8
    ensures 2048 <= Wrap(fileSize * 8) <= MaxKeySize ==> r == Some(Wrap(fileSize * 8) + 24)
  {
    var bits := Wrap(fileSize * 8);
    if bits < 2048 then Some(2048)
    else if bits > 8192 then None
    else Some(bits + 24)
  }

  /** The bit length createStaticSizedKeypair passes: keySize * 8 in Int arithmetic. */
  function StaticKeyBits(keySize: Int32): (r: Int32)
    ensures IntMin / 8 <= keySize <= IntMax / 8 ==> r == keySize * 8
    ensures (r - keySize * 8) % 0x1_0000_0000 == 0
  {
    Wrap(keySize * 8)
  }

  /** fileSize * 8 wraps for files of 2^28 bytes and more: 2^29 bytes get a 2048-bit key. */
  lemma {:induction false} DynamicKeyBitsWraps()
    ensures DynamicKeyBits(0x2000_0000) == Some(2048)
  {
    assert Wrap(0x2000_0000 * 8) == 0;
  }

  /**
   * A dynamically sized key leaves room for the file: every fileSize-byte content
   * reads (as BigInteger) below the generated modulus, so encryptFileContent's guard
   * lets it through.
   */
  lemma {:induction false} DynamicKeyFitsFile(keyPair: KeyPair, p: int, q: int, content: seq<byte>)
    requires 0 < |content| <= IntMax / 8
    requires DynamicKeyBits(|content|).Some?
    requires GeneratedFrom(keyPair, DynamicKeyBits(|content|).value, p, q)
    ensures FromByteArray(content).value < keyPair.publicKey.n
  {
    var bits := DynamicKeyBits(|content|).value;
    GeneratedModulusBounds(keyPair, bits, p, q);
    PowMonotone(2, 8 * |content|, 2 * (bits / 2) - 2);
    BelowModulus(content, keyPair.publicKey.n);
  }

  /**
   * Above 2^28 bytes the wrap-around breaks that guarantee: 0x2000_0100 bytes get a
   * 2072-bit key, and content of that length with a first byte 0x01..0x7F reads at or
   * above the modulus, so encryptFileContent's guard rejects it.
   */
  lemma {:induction false} DynamicKeyMissesLargeFile(keyPair: KeyPair, p: int, q: int, content: seq<byte>)
    requires |content| == 0x2000_0100 && 0x01 <= content[0] < 0x80
    requires GeneratedFrom(keyPair, 2072, p, q)
    ensures DynamicKeyBits(|content|) == Some(2072)
    ensures FromByteArray(content).value >= keyPair.publicKey.n
  {
    assert Wrap(|content| * 8) == 2048;
    ModulusBelowContent(keyPair, 2072, p, q, content);
  }

  /** A modulus of at most 8(f - 1) bits lies at or below f-byte content with a first byte 0x01..0x7F. */
  lemma {:induction false} ModulusBelowContent(keyPair: KeyPair, bits: int, p: int, q: int, content: seq<byte>)
    requires |content| > 0 && 0x01 <= content[0] < 0x80
    requires GeneratedFrom(keyPair, bits, p, q) && 2 * (bits / 2) <= 8 * (|content| - 1)
    ensures FromByteArray(content).value >= keyPair.publicKey.n
  {
    var f := |content|;
    GeneratedModulusBounds(keyPair, bits, p, q);
    UnsignedSign(content);
    Pow256(f - 1);
    PowMonotone(2, 2 * (bits / 2), 8 * (f - 1));
  }

  /** Content of f bytes reads below any n >= 2^(8f). */
  lemma {:induction false} BelowModulus(content: seq<byte>, n: int)
    requires |content| > 0 && Pow(2, 8 * |content|) <= n
    ensures FromByteArray(content).value < n
  {
    var f := |content|;
    Pow256(f);
    PowPositive(256, f - 1);
    assert Pow(256, f) == 256 * Pow(256, f - 1);
  }

  /** A statically sized key of k bytes (1 <= k <= 8192) reports k or k - 1 bytes. */
  lemma {:induction false} StaticKeySize(k: Int32, keyPair: KeyPair, p: int, q: int)
    requires 1 <= k <= MaxKeySize
    requires GeneratedFrom(keyPair, StaticKeyBits(k), p, q)
    ensures Size(keyPair.publicKey.n) == k || Size(keyPair.publicKey.n) == k - 1
  {
    assert StaticKeyBits(k) == 8 * k;
    GeneratedKeySize(keyPair, k, p, q);
  }

  /** The error text a failed generation reports: the timeout text, or the failure text and the exception message. */
  function FailureText(error: RsaError, timeoutText: string, failureText: string): string {
    if error == TimedOut then timeoutText else failureText + ExceptionMessage(error)
  }

  /** The state after updateKeyPairName(keyPairName). */
  function WithKeyPairName(s: HomeState, keyPairName: string): HomeState {
    s.(privateKeyName := PrivateFileName(keyPairName), publicKeyName := PublicFileName(keyPairName))
  }

  /** The pair's files are named name_Public and name_Private. */
  function PublicFileName(name: string): (r: string)
    ensures |r| == |name| + 7 && r[..|name|] == name
    ensures Contains(r, "Public")
  {
    var r := name + "_Public";
    ContainsAt(r, "Public", |name| + 1);
    r
  }

  function PrivateFileName(name: string): (r: string)
    ensures |r| == |name| + 8 && r[..|name|] == name
    ensures Contains(r, "Private")
    ensures !Contains(name, "Public") ==> !Contains(r, "Public")
  {
    var r := name + "_Private";
    ContainsAt(r, "Private", |name| + 1);
    assert !Contains(name, "Public") ==> !Contains(r, "Public") by {
      if !Contains(name, "Public") {
        NoPublicInPrivateName(name);
      }
    }
    r
  }

  lemma {:induction false} NoPublicInPrivateName(name: string)
    requires !Contains(name, "Public")
    ensures !Contains(name + "_Private", "Public")
  {
    var s := name + "_Private";
    var sub := "Public";
    assert |sub| == 6;
    assert forall k | 0 <= k < 6 :: sub[k] != '_';
    forall i | 0 <= i <= |s| - 6
      ensures !OccursAt(s, sub, i)
    {
      if i + 6 <= |name| {
        assert s[i..i + 6] == name[i..i + |sub|];
        if OccursAt(name, sub, i) {
          ContainsAt(name, sub, i);
          assert false;
        }
      } else if i <= |name| {
        assert s[|name|] == '_';
        assert s[i..i + 6][|name| - i] == '_';
        assert sub[|name| - i] != '_';
      } else if i == |name| + 1 {
        assert s[i + 1] == 'r';
        assert s[i..i + 6][1] == 'r';
      } else {
        assert s[i] == 'r';
        assert s[i..i + 6][0] == 'r';
      }
    }
  }

  /** A pair whose name contains "Public" has its private file read as a public key. */
  lemma {:induction false} PrivateFileOfPublicName()
    ensures Contains(PrivateFileName("Public"), "Public")
  {
    ContainsAt(PrivateFileName("Public"), "Public", 0);
  }

  /** The key-pair files after saveKeyPairFile(name, keyPair). */
  function SavePair(files: map<string, string>, name: string, keyPair: KeyPair): (r: map<string, string>)
    ensures r.Keys == files.Keys + {PublicFileName(name), PrivateFileName(name)}
    ensures r[PublicFileName(name)] == PublicKeyText(keyPair.publicKey)
    ensures r[PrivateFileName(name)] == PrivateKeyText(keyPair.privateKey)
    ensures forall f | f in files && f != PublicFileName(name) && f != PrivateFileName(name) ::
      r[f] == files[f]
  {
    assert |PublicFileName(name)| != |PrivateFileName(name)|;
    files[PublicFileName(name) := PublicKeyText(keyPair.publicKey)]
         [PrivateFileName(name) := PrivateKeyText(keyPair.privateKey)]
  }

  class ViewModel {
    var state: HomeState
    var events: seq<HomeEvent>
    /** The key-pair files FileOperationsManager reads and writes, by file name. */
    var files: map<string, string>

    constructor(files: map<string, string>)
      ensures state == DefaultState && events == [] && this.files == files
    {
      state := DefaultState;
      events := [];
      this.files := files;
    }

    /** sendHomeEvent: the formatted event goes on the channel. */
    method SendHomeEvent(event: HomeEvent)
      modifies this
      ensures events == old(events) + [FormatMessage(event)]
      ensures state == old(state) && files == old(files)
    {
      events := events + [FormatMessage(event)];
    }

    method ResetFileList()
      modifies this
      ensures state == old(state).(fileList := None)
      ensures events == old(events) && files == old(files)
    {
      state := state.(fileList := None);
    }

    method ResetState()
      modifies this
      ensures state == DefaultState
      ensures events == old(events) && files == old(files)
    {
      state := DefaultState;
    }

    /** updateKeyPair: both keys from one pair, every other field kept. */
    method UpdateKeyPair(keyPair: KeyPair)
      modifies this
      ensures state == old(state).(privateKey := Some(keyPair.privateKey), publicKey := Some(keyPair.publicKey))
      ensures events == old(events) && files == old(files)
    {
      state := state.(privateKey := Some(keyPair.privateKey));
      state := state.(publicKey := Some(keyPair.publicKey));
    }

    method UpdateKeyPairName(keyPairName: string)
      modifies this
      ensures state == old(state).(privateKeyName := PrivateFileName(keyPairName),
                                   publicKeyName := PublicFileName(keyPairName))
      ensures events == old(events) && files == old(files)
    {
      state := state.(privateKeyName := keyPairName + "_Private");
      state := state.(publicKeyName := keyPairName + "_Public");
    }

    /** saveKeyPairFile: each key's text form under name_Public and name_Private. */
    method SaveKeyPairFile(fileName: string, keyPair: KeyPair)
      modifies this
      ensures files == SavePair(old(files), fileName, keyPair)
      ensures state == old(state) && events == old(events)
    {
      files := files[fileName + "_Public" := PublicKeyText(keyPair.publicKey)];
      files := files[fileName + "_Private" := PrivateKeyText(keyPair.privateKey)];
    }

    /**
     * getKeyFile: a name containing "Public" is read as a public key, else one
     * containing "Private" as a private key, else an error; the file list is
     * cleared in every case.
     */
    method GetKeyFile(fileName: string)
      modifies this
      ensures files == old(files)
      ensures state.fileList == None
      ensures Contains(fileName, "Public") && fileName in old(files) ==>
        state == old(state).(publicKey := ToPublicKey(old(files)[fileName]),
                             publicKeyName := fileName, fileList := None)
        && events == old(events) + [FormatMessage(ShowSuccessMessage("Genel anahtar başarıyla alındı."))]
      ensures !Contains(fileName, "Public") && Contains(fileName, "Private") && fileName in old(files) ==>
        state == old(state).(privateKey := ToPrivateKey(old(files)[fileName]),
                             privateKeyName := fileName, fileList := None)
        && events == old(events) + [FormatMessage(ShowSuccessMessage("Özel anahtar başarıyla alındı."))]
      ensures (Contains(fileName, "Public") || Contains(fileName, "Private")) && fileName !in old(files) ==>
        state == old(state).(fileList := None) && events == old(events)
      ensures !Contains(fileName, "Public") && !Contains(fileName, "Private") ==>
        state == old(state).(fileList := None)
        && events == old(events) + [FormatMessage(ShowErrorMessage(KeyFileErrorText))]
    {
      if Contains(fileName, "Public") {
        if fileName in files {
          state := state.(publicKey := ToPublicKey(files[fileName]));
          state := state.(publicKeyName := fileName);
          SendHomeEvent(ShowSuccessMessage("Genel anahtar başarıyla alındı."));
        }
      } else if Contains(fileName, "Private") {
        if fileName in files {
          state := state.(privateKey := ToPrivateKey(files[fileName]));
          state := state.(privateKeyName := fileName);
          SendHomeEvent(ShowSuccessMessage("Özel anahtar başarıyla alındı."));
        }
      } else {
        SendHomeEvent(ShowErrorMessage(KeyFileErrorText));
      }
      ResetFileList();
    }

    /**
     * encryptFileContent. RSA.encrypt is called there with the String content, an
     * overload the RSA object does not have, so its text is the parameter encrypted.
     * BigInteger of an empty content throws, ending the coroutine (completed false).
     */
    method EncryptFileContent(encrypted: string) returns (completed: bool)
      modifies this
      ensures files == old(files)
      ensures old(state).publicKey.None? ==>
        completed && state == old(state).(dencrypting := false)
        && events == old(events) + [FormatMessage(ShowErrorMessage(NoPublicKeyText))]
      ensures old(state).publicKey.Some? && |old(state).fileContent| == 0 ==>
        !completed && state == old(state).(dencrypting := true) && events == old(events)
      ensures (old(state).publicKey.Some? && |old(state).fileContent| > 0
               && FromByteArray(old(state).fileContent).value >= old(state).publicKey.value.n) ==>
        completed && state == old(state).(encryptedContent := "", dencrypting := false)
        && events == old(events) + [FormatMessage(ShowErrorMessage(MessageTooLargeText))]
      ensures (old(state).publicKey.Some? && |old(state).fileContent| > 0
               && FromByteArray(old(state).fileContent).value < old(state).publicKey.value.n) ==>
        completed && state == old(state).(encryptedContent := encrypted, dencrypting := false)
        && events == old(events) + [FormatMessage(ShowSuccessMessage("Dosya başarıyla şifrelendi."))]
    {
      state := state.(dencrypting := true);
      var publicKey := state.publicKey;
      if publicKey.Some? {
        var message := FromByteArray(state.fileContent);
        if message.Failure? {
          return false;
        }
        if message.value >= publicKey.value.n {
          state := state.(encryptedContent := "");
          state := state.(dencrypting := false);
          SendHomeEvent(ShowErrorMessage(MessageTooLargeText));
          return true;
        }
        state := state.(encryptedContent := encrypted);
        SendHomeEvent(ShowSuccessMessage("Dosya başarıyla şifrelendi."));
      } else {
        SendHomeEvent(ShowErrorMessage(NoPublicKeyText));
      }
      state := state.(dencrypting := false);
      return true;
    }

    /**
     * The withTimeout block both creation paths share: generate a pair of bitLength
     * bits, save it, put it in the state and report success; a failure reports the
     * timeout text or the failure text followed by the exception message. dencrypting
     * is false afterwards (the finally block).
     */
    method GenerateAndStore(bitLength: int, keyPairName: string, fuel: nat,
                            successText: string, timeoutText: string, failureText: string)
        returns (outcome: Generation, ghost p: int, ghost q: int)
      modifies this
      ensures outcome != Rejected
      ensures outcome.Failed? ==>
        (outcome.error == BitLengthTooSmall <==> TruncDiv(bitLength, 2) < 2)
        && (outcome.error == BitLengthTooSmall || outcome.error == TimedOut)
        && state == old(state).(dencrypting := false) && files == old(files)
        && events == old(events) + [FormatMessage(ShowErrorMessage(FailureText(outcome.error, timeoutText, failureText)))]
      ensures outcome.Generated? ==>
        GeneratedFrom(outcome.keyPair, bitLength, p, q)
        && state == old(state).(privateKey := Some(outcome.keyPair.privateKey),
                                publicKey := Some(outcome.keyPair.publicKey), dencrypting := false)
        && files == SavePair(old(files), keyPairName, outcome.keyPair)
        && events == old(events) + [FormatMessage(ShowSuccessMessage(successText))]
    {
      var r;
      r, p, q := GenerateKeyPair(bitLength, fuel);
      if r.Failure? {
        if r.error == TimedOut {
          SendHomeEvent(ShowErrorMessage(timeoutText));
        } else {
          SendHomeEvent(ShowErrorMessage(failureText + ExceptionMessage(r.error)));
        }
        state := state.(dencrypting := false);
        return Failed(r.error), p, q;
      }
      SaveKeyPairFile(keyPairName, r.value);
      UpdateKeyPair(r.value);
      SendHomeEvent(ShowSuccessMessage(successText));
      state := state.(dencrypting := false);
      return Generated(r.value), p, q;
    }

    /** createStaticSizedKeypair: rejects keySize above 1024 * 8, else keySize * 8 bits. */
    method CreateStaticSizedKeypair(keySize: Int32, keyPairName: string, fuel: nat)
        returns (outcome: Generation, ghost p: int, ghost q: int)
      modifies this
      ensures keySize > MaxKeySize ==>
        outcome == Rejected && state == old(state).(dencrypting := false) && files == old(files)
        && events == old(events) + [FormatMessage(ShowErrorMessage(TooLargeText))]
      ensures keySize <= MaxKeySize ==> outcome != Rejected
      ensures outcome.Failed? ==>
        (outcome.error == BitLengthTooSmall <==> TruncDiv(StaticKeyBits(keySize), 2) < 2)
        && (outcome.error == BitLengthTooSmall || outcome.error == TimedOut)
        && state == old(state).(dencrypting := false) && files == old(files)
        && events == old(events) + [FormatMessage(ShowErrorMessage(
             FailureText(outcome.error, StaticTimeoutText, StaticFailureText)))]
      ensures outcome.Generated? ==>
        GeneratedFrom(outcome.keyPair, StaticKeyBits(keySize), p, q)
        && state == old(state).(privateKey := Some(outcome.keyPair.privateKey),
                                publicKey := Some(outcome.keyPair.publicKey), dencrypting := false)
        && files == SavePair(old(files), keyPairName, outcome.keyPair)
        && events == old(events) + [FormatMessage(ShowSuccessMessage(StaticSuccessText))]
    {
      state := state.(dencrypting := true);
      if keySize > MaxKeySize {
        SendHomeEvent(ShowErrorMessage(TooLargeText));
        state := state.(dencrypting := false);
        return Rejected, 0, 0;
      }
      outcome, p, q := GenerateAndStore(StaticKeyBits(keySize), keyPairName, fuel,
        StaticSuccessText, StaticTimeoutText, StaticFailureText);
    }

    /** createDynamicSizedKeypair: the key size follows the file size (DynamicKeyBits). */
    method CreateDynamicSizedKeypair(keyPairName: string, fuel: nat)
        returns (outcome: Generation, ghost p: int, ghost q: int)
      modifies this
      ensures DynamicKeyBits(old(state).fileSize).None? ==>
        outcome == Rejected && state == old(state).(dencrypting := false) && files == old(files)
        && events == old(events) + [FormatMessage(ShowErrorMessage(DynamicTooLargeText))]
      ensures DynamicKeyBits(old(state).fileSize).Some? ==> outcome != Rejected
      ensures outcome.Failed? ==>
        outcome.error == TimedOut && state == old(state).(dencrypting := false) && files == old(files)
        && events == old(events) + [FormatMessage(ShowErrorMessage(DynamicTimeoutText))]
      ensures outcome.Generated? ==>
        GeneratedFrom(outcome.keyPair, DynamicKeyBits(old(state).fileSize).value, p, q)
        && state == old(state).(privateKey := Some(outcome.keyPair.privateKey),
                                publicKey := Some(outcome.keyPair.publicKey), dencrypting := false)
        && files == SavePair(old(files), keyPairName, outcome.keyPair)
        && events == old(events) + [FormatMessage(ShowSuccessMessage(DynamicSuccessText))]
    {
      state := state.(dencrypting := true);
      var bits := DynamicKeyBits(state.fileSize);
      if bits.None? {
        SendHomeEvent(ShowErrorMessage(DynamicTooLargeText));
        state := state.(dencrypting := false);
        return Rejected, 0, 0;
      }
      outcome, p, q := GenerateAndStore(bits.value, keyPairName, fuel,
        DynamicSuccessText, DynamicTimeoutText, DynamicFailureText);
    }

    /**
     * createKeyPair: names the pair, then routes on keySize (CreateKeyPairRoute) to
     * dynamic sizing, the too-large error, or static sizing.
     */
    method CreateKeyPair(keySize: Int32, keyPairName: string, fuel: nat)
        returns (route: KeySizeRoute, outcome: Generation, ghost p: int, ghost q: int)
      modifies this
      ensures route == CreateKeyPairRoute(keySize, old(state).fileSize)
      ensures state.privateKeyName == PrivateFileName(keyPairName)
      ensures state.publicKeyName == PublicFileName(keyPairName)
      ensures state.fileSize == old(state).fileSize && state.fileContent == old(state).fileContent
      ensures route == TooLarge ==>
        outcome == Rejected && files == old(files)
        && state == WithKeyPairName(old(state), keyPairName)
        && events == old(events) + [FormatMessage(ShowErrorMessage(TooLargeText))]
      ensures route == Static ==> outcome != Rejected
      ensures route == Dynamic && outcome == Rejected ==>
        DynamicKeyBits(keySize).None? && files == old(files)
        && state == WithKeyPairName(old(state), keyPairName).(dencrypting := false)
        && events == old(events) + [FormatMessage(ShowErrorMessage(DynamicTooLargeText))]
      ensures route == Dynamic && outcome.Failed? ==>
        outcome.error == TimedOut && files == old(files)
        && state == WithKeyPairName(old(state), keyPairName).(dencrypting := false)
        && events == old(events) + [FormatMessage(ShowErrorMessage(DynamicTimeoutText))]
      ensures route == Static && outcome.Failed? ==>
        (outcome.error == BitLengthTooSmall <==> TruncDiv(StaticKeyBits(keySize), 2) < 2)
        && (outcome.error == BitLengthTooSmall || outcome.error == TimedOut)
        && files == old(files)
        && state == WithKeyPairName(old(state), keyPairName).(dencrypting := false)
        && events == old(events) + [FormatMessage(ShowErrorMessage(
             FailureText(outcome.error, StaticTimeoutText, StaticFailureText)))]
      ensures route == Dynamic && outcome.Generated? ==>
        DynamicKeyBits(keySize).Some? && GeneratedFrom(outcome.keyPair, DynamicKeyBits(keySize).value, p, q)
      ensures route == Static && outcome.Generated? ==>
        GeneratedFrom(outcome.keyPair, StaticKeyBits(keySize), p, q)
      ensures outcome.Generated? ==>
        state == WithKeyPairName(old(state), keyPairName).(privateKey := Some(outcome.keyPair.privateKey),
                                                           publicKey := Some(outcome.keyPair.publicKey),
                                                           dencrypting := false)
        && files == SavePair(old(files), keyPairName, outcome.keyPair)
        && events == old(events) + [FormatMessage(ShowSuccessMessage(
             if route == Dynamic then DynamicSuccessText else StaticSuccessText))]
    {
      UpdateKeyPairName(keyPairName);
      route := CreateKeyPairRoute(keySize, state.fileSize);
      match route {
        case Dynamic =>
          outcome, p, q := CreateDynamicSizedKeypair(keyPairName, fuel);
        case TooLarge =>
          SendHomeEvent(ShowErrorMessage(TooLargeText));
          outcome, p, q := Rejected, 0, 0;
        case Static =>
          outcome, p, q := CreateStaticSizedKeypair(keySize, keyPairName, fuel);
      }
    }
  }
}

/**
 * The key-creation dialog (full-screen and bottom-sheet forms share this logic):
 * the suggested size, the manual-size input filter and the submit validation.
 */
module KeyCreation {
  import opened Wrappers
  import opened Arith
  import opened KotlinInt
  import opened Formatters
  import opened MainViewModel

  const NameErrorText := "Anahtar Çifti Adı Boş Bırakılamaz!"
  const SizeErrorText := "Anahtar Boyutu 1024 byte'dan Fazla Olamaz!"

  /** Largest manual key size, in bytes, the dialog accepts. */
  const MaxManualKeySize: int := 1024

  /**
   * tailoredSize, the size shown as automatic: 2048 / 8 when fileSize * 8 (Int
   * arithmetic) is below 2048, otherwise fileSize + 3.
   */
  function TailoredSize(fileSize: Int32): (r: Int32)
    ensures Wrap(fileSize * 8) < 2048 ==> r == 256
    ensures Wrap(fileSize * 8) >= 2048 ==> r == fileSize + 3
  {
    if Wrap(fileSize * 8) < 2048 then 2048 / 8 else Wrap(fileSize + 3)
  }

  /**
   * The size shown is the size dynamic sizing generates, in bytes: 8 * tailoredSize
   * is the bit length createDynamicSizedKeypair asks for, whenever it asks for one.
   */
  lemma {:induction false} TailoredSizeIsDynamicSize(fileSize: Int32)
    requires 0 <= fileSize <= IntMax / 8
    requires DynamicKeyBits(fileSize).Some?
    ensures TailoredSize(fileSize) * 8 == DynamicKeyBits(fileSize).value
  {
    assert Wrap(fileSize * 8) == fileSize * 8;
  }

  /**
   * Above 2^28 bytes fileSize * 8 wraps and the two sizes part ways: for 0x2000_0100
   * bytes the dialog shows 0x2000_0103 while dynamic sizing asks for 2072 bits.
   */
  lemma {:induction false} TailoredSizeWrapsApart()
    ensures DynamicKeyBits(0x2000_0100) == Some(2072)
    ensures TailoredSize(0x2000_0100) == 0x2000_0103
    ensures TailoredSize(0x2000_0100) * 8 != DynamicKeyBits(0x2000_0100).value
  {
    assert Wrap(0x2000_0100 * 8) == 2048;
  }

  /** The manual-size filter: every character a digit and at most four of them. */
  predicate AcceptsManualSize(newValue: string) {
    AllDigits(newValue) && |newValue| <= 4
  }

  /** String.toIntOrNull: a decimal number that fits in an Int, otherwise null. */
  function ToIntOrNull(s: string): (r: Option<Int32>)
    ensures r.Some? ==> ParseDecimal(s) == Some(r.value)
    ensures ParseDecimal(s).Some? && IntMin <= ParseDecimal(s).value <= IntMax ==> r.Some?
  {
    match ParseDecimal(s)
    case Some(v) => if IntMin <= v <= IntMax then Some(v) else None
    case None => None
  }

  /** Four digits or fewer read as a number below 10^|s|. */
  lemma {:induction false} DigitsValueBound(s: string)
    requires AllDigits(s)
    ensures DigitsValue(s) < Pow(10, |s|)
    decreases |s|
  {
    if |s| > 0 {
      DigitsValueBound(s[..|s| - 1]);
    }
  }

  /** Whatever the filter let through, if not empty, reads as an Int from 0 to 9999. */
  lemma {:induction false} AcceptedManualSizeParses(s: string)
    requires AcceptsManualSize(s) && s != ""
    ensures ToIntOrNull(s).Some? && 0 <= ToIntOrNull(s).value <= 9999
  {
    DigitsValueBound(s);
    PowMonotone(10, |s|, 4);
    assert Pow(10, 4) == 10000;
  }

  /** What pressing the create button leads to. */
  datatype Submission =
    | NameError
    | SizeError
    | InvalidValue
    | Create(keySize: Int32, keyPairName: string)

  /**
   * The onClick validation: an empty name first, then a manual size that does not
   * read as a number up to 1024, then a null keySize; otherwise onCreateClicked with
   * fileSize (manual size empty) or the manual size.
   */
  function Validate(manualKeySize: string, keyPairName: string, fileSize: Int32): (r: Submission)
    ensures r != InvalidValue
    ensures r == NameError <==> keyPairName == ""
    ensures r == SizeError <==>
      (keyPairName != "" && manualKeySize != ""
       && (ToIntOrNull(manualKeySize).None? || ToIntOrNull(manualKeySize).value > MaxManualKeySize))
    ensures r.Create? ==> r.keyPairName == keyPairName
    ensures r.Create? && manualKeySize == "" ==> r.keySize == fileSize
    ensures r.Create? && manualKeySize != "" ==>
      ToIntOrNull(manualKeySize) == Some(r.keySize) && r.keySize <= MaxManualKeySize
  {
    var keySize := if manualKeySize == "" then Some(TailoredSize(fileSize)) else ToIntOrNull(manualKeySize);
    var isKeySizeValid := keySize.Some? && keySize.value <= MaxManualKeySize;
    if keyPairName == "" then NameError
    else if manualKeySize != "" && !isKeySizeValid then SizeError
    else if keySize.None? then assert false; InvalidValue
    else Create(if manualKeySize == "" then fileSize else keySize.value, keyPairName)
  }

  /** With the filter's invariant, a size error only ever means "more than 1024". */
  lemma {:induction false} SizeErrorMeansTooLarge(manualKeySize: string, keyPairName: string, fileSize: Int32)
    requires AcceptsManualSize(manualKeySize)
    requires Validate(manualKeySize, keyPairName, fileSize) == SizeError
    ensures ToIntOrNull(manualKeySize).Some? && ToIntOrNull(manualKeySize).value > MaxManualKeySize
  {
    AcceptedManualSizeParses(manualKeySize);
  }

  /**
   * The dialog and the view model together: an empty manual size sends fileSize,
   * which createKeyPair takes as "size the key from the file".
   */
  lemma {:induction false} EmptyManualSizeIsDynamic(keyPairName: string, fileSize: Int32)
    requires keyPairName != ""
    ensures Validate("", keyPairName, fileSize) == Create(fileSize, keyPairName)
    ensures CreateKeyPairRoute(Validate("", keyPairName, fileSize).keySize, fileSize) == Dynamic
  {
  }

  /**
   * A manual size the dialog lets through never takes the too-large route, and it
   * is sized from the file exactly when it happens to equal fileSize.
   */
  lemma {:induction false} ManualSizeRoute(manualKeySize: string, keyPairName: string, fileSize: Int32)
    requires manualKeySize != ""
    requires Validate(manualKeySize, keyPairName, fileSize).Create?
    ensures var k := Validate(manualKeySize, keyPairName, fileSize).keySize;
      CreateKeyPairRoute(k, fileSize) == (if k == fileSize then Dynamic else Static)
  {
  }

  /** The dialog's remembered state. */
  class KeyCreationForm {
    var manualKeySize: string
    var keyPairName: string
    var errorMessage: string

    /** The manual size only ever holds what the filter accepted. */
    ghost predicate Valid()
      reads this
    {
      AcceptsManualSize(manualKeySize)
    }

    constructor()
      ensures manualKeySize == "" && keyPairName == "" && errorMessage == ""
      ensures Valid()
    {
      manualKeySize := "";
      keyPairName := "";
      errorMessage := "";
    }

    /** The manual-size field's onValueChange: keep the edit only if the filter accepts it. */
    method OnManualKeySizeChange(newValue: string)
      requires Valid()
      modifies this
      ensures Valid()
      ensures manualKeySize == (if AcceptsManualSize(newValue) then newValue else old(manualKeySize))
      ensures keyPairName == old(keyPairName) && errorMessage == old(errorMessage)
    {
      if AcceptsManualSize(newValue) {
        manualKeySize := newValue;
      }
    }

    method OnKeyPairNameChange(newValue: string)
      requires Valid()
      modifies this
      ensures Valid()
      ensures keyPairName == newValue
      ensures manualKeySize == old(manualKeySize) && errorMessage == old(errorMessage)
    {
      keyPairName := newValue;
    }

    /**
     * The create button's onClick: sets the error text, or returns the arguments
     * onCreateClicked receives and dismisses the dialog. The branch that would set
     * "Manuel Anahtar İçin Girilen Değer Geçersiz" has no case here: Validate never
     * reaches it.
     */
    method OnCreateClick(fileSize: Int32) returns (created: Option<(Int32, string)>, dismissed: bool)
      requires Valid()
      modifies this
      ensures Valid()
      ensures manualKeySize == old(manualKeySize) && keyPairName == old(keyPairName)
      ensures dismissed <==> created.Some?
      ensures old(keyPairName) == "" ==> created.None? && errorMessage == NameErrorText
      ensures created.Some? ==>
        Validate(old(manualKeySize), old(keyPairName), fileSize) == Create(created.value.0, created.value.1)
        && errorMessage == old(errorMessage)
      ensures Validate(old(manualKeySize), old(keyPairName), fileSize) == SizeError ==>
        created.None? && errorMessage == SizeErrorText
      ensures Validate(old(manualKeySize), old(keyPairName), fileSize).Create? ==>
        created == Some((Validate(old(manualKeySize), old(keyPairName), fileSize).keySize, old(keyPairName)))
        && dismissed
    {
      match Validate(manualKeySize, keyPairName, fileSize) {
        case NameError =>
          errorMessage := NameErrorText;
          return None, false;
        case SizeError =>
          errorMessage := SizeErrorText;
          return None, false;
        case Create(keySize, name) =>
          return Some((keySize, name)), true;
      }
    }
  }
}

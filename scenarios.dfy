/**
 * The configurations exercised by the package's unit tests, with the outcome
 * `generate()` must have for each, stated over the model's predicates.
 */
module Scenarios {
  import opened Wrappers
  import opened CharacterTypes
  import opened Generator
  import opened GeneratorProperties

  const DigitString := "0123456789"
  const UppercaseString := "ABCDEFGHIJKLMNOPQRSTUVWXYZ"
  const LowercaseString := "abcdefghijklmnopqrstuvwxyz"

  /** The types every test selects: digits, uppercase and lowercase. */
  const Alphanumeric: set<CharacterType> := {Digits, Uppercase, Lowercase}

  /** The digit alphabet, spelled out. */
  lemma DigitsSpelledOut()
    ensures Characters(Digits) == DigitString
  {
  }

  /** The uppercase alphabet, spelled out. */
  lemma UppercaseSpelledOut()
    ensures Characters(Uppercase) == UppercaseString
  {
  }

  /** The lowercase alphabet, spelled out. */
  lemma LowercaseSpelledOut()
    ensures Characters(Lowercase) == LowercaseString
  {
  }

  lemma AlphanumericCount()
    ensures |Alphanumeric| == 3
  {
    assert Alphanumeric == {Digits} + {Uppercase} + {Lowercase};
  }

  /** Characters `d`, `u` and `l` of the three alphabets keep each selected type available. */
  lemma AllTypesAvailable(g: RandomPasswordGenerator, d: char, u: char, l: char)
    requires g.characterTypes == Alphanumeric && g.length >= 3
    requires InAlphabet(Digits, d as int) && d !in Excluded(g)
    requires InAlphabet(Uppercase, u as int) && u !in Excluded(g)
    requires InAlphabet(Lowercase, l as int) && l !in Excluded(g)
    ensures CanGenerate(g)
  {
    var available := AvailableCharacters(g);
    AlphanumericCount();
    CharactersMembers(Digits);
    CharactersMembers(Uppercase);
    CharactersMembers(Lowercase);
    assert d in Selected(Alphanumeric, Digits) && d in available;
    assert u in Selected(Alphanumeric, Uppercase) && u in available;
    assert l in Selected(Alphanumeric, Lowercase) && l in available;
    forall t | t in g.characterTypes
      ensures HasAvailable(t, available)
    {
      if t == Digits {
        assert d in Characters(t);
      } else if t == Uppercase {
        assert u in Characters(t);
      } else {
        assert l in Characters(t);
      }
    }
  }

  /** Length 10 with digits, uppercase and lowercase and nothing excluded: a password is produced. */
  lemma DefaultConfigurationSucceeds()
    ensures CanGenerate(Init(10, Alphanumeric, None))
  {
    AllTypesAvailable(Init(10, Alphanumeric, None), '0', 'A', 'a');
  }

  /** Excluding "123ABCabc" still leaves characters of every selected type: a password is produced. */
  lemma ExclusionConfigurationSucceeds()
    ensures CanGenerate(Init(10, Alphanumeric, Some("123ABCabc")))
  {
    var g := Init(10, Alphanumeric, Some("123ABCabc"));
    assert '0' !in Excluded(g) && 'D' !in Excluded(g) && 'd' !in Excluded(g);
    AllTypesAvailable(g, '0', 'D', 'd');
  }

  /** Length 1 with three types selected reports `insufficientLength`. */
  lemma LengthOneReportsInsufficientLength(e: RandomPasswordGeneratorError)
    ensures IsReportedError(Init(1, Alphanumeric, None), e) <==> e == InsufficientLength
  {
    AlphanumericCount();
  }

  /** No types selected reports `emptyCharacterTypes`. */
  lemma NoTypesReportsEmptyCharacterTypes(e: RandomPasswordGeneratorError)
    ensures IsReportedError(Init(10, {}, None), e) <==> e == EmptyCharacterTypes
  {
  }

  /** Excluding every digit and letter reports `emptyCharacterSet`. */
  lemma ExcludingAllReportsEmptyCharacterSet(e: RandomPasswordGeneratorError)
    ensures IsReportedError(Init(10, Alphanumeric, Some(DigitString + UppercaseString + LowercaseString)), e)
      <==> e == EmptyCharacterSet
  {
    var g := Init(10, Alphanumeric, Some(DigitString + UppercaseString + LowercaseString));
    AlphanumericCount();
    DigitsSpelledOut();
    UppercaseSpelledOut();
    LowercaseSpelledOut();
    assert AvailableCharacters(g) == {};
  }

  /** With every digit excluded, uppercase and lowercase letters stay available and no digit does. */
  lemma ExcludingDigitsAvailability(g: RandomPasswordGenerator)
    requires g == Init(10, Alphanumeric, Some(DigitString))
    ensures 'A' in AvailableCharacters(g)
    ensures HasAvailable(Uppercase, AvailableCharacters(g))
    ensures HasAvailable(Lowercase, AvailableCharacters(g))
    ensures !HasAvailable(Digits, AvailableCharacters(g))
  {
    var available := AvailableCharacters(g);
    CharactersMembers(Uppercase);
    CharactersMembers(Lowercase);
    assert 'A' in Selected(Alphanumeric, Uppercase) && 'A' in Characters(Uppercase);
    assert 'a' in Selected(Alphanumeric, Lowercase) && 'a' in Characters(Lowercase);
    assert !HasAvailable(Digits, available) by {
      DigitsSpelledOut();
      forall c | c in Characters(Digits)
        ensures c in Excluded(g)
      {
      }
    }
  }

  /** Excluding every digit reports `noAvailableCharactersForType(.digits)`. */
  lemma ExcludingDigitsReportsDigits(e: RandomPasswordGeneratorError)
    ensures IsReportedError(Init(10, Alphanumeric, Some(DigitString)), e)
      <==> e == NoAvailableCharactersForType(Digits)
  {
    var g := Init(10, Alphanumeric, Some(DigitString));
    ExcludingDigitsAvailability(g);
    AlphanumericCount();
    ReportedErrorNamesTheOnlyEmptyType(g, Digits, e);
  }

  /** The exclusion test run through `Generate`: whatever the random draws, the password meets the test's checks. */
  method GenerateWithExclusions() returns (pw: string)
    ensures |pw| == 10
    ensures Covers(pw, Digits) && Covers(pw, Uppercase) && Covers(pw, Lowercase)
    ensures forall i :: 0 <= i < |pw| ==> pw[i] !in "123ABCabc"
  {
    var g := Init(10, Alphanumeric, Some("123ABCabc"));
    ExclusionConfigurationSucceeds();
    var r := Generate(g);
    if r.Failure? {
      assert false;
    }
    pw := r.value;
    assert Digits in Alphanumeric && Uppercase in Alphanumeric && Lowercase in Alphanumeric;
  }

  /** A negative length with no types selected: the length guard runs first. */
  method NegativeLengthWithoutTypes() returns (e: RandomPasswordGeneratorError)
    ensures e == InsufficientLength
  {
    var r := Generate(Init(-1, {}, None));
    if r.Success? {
      assert false;
    }
    e := r.error;
  }
}

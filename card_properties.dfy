/**
 * Properties of the tip-calculator form that relate several of its operations:
 * what a clean field contributes to the calculation, when the amounts are
 * non-zero, and worked examples of the validation order and of the arithmetic.
 */
module CardProperties {
  import opened Wrappers
  import opened JsNumber
  import opened Card

  /** A field that validates clean and is not blank reads as a positive number. */
  lemma CleanFieldIsPositive(value: string)
    requires ValidateInput(value) == "" && !IsBlank(value)
    ensures ParseFloat(value).Finite? && ParseFloat(value).value > 0.0
  {
    ValidMeansBlankOrPositive(value);
    ParseFloatAgreesWithNumber(value);
  }

  /** In a reachable state the effective tip percentage is never negative once the custom tip validates. */
  lemma TipPercentageNonNegative(f: Form)
    requires Consistent(f) && f.errors.customTip == ""
    ensures TipPercentage(f) >= 0.0
  {
    if f.selectedTip.None? {
      ValidationRules(f.customTip);
    }
  }

  /**
   * In a reachable state the amounts on display are non-zero exactly when no
   * field shows an error, the bill is not blank and `parseInt` reads a positive
   * head count.
   */
  lemma DerivedNonZeroIff(f: Form)
    requires Consistent(f)
    ensures Derived(f) != NoAmounts <==> !f.errors.Any() && !IsBlank(f.bill) && PeopleCount(f) > 0.0
  {
    if !f.errors.Any() && !IsBlank(f.bill) {
      CleanFieldIsPositive(f.bill);
      TipPercentageNonNegative(f);
    }
  }

  /** At most one preset button is shown as selected, and it is the one whose value is stored. */
  lemma AtMostOnePresetSelected(f: Form, i: nat, j: nat)
    requires i < |TipOptions| && j < |TipOptions|
    requires f.selectedTip == Some(TipOptions[i]) && f.selectedTip == Some(TipOptions[j])
    ensures i == j
  {
  }

  /** The initial state is reachable-consistent and has reset disabled. */
  lemma InitialIsDisabled()
    ensures Consistent(Initial()) && ResetDisabled(Initial())
  {
    ResetDisabledIffInitial(Initial());
  }

  /** A plain numeral validates clean unless it denotes zero. */
  lemma NumeralValidation(ds: string)
    requires ds != [] && IsNumeral(ds, 10)
    ensures ValidateInput(ds) == if DigitsValue(ds, 10) == 0 then ZeroMessage else ""
  {
    var n := DigitsValue(ds, 10);
    assert ParseFloat(ds) == Finite(n as real) && ToNumber(ds) == Finite(n as real) by {
      DigitsParse(ds);
    }
    assert '-' !in ds by {
      NoMinusInNumeral(ds, []);
      assert ds + [] == ds;
    }
    WholeNumberValidation(ds, n);
  }

  /** Text free of minus signs that both readers take as the same whole number. */
  lemma WholeNumberValidation(v: string, n: nat)
    requires v != "" && '-' !in v
    requires ParseFloat(v) == Finite(n as real) && ToNumber(v) == Finite(n as real)
    ensures ValidateInput(v) == if n == 0 then ZeroMessage else ""
  {
  }

  /** How the texts "50" and "5" read. */
  lemma FiftyAndFive()
    ensures ValidateInput("50") == "" && ParseFloat("50") == Finite(50.0)
    ensures ValidateInput("5") == "" && ParseInt("5") == Finite(5.0)
  {
    Fifty();
    Five();
  }

  lemma Fifty()
    ensures ValidateInput("50") == "" && ParseFloat("50") == Finite(50.0)
  {
    var ds := "50";
    assert IsNumeral(ds, 10);
    assert DigitsValue(ds, 10) == 50 by {
      assert ds[..1] == "5";
    }
    NumeralValidation(ds);
    assert ParseFloat(ds) == Finite(50.0) by {
      DigitsParse(ds);
    }
  }

  lemma Five()
    ensures ValidateInput("5") == "" && ParseInt("5") == Finite(5.0)
  {
    var ds := "5";
    assert IsNumeral(ds, 10) && DigitsValue(ds, 10) == 5;
    NumeralValidation(ds);
    NumeralParseInt(ds);
  }

  /** Bill "50", five people and the 10% preset, as the handlers leave it. */
  const FiftyAmongFive := Form("50", "5", "", Some(10), Errors("", "", ""))

  lemma ReachFiftyAmongFive()
    ensures TipSelected(InputChanged(InputChanged(Initial(), Bill, "50"), People, "5"), 10) == FiftyAmongFive
  {
    var clean := Errors("", "", "");
    var billed := Form("50", "", "", None, clean);
    var counted := Form("50", "5", "", None, clean);
    assert InputChanged(Initial(), Bill, "50") == billed by {
      Fifty();
      assert WithInput(Initial(), Bill, "50", "") == billed;
    }
    assert InputChanged(billed, People, "5") == counted by {
      Five();
      assert WithInput(billed, People, "5", "") == counted;
    }
    assert TipSelected(counted, 10) == FiftyAmongFive;
  }

  /** Bill "50", five people and the 10% preset: $1.00 tip and $11.00 in all per person. */
  lemma FiftyAmongFiveAtTenPercent()
    ensures Consistent(FiftyAmongFive) && Derived(FiftyAmongFive) == Amounts(1.0, 11.0)
  {
    FiftyAndFive();
    assert Compute(50.0, 5.0, 10.0, Errors("", "", "")) == Amounts(1.0, 11.0);
  }

  /** In a reachable state, a field whose text fails validation forces both amounts to zero. */
  lemma InvalidFieldBlocks(f: Form, field: Field)
    requires Consistent(f)
    requires ValidateInput(f.Raw(field)) != ""
    ensures Derived(f) == NoAmounts
  {
  }

  /** A minus sign decides before anything else: "-0", "-abc", "1e-3" and "1-2" are all negative. */
  lemma MinusDecidesFirst()
    ensures ValidateInput("-0") == NegativeMessage && ValidateInput("-abc") == NegativeMessage
    ensures ValidateInput("1e-3") == NegativeMessage && ValidateInput("1-2") == NegativeMessage
  {
    ValidationRules("-0");
    ValidationRules("-abc");
    ValidationRules("1e-3");
    ValidationRules("1-2");
  }

  /**
   * Text free of minus signs that is not a number as a whole: the zero message
   * when its leading number is zero, the not-a-number message otherwise.
   */
  lemma NotANumberValidation(v: string)
    requires '-' !in v && IsNaN(v)
    ensures ParseFloat(v) == Finite(0.0) ==> ValidateInput(v) == ZeroMessage
    ensures ParseFloat(v) != Finite(0.0) ==> ValidateInput(v) == NotANumberMessage
  {
    ValidationRules(v);
  }

  lemma NoMinusInNumeral(ds: string, w: string)
    requires IsNumeral(ds, 10) && '-' !in w
    ensures '-' !in ds + w
  {
    forall i | 0 <= i < |ds + w|
      ensures (ds + w)[i] != '-'
    {
      if i < |ds| {
        assert IsDigitIn(ds[i], 10);
      } else {
        assert (ds + w)[i] == w[i - |ds|];
      }
    }
  }

  /** The text "0" is reported as zero. */
  lemma ZeroIsZero()
    ensures ValidateInput("0") == ZeroMessage
  {
    assert IsNumeral("0", 10);
    NumeralValidation("0");
  }

  /**
   * A numeral followed by non-blank text that stops the number: the zero message
   * when the numeral denotes zero ("0abc"), the not-a-number message otherwise
   * ("12abc", "12abc ").
   */
  lemma NumeralThenTextValidation(ds: string, w: string)
    requires ds != [] && IsNumeral(ds, 10)
    requires w != [] && IsStopper(w[0]) && !IsBlank(w) && '-' !in w
    ensures ValidateInput(ds + w) == if DigitsValue(ds, 10) == 0 then ZeroMessage else NotANumberMessage
  {
    var v := ds + w;
    assert ParseFloat(v) == Finite(DigitsValue(ds, 10) as real) && IsNaN(v) by {
      NumeralThenText(ds, w);
    }
    assert '-' !in v by {
      NoMinusInNumeral(ds, w);
    }
    LeadingNumberValidation(v, DigitsValue(ds, 10));
  }

  /** Text free of minus signs that is not a number as a whole, given the whole number `parseFloat` reads from its head. */
  lemma LeadingNumberValidation(v: string, n: nat)
    requires '-' !in v && IsNaN(v) && ParseFloat(v) == Finite(n as real)
    ensures ValidateInput(v) == if n == 0 then ZeroMessage else NotANumberMessage
  {
    assert v != "" by {
      assert ToNumber("") == Finite(0.0);
    }
  }

  /** Text with no leading number at all is not a number: "abc". */
  lemma LettersAreNotANumber()
    ensures ValidateInput("abc") == NotANumberMessage
  {
    var v := "abc";
    assert IsStopper(v[0]) && !IsWhitespace(v[0]) && '-' !in v;
    NoLeadingNumberValidation(v);
  }

  /** Text free of minus signs whose first character no number can start with gets the not-a-number message. */
  lemma NoLeadingNumberValidation(v: string)
    requires v != [] && IsStopper(v[0]) && !IsWhitespace(v[0]) && '-' !in v
    ensures ValidateInput(v) == NotANumberMessage
  {
    NoLeadingNumber(v);
    NotANumberValidation(v);
  }

  /** Text free of minus signs that `Number` reads as a positive number validates clean. */
  lemma PositiveNumberValidation(v: string, x: real)
    requires '-' !in v && ToNumber(v) == Finite(x) && x > 0.0
    ensures ValidateInput(v) == ""
  {
    ValidMeansBlankOrPositive(v);
  }

  /**
   * A head count with a fraction validates clean, since `Number` reads it, but
   * `parseInt` keeps only the whole part: "2.5" people split the bill in two.
   */
  lemma FractionalHeadCount(ds: string, fs: string)
    requires ds != [] && IsNumeral(ds, 10) && fs != [] && IsNumeral(fs, 10)
    requires Decimal(ds, fs) > 0.0
    ensures ValidateInput(ds + "." + fs) == ""
    ensures OrZero(ParseInt(ds + "." + fs)) == DigitsValue(ds, 10) as real
  {
    NoMinusInFraction(ds, fs);
    FractionalHeadCountValid(ds, fs);
    FractionParseInt(ds, fs);
  }

  lemma FractionalHeadCountValid(ds: string, fs: string)
    requires ds != [] && IsNumeral(ds, 10) && fs != [] && IsNumeral(fs, 10)
    requires Decimal(ds, fs) > 0.0 && '-' !in ds + "." + fs
    ensures ValidateInput(ds + "." + fs) == ""
  {
    var v := ds + "." + fs;
    assert ToNumber(v) == Finite(Decimal(ds, fs)) by {
      FractionScan(ds, fs);
    }
    PositiveNumberValidation(v, Decimal(ds, fs));
  }

  lemma NoMinusInFraction(ds: string, fs: string)
    requires IsNumeral(ds, 10) && IsNumeral(fs, 10)
    ensures '-' !in ds + "." + fs
  {
    assert ds + "." + fs == ds + ("." + fs);
    assert '-' !in "." + fs by {
      NoMinusInNumeral(fs, []);
      assert fs + [] == fs;
      assert "." + fs == ['.'] + fs;
    }
    NoMinusInNumeral(ds, "." + fs);
  }

  /**
   * A head count strictly between zero and one, such as "0.5", passes
   * validation yet reads as zero people: the amounts stay at zero and no field
   * shows why.
   */
  lemma HeadCountBelowOneBlocksSilently(f: Form, ds: string, fs: string)
    requires Consistent(f)
    requires ds != [] && IsNumeral(ds, 10) && DigitsValue(ds, 10) == 0
    requires fs != [] && IsNumeral(fs, 10) && DigitsValue(fs, 10) > 0
    requires f.people == ds + "." + fs
    ensures f.errors.people == "" && Derived(f) == NoAmounts
  {
    assert Decimal(ds, fs) > 0.0;
    FractionalHeadCount(ds, fs);
  }
}

/**
 * The tip-calculator form controller (the `Card` component): per-field input
 * validation, the derived per-person amounts, and the form state that the three
 * event handlers change. The pure parts are functions over a `Form` value; the
 * component's state cells are the fields of the class `CardState`, whose
 * handlers are specified by those functions.
 */
module Card {
  import opened Wrappers
  import opened JsNumber

  const NegativeMessage := "Can't be a negative number"
  const ZeroMessage := "Can't be zero"
  const NotANumberMessage := "Must be a valid number"

  /** The preset tip percentages, in the order the buttons are shown. */
  const TipOptions: seq<int> := [5, 10, 15, 25, 50]

  /**
   * `validateInput`: the message shown under a field, the empty string when the
   * text is acceptable. The rules are tried in order and the first match wins:
   * empty text, any minus sign, a leading number that is zero, text that is not
   * a number as a whole. The field's name plays no part.
   */
  function ValidateInput(value: string): string
  {
    if value == "" then ""
    else if '-' in value then NegativeMessage
    else if ParseFloat(value) == Finite(0.0) then ZeroMessage
    else if IsNaN(value) then NotANumberMessage
    else ""
  }

  /**
   * The rule order, stated per message: a minus sign anywhere decides alone
   * (so "-0", "-abc" and "1e-3" are negative); a zero leading number is
   * reported before the text is checked for being a number as a whole; the
   * not-a-number message needs both earlier rules to have passed.
   */
  lemma ValidationRules(value: string)
    ensures ValidateInput(value) == NegativeMessage <==> '-' in value
    ensures ValidateInput(value) == ZeroMessage <==> '-' !in value && ParseFloat(value) == Finite(0.0)
    ensures ValidateInput(value) == NotANumberMessage <==>
      '-' !in value && ParseFloat(value) != Finite(0.0) && IsNaN(value)
  {
  }

  /**
   * What an accepted field holds: text that is empty or all white space, or,
   * free of minus signs, a whole numeric literal denoting a positive number.
   */
  lemma ValidMeansBlankOrPositive(value: string)
    ensures ValidateInput(value) == "" <==>
      IsBlank(value) || ('-' !in value && ToNumber(value).Finite? && ToNumber(value).value > 0.0)
  {
    if IsBlank(value) {
      BlankValidates(value);
    } else {
      NonBlankValidation(value);
    }
  }

  lemma BlankValidates(value: string)
    requires IsBlank(value)
    ensures ValidateInput(value) == ""
  {
    if value != "" {
      forall i | 0 <= i < |value|
        ensures value[i] != '-'
      {
        assert IsWhitespace(value[i]);
      }
    }
  }

  lemma NonBlankValidation(value: string)
    requires !IsBlank(value)
    ensures ValidateInput(value) == "" <==>
      '-' !in value && ToNumber(value).Finite? && ToNumber(value).value > 0.0
  {
    assert value != "";
    if '-' !in value && ToNumber(value).Finite? {
      ParseFloatAgreesWithNumber(value);
    }
  }

  datatype Field = Bill | People | CustomTip

  /** The error map: one message slot per validated field. */
  datatype Errors = Errors(bill: string, people: string, customTip: string)
  {
    function Get(field: Field): string
    {
      match field
      case Bill => bill
      case People => people
      case CustomTip => customTip
    }

    /** `{ ...errors, [field]: message }` */
    function Set(field: Field, message: string): (e: Errors)
      ensures e.Get(field) == message
      ensures forall other :: other != field ==> e.Get(other) == Get(other)
    {
      match field
      case Bill => this.(bill := message)
      case People => this.(people := message)
      case CustomTip => this.(customTip := message)
    }

    /** Some message is non-empty, so truthy in JavaScript. */
    predicate Any()
    {
      bill != "" || people != "" || customTip != ""
    }
  }

  datatype Amounts = Amounts(tipAmount: real, totalPerPerson: real)

  const NoAmounts := Amounts(0.0, 0.0)

  /** The guard in front of the calculation: any error, or a bill or a head count that is not positive. */
  predicate Blocked(billValue: real, peopleCount: real, errors: Errors)
  {
    errors.Any() || billValue <= 0.0 || peopleCount <= 0.0
  }

  /**
   * The body of the memoised calculation: zero behind the guard, otherwise the
   * tip and the bill plus tip, each split evenly among the people.
   */
  function Compute(billValue: real, peopleCount: real, tipPercentage: real, errors: Errors): (r: Amounts)
    ensures Blocked(billValue, peopleCount, errors) ==> r == NoAmounts
    ensures !Blocked(billValue, peopleCount, errors) ==>
      && r.tipAmount * peopleCount == billValue * tipPercentage / 100.0
      && r.totalPerPerson * peopleCount == billValue + billValue * tipPercentage / 100.0
      && r.totalPerPerson == billValue / peopleCount + r.tipAmount
    ensures !Blocked(billValue, peopleCount, errors) && tipPercentage >= 0.0 ==>
      r.tipAmount >= 0.0 && r.totalPerPerson > 0.0
  {
    if Blocked(billValue, peopleCount, errors) then NoAmounts
    else
      var tipValue := billValue * tipPercentage / 100.0;
      var total := billValue + tipValue;
      Amounts(tipValue / peopleCount, total / peopleCount)
  }

  /** The five state cells of the component. */
  datatype Form = Form(bill: string, people: string, customTip: string, selectedTip: Option<int>, errors: Errors)
  {
    /** The raw text of a field. */
    function Raw(field: Field): string
    {
      match field
      case Bill => bill
      case People => people
      case CustomTip => customTip
    }
  }

  /** The state the component starts in and that reset restores. */
  function Initial(): Form
  {
    Form("", "", "", None, Errors("", "", ""))
  }

  /**
   * What every reachable state satisfies: each error message is the validation
   * of its field's current text, and a selected preset is one of the options and
   * leaves the custom tip empty.
   */
  predicate Consistent(f: Form)
  {
    && f.errors == Errors(ValidateInput(f.bill), ValidateInput(f.people), ValidateInput(f.customTip))
    && (f.selectedTip.Some? ==> f.selectedTip.value in TipOptions && f.customTip == "")
  }

  /** `billValue`: `parseFloat(bill) || 0`. */
  function BillValue(f: Form): (r: real)
    ensures IsBlank(f.bill) ==> r == 0.0
    ensures '-' !in f.bill ==> r >= 0.0
  {
    OrZero(ParseFloat(f.bill))
  }

  /** `peopleCount`: `parseInt(people) || 0`. */
  function PeopleCount(f: Form): (r: real)
    ensures IsBlank(f.people) ==> r == 0.0
    ensures '-' !in f.people ==> r >= 0.0
    ensures r == r.Floor as real
  {
    OrZero(ParseInt(f.people))
  }

  /** `tipPercentage`: `selectedTip ?? (parseFloat(customTip) || 0)`. */
  function TipPercentage(f: Form): (r: real)
    ensures f.selectedTip.Some? ==> r == f.selectedTip.value as real
    ensures f.selectedTip.None? && '-' !in f.customTip ==> r >= 0.0
  {
    match f.selectedTip
    case Some(tip) => tip as real
    case None => OrZero(ParseFloat(f.customTip))
  }

  /** The derived `{tipAmount, totalPerPerson}` of a state. */
  function Derived(f: Form): (r: Amounts)
    ensures r == NoAmounts || (!f.errors.Any() && BillValue(f) > 0.0 && PeopleCount(f) > 0.0)
  {
    Compute(BillValue(f), PeopleCount(f), TipPercentage(f), f.errors)
  }

  /** `isResetDisabled`. */
  predicate ResetDisabled(f: Form)
  {
    && f.bill == "" && f.people == "" && f.selectedTip == None && f.customTip == ""
    && Derived(f).tipAmount == 0.0 && Derived(f).totalPerPerson == 0.0
  }

  /** `handleInputChange(e, field)` with `e.target.value == value`. */
  function InputChanged(f: Form, field: Field, value: string): (g: Form)
    ensures g.Raw(field) == value
    ensures forall other :: other != field ==> g.Raw(other) == f.Raw(other)
    ensures g.errors.Get(field) == ValidateInput(value)
    ensures forall other :: other != field ==> g.errors.Get(other) == f.errors.Get(other)
    ensures g.selectedTip == if field == CustomTip then None else f.selectedTip
  {
    WithInput(f, field, value, ValidateInput(value))
  }

  /** The form with `value` stored in `field` and `message` as that field's error. */
  function WithInput(f: Form, field: Field, value: string, message: string): (g: Form)
    ensures g.Raw(field) == value
    ensures forall other :: other != field ==> g.Raw(other) == f.Raw(other)
    ensures g.errors.Get(field) == message
    ensures forall other :: other != field ==> g.errors.Get(other) == f.errors.Get(other)
    ensures g.selectedTip == if field == CustomTip then None else f.selectedTip
  {
    var raw := match field
      case Bill => f.(bill := value)
      case People => f.(people := value)
      case CustomTip => f.(customTip := value, selectedTip := None);
    raw.(errors := f.errors.Set(field, message))
  }

  /** Typing in a field keeps every reachable state reachable. */
  lemma InputChangedConsistent(f: Form, field: Field, value: string)
    requires Consistent(f)
    ensures Consistent(InputChanged(f, field, value))
  {
    var g := InputChanged(f, field, value);
    match field
    case Bill =>
      assert g.errors == Errors(ValidateInput(value), f.errors.people, f.errors.customTip);
    case People =>
      assert g.errors == Errors(f.errors.bill, ValidateInput(value), f.errors.customTip);
    case CustomTip =>
      assert g.errors == Errors(f.errors.bill, f.errors.people, ValidateInput(value));
  }

  /** `handleTipSelect(tip)`. */
  function TipSelected(f: Form, tip: int): (g: Form)
    ensures g.selectedTip == Some(tip) && g.customTip == "" && g.errors.customTip == ""
    ensures g.bill == f.bill && g.people == f.people
    ensures g.errors.bill == f.errors.bill && g.errors.people == f.errors.people
    ensures Consistent(f) && tip in TipOptions ==> Consistent(g)
    ensures TipPercentage(g) == tip as real
  {
    f.(selectedTip := Some(tip), customTip := "", errors := f.errors.Set(CustomTip, ""))
  }

  /** The component's state cells, changed in place by its event handlers. */
  class CardState {
    var bill: string
    var people: string
    var customTip: string
    var selectedTip: Option<int>
    var errors: Errors

    /** The current values of the five cells. */
    function State(): Form
      reads this
    {
      Form(bill, people, customTip, selectedTip, errors)
    }

    ghost predicate Valid()
      reads this
    {
      Consistent(State())
    }

    /** The `useState` initial values. */
    constructor ()
      ensures State() == Initial() && Valid()
    {
      bill, people, customTip := "", "", "";
      selectedTip := None;
      errors := Errors("", "", "");
    }

    /** The amounts on display. */
    function Displayed(): (r: Amounts)
      reads this
      ensures Blocked(BillValue(State()), PeopleCount(State()), errors) ==> r == NoAmounts
    {
      Derived(State())
    }

    /** `isResetDisabled`: whether the reset button is disabled. */
    predicate IsResetDisabled()
      reads this
      ensures Valid() ==> (IsResetDisabled() <==> State() == Initial())
    {
      ResetDisabledIffInitial(State());
      ResetDisabled(State())
    }

    /** `handleInputChange`: store the text in its field, clear the preset on a custom tip, revalidate that field. */
    method HandleInputChange(field: Field, value: string)
      requires Valid()
      modifies this
      ensures Valid()
      ensures State() == InputChanged(old(State()), field, value)
    {
      InputChangedConsistent(State(), field, value);
      Store(field, value, ValidateInput(value));
    }

    /** The three state setters of `handleInputChange`, with the field's new error message. */
    method Store(field: Field, value: string, message: string)
      modifies this
      ensures State() == WithInput(old(State()), field, value, message)
    {
      ghost var before := State();
      if field == Bill {
        bill := value;
      }
      if field == People {
        people := value;
      }
      if field == CustomTip {
        customTip := value;
        selectedTip := None;
      }
      errors := errors.Set(field, message);
      assert State() == WithInput(before, field, value, message);
    }

    /** `handleTipSelect`: invoked by a preset button with that button's percentage. */
    method HandleTipSelect(tip: int)
      requires Valid() && tip in TipOptions
      modifies this
      ensures Valid()
      ensures State() == TipSelected(old(State()), tip)
    {
      ghost var before := State();
      selectedTip := Some(tip);
      customTip := "";
      errors := errors.Set(CustomTip, "");
      assert State() == TipSelected(before, tip);
    }

    /** `handleReset`: every cell back to its initial value. */
    method HandleReset()
      modifies this
      ensures Valid()
      ensures State() == Initial()
    {
      bill := "";
      people := "";
      selectedTip := None;
      customTip := "";
      errors := Errors("", "", "");
    }
  }

  /**
   * Reset is disabled exactly in the initial state: once the four inputs are at
   * their defaults, the empty bill coerces to 0 and forces zero amounts, and the
   * error map can only be empty.
   */
  lemma ResetDisabledIffInitial(f: Form)
    ensures Consistent(f) ==> (ResetDisabled(f) <==> f == Initial())
  {
    if f.bill == "" {
      assert BillValue(f) == 0.0;
    }
  }
}

/** The state details form: per-field validation, the coercion applied when a
    field is edited, and the validation run on submit. */
module StateForm {
  import opened Common

  /** A form value: typed text, or a number already parsed. */
  datatype FieldValue = Text(s: string) | Number(n: JsNum)

  datatype StateDetails = StateDetails(
    stateName: string,
    stateNumber: string,
    vastClass: string,
    conditionLower: JsNum,
    conditionUpper: JsNum,
    eksConditionEstimate: JsNum,
    id: Option<string>)

  /** The values the form holds for a new state. */
  const BlankForm := StateDetails("", "", "", Finite(0.0), Finite(1.0), Finite(0.5), None)

  const NotANumber: string := "Must be a valid number"
  const OutsideUnit: string := "Must be between 0 and 1"
  const NameRequired: string := "State name is required"
  const LowerAboveUpper: string := "Lower bound must be less than or equal to upper bound"

  predicate IsConditionField(name: string)
  {
    name == "conditionLower" || name == "conditionUpper" || name == "eksConditionEstimate"
  }

  /** The number a value stands for; `parseFloat` reads text. */
  function NumberOf(v: FieldValue, parseFloat: string -> JsNum): JsNum
  {
    match v
    case Text(s) => parseFloat(s)
    case Number(n) => n
  }

  /** `!value`: empty text, zero and NaN are falsy. */
  predicate Falsy(v: FieldValue)
  {
    match v
    case Text(s) => s == ""
    case Number(n) => n == NaN || n == Finite(0.0)
  }

  predicate InUnit(n: JsNum)
  {
    n.Finite? && 0.0 <= n.r <= 1.0
  }

  /** `validateField`: the message for one field, empty when it is valid. */
  function ValidateField(name: string, value: FieldValue, parseFloat: string -> JsNum): (e: string)
    ensures IsConditionField(name) ==> (e == NotANumber <==> NumberOf(value, parseFloat) == NaN)
    ensures IsConditionField(name) ==> (e == "" <==> InUnit(NumberOf(value, parseFloat)))
    ensures IsConditionField(name) ==> e == "" || e == NotANumber || e == OutsideUnit
    ensures name == "stateName" ==> (e == NameRequired <==> Falsy(value) || (value.Text? && Blank(value.s)))
    ensures name == "stateName" ==> e == "" || e == NameRequired
    ensures !IsConditionField(name) && name != "stateName" ==> e == ""
  {
    if IsConditionField(name) then
      var numValue := NumberOf(value, parseFloat);
      if numValue == NaN then NotANumber
      else if numValue.r < 0.0 || numValue.r > 1.0 then OutsideUnit
      else ""
    else if name == "stateName" then
      if Falsy(value) || (value.Text? && |Trim(value.s)| == 0) then
        assert value.Text? && |Trim(value.s)| == 0 ==> Blank(value.s) by {
          if value.Text? { TrimEmptyIffBlank(value.s); }
        }
        NameRequired
      else
        assert value.Text? ==> !Blank(value.s) by {
          if value.Text? { TrimEmptyIffBlank(value.s); }
        }
        ""
    else ""
  }

  /** The keys of the details object, in order. */
  datatype Key = StateNameKey | StateNumberKey | VastClassKey | LowerKey | UpperKey | EstimateKey | IdKey

  const Keys: seq<Key> := [StateNameKey, StateNumberKey, VastClassKey, LowerKey, UpperKey, EstimateKey, IdKey]

  /** The field name of a key, as the form's inputs are named. */
  function Name(k: Key): string
  {
    match k
    case StateNameKey => "stateName"
    case StateNumberKey => "stateNumber"
    case VastClassKey => "vastClass"
    case LowerKey => "conditionLower"
    case UpperKey => "conditionUpper"
    case EstimateKey => "eksConditionEstimate"
    case IdKey => "id"
  }

  /** A string without two neighbouring characters equal to the first two of
      `sub` does not contain `sub`. */
  lemma {:induction false} NotContainsWithoutFirstPair(s: string, sub: string, a: char, b: char)
    requires |sub| >= 2 && sub[0] == a && sub[1] == b
    requires forall i | 0 <= i < |s| - 1 :: !(s[i] == a && s[i + 1] == b)
    ensures !Contains(s, sub)
  {
    if s != [] {
      if |sub| <= |s| {
        assert s[..|sub|][0] == s[0] && s[..|sub|][1] == s[1];
      }
      NotContainsWithoutFirstPair(s[1..], sub, a, b);
    }
  }

  /** Which validation rule and which coercion each key's name selects. */
  lemma NameFacts(k: Key)
    ensures IsConditionField(Name(k)) <==> k == LowerKey || k == UpperKey || k == EstimateKey
    ensures Name(k) == "stateName" <==> k == StateNameKey
    ensures Contains(Name(k), "condition") || Contains(Name(k), "eks") <==> IsConditionField(Name(k))
  {
    var n := Name(k);
    if k == LowerKey || k == UpperKey {
      assert n[..9] == "condition";
      assert StartsWith(n, "condition");
    } else if k == EstimateKey {
      assert n[..3] == "eks";
      assert StartsWith(n, "eks");
    } else {
      PlainName(k);
    }
  }

  /** The names of the text fields and of the id contain neither
      "condition" nor "eks". */
  lemma PlainName(k: Key)
    requires k == StateNameKey || k == StateNumberKey || k == VastClassKey || k == IdKey
    ensures !Contains(Name(k), "condition") && !Contains(Name(k), "eks") && !IsConditionField(Name(k))
  {
    PlainText(Name(k));
  }

  lemma PlainText(n: string)
    requires forall i | 0 <= i < |n| - 1 :: !(n[i] == 'c' && n[i + 1] == 'o') && !(n[i] == 'e' && n[i + 1] == 'k')
    ensures !Contains(n, "condition") && !Contains(n, "eks")
  {
    var condition, eks := "condition", "eks";
    assert |condition| >= 2 && condition[0] == 'c' && condition[1] == 'o';
    assert |eks| >= 2 && eks[0] == 'e' && eks[1] == 'k';
    NotContainsWithoutFirstPair(n, condition, 'c', 'o');
    NotContainsWithoutFirstPair(n, eks, 'e', 'k');
  }

  /** `parseFloat(value) || 0`: NaN and zero both read as 0. */
  function Coerced(value: string, parseFloat: string -> JsNum): (n: JsNum)
    ensures n.Finite? && n.r == (if parseFloat(value).Finite? then parseFloat(value).r else 0.0)
  {
    Finite(OrDefault(parseFloat(value), 0.0))
  }

  /** Stores a value under a key; a number cannot go into a text field or
      text into a number field, which the input names rule out. */
  function SetField(d: StateDetails, k: Key, v: FieldValue): StateDetails
  {
    match (k, v)
    case (StateNameKey, Text(s)) => d.(stateName := s)
    case (StateNumberKey, Text(s)) => d.(stateNumber := s)
    case (VastClassKey, Text(s)) => d.(vastClass := s)
    case (LowerKey, Number(n)) => d.(conditionLower := n)
    case (UpperKey, Number(n)) => d.(conditionUpper := n)
    case (EstimateKey, Number(n)) => d.(eksConditionEstimate := n)
    case (IdKey, Text(s)) => d.(id := Some(s))
    case _ => d
  }

  /** `handleChange`: a field whose name mentions "condition" or "eks" is
      stored as a number, the others as typed; the field's message is
      recomputed from the stored value. */
  function HandleChange(d: StateDetails, errors: map<Key, string>, k: Key, value: string,
                        parseFloat: string -> JsNum): (r: (StateDetails, map<Key, string>))
    ensures k in r.1 && r.1 == errors[k := r.1[k]]
    ensures k == StateNameKey ==> r.0 == d.(stateName := value) && (r.1[k] == NameRequired <==> Blank(value))
    ensures k == StateNumberKey ==> r.0 == d.(stateNumber := value) && r.1[k] == ""
    ensures k == VastClassKey ==> r.0 == d.(vastClass := value) && r.1[k] == ""
    ensures k == IdKey ==> r.0 == d.(id := Some(value)) && r.1[k] == ""
    ensures k == LowerKey ==> r.0 == d.(conditionLower := Coerced(value, parseFloat))
    ensures k == UpperKey ==> r.0 == d.(conditionUpper := Coerced(value, parseFloat))
    ensures k == EstimateKey ==> r.0 == d.(eksConditionEstimate := Coerced(value, parseFloat))
    ensures IsConditionField(Name(k)) ==>
      r.1[k] != NotANumber && (r.1[k] == "" <==> InUnit(Coerced(value, parseFloat)))
  {
    var name := Name(k);
    var newValue := if Contains(name, "condition") || Contains(name, "eks")
      then Number(Coerced(value, parseFloat)) else Text(value);
    NameFacts(k);
    (SetField(d, k, newValue), errors[k := ValidateField(name, newValue, parseFloat)])
  }

  /** The value under a key; None for an absent id. */
  function FieldOf(d: StateDetails, k: Key): Option<FieldValue>
  {
    match k
    case StateNameKey => Some(Text(d.stateName))
    case StateNumberKey => Some(Text(d.stateNumber))
    case VastClassKey => Some(Text(d.vastClass))
    case LowerKey => Some(Number(d.conditionLower))
    case UpperKey => Some(Number(d.conditionUpper))
    case EstimateKey => Some(Number(d.eksConditionEstimate))
    case IdKey => if d.id.Some? then Some(Text(d.id.value)) else None
  }

  /** The message for a key of the details, empty when it is absent or valid. */
  function KeyMessage(d: StateDetails, k: Key, parseFloat: string -> JsNum): (e: string)
    ensures k == StateNameKey ==> (e != "" <==> Blank(d.stateName)) && (e != "" ==> e == NameRequired)
    ensures k == LowerKey ==> (e == "" <==> InUnit(d.conditionLower))
    ensures k == UpperKey ==> (e == "" <==> InUnit(d.conditionUpper))
    ensures k == EstimateKey ==> (e == "" <==> InUnit(d.eksConditionEstimate))
    ensures k == StateNumberKey || k == VastClassKey || k == IdKey ==> e == ""
  {
    NameFacts(k);
    assert d.stateName == "" ==> Blank(d.stateName);
    match FieldOf(d, k)
    case None => ""
    case Some(v) => ValidateField(Name(k), v, parseFloat)
  }

  /** The record built by the loop over the keys: a key is present exactly
      when its message is not empty, and holds that message. */
  function FieldErrors(d: StateDetails, keys: seq<Key>, parseFloat: string -> JsNum): (m: map<Key, string>)
    ensures forall k :: k in m <==> k in keys && KeyMessage(d, k, parseFloat) != ""
    ensures forall k | k in m :: m[k] == KeyMessage(d, k, parseFloat)
  {
    if keys == [] then map[]
    else
      var key := keys[|keys| - 1];
      var m := FieldErrors(d, keys[..|keys| - 1], parseFloat);
      assert forall k | k in keys :: k == key || k in keys[..|keys| - 1];
      var e := KeyMessage(d, key, parseFloat);
      if e != "" then m[key := e] else m
  }

  /** `a > b` on numbers: false when either is NaN. */
  predicate Greater(a: JsNum, b: JsNum)
  {
    a.Finite? && b.Finite? && a.r > b.r
  }

  /** The messages `handleSubmit` records, the ordering check overwriting the
      lower bound's. */
  function SubmitErrors(d: StateDetails, parseFloat: string -> JsNum): map<Key, string>
  {
    var m := FieldErrors(d, Keys, parseFloat);
    if Greater(d.conditionLower, d.conditionUpper) then m[LowerKey := LowerAboveUpper] else m
  }

  /** The `forEach` over the keys of `handleSubmit`. */
  method ValidateKeys(d: StateDetails, keys: seq<Key>, parseFloat: string -> JsNum) returns (newErrors: map<Key, string>)
    ensures newErrors == FieldErrors(d, keys, parseFloat)
  {
    newErrors := map[];
    var i := 0;
    while i < |keys|
      invariant 0 <= i <= |keys|
      invariant newErrors == FieldErrors(d, keys[..i], parseFloat)
    {
      var key := keys[i];
      var value := FieldOf(d, key);
      if value.Some? {
        var error := ValidateField(Name(key), value.value, parseFloat);
        if error != "" {
          newErrors := newErrors[key := error];
        }
      }
      assert keys[..i + 1][..i] == keys[..i];
      i := i + 1;
    }
    assert keys[..i] == keys;
  }

  /** `handleSubmit`: validates every key, then the bounds' order; the form is
      saved exactly when no message was recorded. */
  method HandleSubmit(d: StateDetails, parseFloat: string -> JsNum) returns (newErrors: map<Key, string>, saved: bool)
    ensures newErrors == SubmitErrors(d, parseFloat)
    ensures saved <==> newErrors == map[]
  {
    newErrors := ValidateKeys(d, Keys, parseFloat);
    if Greater(d.conditionLower, d.conditionUpper) {
      newErrors := newErrors[LowerKey := LowerAboveUpper];
    }
    saved := |newErrors| == 0;
  }

  // ---------------------------------------------------------------------------
  // Properties

  /** The form is saved exactly when the name is not blank, the three
      condition values lie in [0, 1] and the lower bound does not exceed the
      upper one. */
  lemma SubmitSavesIff(d: StateDetails, parseFloat: string -> JsNum)
    ensures SubmitErrors(d, parseFloat) == map[] <==>
      !Blank(d.stateName) && InUnit(d.conditionLower) && InUnit(d.conditionUpper) &&
      InUnit(d.eksConditionEstimate) && d.conditionLower.r <= d.conditionUpper.r
  {
    var m := SubmitErrors(d, parseFloat);
    if !Blank(d.stateName) && InUnit(d.conditionLower) && InUnit(d.conditionUpper) &&
       InUnit(d.eksConditionEstimate) && d.conditionLower.r <= d.conditionUpper.r {
      forall k ensures KeyMessage(d, k, parseFloat) == "" {
      }
      assert m == map[];
    } else if Blank(d.stateName) {
      assert StateNameKey in Keys;
      assert StateNameKey in m;
    } else if !InUnit(d.conditionLower) {
      assert LowerKey in Keys;
      assert LowerKey in m;
    } else if !InUnit(d.conditionUpper) {
      assert UpperKey in Keys;
      assert UpperKey in m;
    } else if !InUnit(d.eksConditionEstimate) {
      assert EstimateKey in Keys;
      assert EstimateKey in m;
    } else {
      assert LowerKey in m;
    }
  }

  /** Every recorded message is non-empty; a lower bound above the upper one
      is reported under the lower bound whatever its own message was. */
  lemma SubmitErrorsMessages(d: StateDetails, parseFloat: string -> JsNum)
    ensures forall k | k in SubmitErrors(d, parseFloat) :: SubmitErrors(d, parseFloat)[k] != ""
    ensures Greater(d.conditionLower, d.conditionUpper) <==>
      LowerKey in SubmitErrors(d, parseFloat) && SubmitErrors(d, parseFloat)[LowerKey] == LowerAboveUpper
  {
  }

  /** The blank form for a new state is refused only for its missing name. */
  lemma BlankFormNeedsName(parseFloat: string -> JsNum)
    ensures SubmitErrors(BlankForm, parseFloat) == map[StateNameKey := NameRequired]
  {
    assert Blank(BlankForm.stateName);
    OnlyNameMissing(BlankForm, parseFloat);
  }

  /** Details whose only fault is a blank name get the name message alone. */
  lemma OnlyNameMissing(d: StateDetails, parseFloat: string -> JsNum)
    requires Blank(d.stateName) && InUnit(d.conditionLower) && InUnit(d.conditionUpper)
    requires InUnit(d.eksConditionEstimate) && d.conditionLower.r <= d.conditionUpper.r
    ensures SubmitErrors(d, parseFloat) == map[StateNameKey := NameRequired]
  {
    var m := FieldErrors(d, Keys, parseFloat);
    assert StateNameKey in Keys;
    assert StateNameKey in m && m[StateNameKey] == NameRequired;
    forall k | k in m ensures k == StateNameKey {
      assert KeyMessage(d, k, parseFloat) != "";
    }
    assert m.Keys == {StateNameKey};
  }

  /** A condition value that does not parse is stored as 0, which is valid. */
  lemma ChangeStoresZero(d: StateDetails, errors: map<Key, string>, k: Key, value: string, parseFloat: string -> JsNum)
    requires k == LowerKey || k == UpperKey || k == EstimateKey
    requires parseFloat(value) == NaN
    ensures var (next, errs) := HandleChange(d, errors, k, value, parseFloat);
      FieldOf(next, k) == Some(Number(Finite(0.0))) && errs[k] == ""
  {
    NameFacts(k);
  }
}

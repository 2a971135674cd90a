/** `encode_input` of the Streamlit front end: a form of widget values
    becomes the integer-coded record that the prediction and feedback
    endpoints receive. Choice fields go through literal, case-sensitive
    tables; a value outside a table is a KeyError. */
module Encoder {
  import opened Wrappers
  import opened PyValues
  import opened Schema

  /** The form fields, in the order of the dictionary literal, and the
      optional manual `prediction` of the feedback page. */
  datatype Field =
    | Age | Sex | Cp | Trestbps | Chol | Fbs | Restecg
    | Thalch | Exang | Oldpeak | Slope | Ca | Thal | Prediction

  /** The dictionary key of a field. */
  function Name(f: Field): (n: string)
    ensures f != Prediction ==> n in Features
    ensures f == Prediction ==> n == "prediction"
  {
    match f
    case Age => "age" case Sex => "sex" case Cp => "cp" case Trestbps => "trestbps"
    case Chol => "chol" case Fbs => "fbs" case Restecg => "restecg" case Thalch => "thalch"
    case Exang => "exang" case Oldpeak => "oldpeak" case Slope => "slope" case Ca => "ca"
    case Thal => "thal" case Prediction => "prediction"
  }

  /** A form or an encoded record: field to value. */
  type Form = map<Field, Value>

  datatype EncodeError =
    | MissingField(field: Field)   // `form[name]` on an absent key: KeyError
    | UnknownChoice(field: Field)  // the value is not a key of the field's table: KeyError
    | NotAnInt(field: Field)       // `int(v)` on a value it does not convert

  const CpCodes: map<string, int> :=
    map["typical angina" := 0, "atypical angina" := 1, "non-anginal pain" := 2, "asymptomatic" := 3]
  const RestecgCodes: map<string, int> :=
    map["normal" := 0, "ST-T wave abnormality" := 1, "left ventricular hypertrophy" := 2]
  const SlopeCodes: map<string, int> :=
    map["upsloping" := 0, "flat" := 1, "downsloping" := 2]
  const ThalCodes: map<string, int> :=
    map["normal" := 1, "fixed defect" := 2, "reversible defect" := 3]

  /** The thirteen features: every field but the prediction. */
  predicate IsFeature(k: Field)
  {
    !k.Prediction?
  }

  /** The select boxes read through a table. */
  predicate IsChoice(k: Field)
  {
    k.Cp? || k.Restecg? || k.Slope? || k.Thal?
  }

  /** The checkboxes read through `int`. */
  predicate IsFlag(k: Field)
  {
    k.Fbs? || k.Exang?
  }

  /** The fields copied through unchanged: the numbers and the prediction. */
  predicate IsCopied(k: Field)
  {
    !k.Sex? && !IsChoice(k) && !IsFlag(k)
  }

  /** The table of a choice field. */
  function ChoiceTable(k: Field): map<string, int>
    requires IsChoice(k)
  {
    match k
    case Cp => CpCodes
    case Restecg => RestecgCodes
    case Slope => SlopeCodes
    case Thal => ThalCodes
  }

  /** Python's `int(v)` for the values a form can hold: a bool is 0 or 1, an
      int itself, a float truncated toward zero. Strings and None are not
      converted. */
  function ToInt(v: Value): (r: Option<int>)
    ensures v.Flag? ==> r == Some(if v.b then 1 else 0)
    ensures v.Int? ==> r == Some(v.i)
    ensures v.Decimal? && v.tenths >= 0 ==> r.Some? && 0 <= r.value && 10 * r.value <= v.tenths < 10 * r.value + 10
    ensures v.Decimal? && v.tenths < 0 ==> r.Some? && r.value <= 0 && 10 * r.value - 10 < v.tenths <= 10 * r.value
    ensures r.None? <==> v.Missing? || v.Text?
  {
    match v
    case Flag(b) => Some(if b then 1 else 0)
    case Int(i) => Some(i)
    case Decimal(t) => Some(if t >= 0 then t / 10 else -((-t) / 10))
    case _ => None
  }

  /** The order in which the dictionary literal reads the fields. */
  const Order: seq<Field> := [Age, Sex, Cp, Trestbps, Chol, Fbs, Restecg, Thalch, Exang, Oldpeak, Slope, Ca, Thal]

  /** Reading field `k` succeeds: `form[k]` exists, a choice is a key of its
      table and a flag converts with `int`. */
  predicate FieldOk(form: Form, k: Field)
  {
    && k in form
    && (IsChoice(k) ==> form[k].Text? && form[k].s in ChoiceTable(k))
    && (IsFlag(k) ==> ToInt(form[k]).Some?)
  }

  /** The exception reading field `k` raises when it fails. */
  function FieldError(form: Form, k: Field): EncodeError
  {
    if k !in form then MissingField(k) else if IsChoice(k) then UnknownChoice(k) else NotAnInt(k)
  }

  /** The error of the first field of `fs` that fails, if any. */
  function FirstFailure(form: Form, fs: seq<Field>): (r: Option<EncodeError>)
    ensures r.None? <==> forall i :: 0 <= i < |fs| ==> FieldOk(form, fs[i])
    ensures r.Some? ==> exists i ::
      (0 <= i < |fs| && !FieldOk(form, fs[i]) && r.value == FieldError(form, fs[i]) &&
       forall j :: 0 <= j < i ==> FieldOk(form, fs[j]))
  {
    if fs == [] then None
    else if !FieldOk(form, fs[0]) then Some(FieldError(form, fs[0]))
    else
      var r := FirstFailure(form, fs[1..]);
      assert forall i :: 1 <= i < |fs| ==> fs[1..][i - 1] == fs[i];
      r
  }

  /** A form the encoder accepts: every feature present, every choice a key
      of its table, both flags convertible by `int`. */
  predicate Encodable(form: Form)
  {
    && FieldOk(form, Age) && FieldOk(form, Sex) && FieldOk(form, Cp) && FieldOk(form, Trestbps)
    && FieldOk(form, Chol) && FieldOk(form, Fbs) && FieldOk(form, Restecg) && FieldOk(form, Thalch)
    && FieldOk(form, Exang) && FieldOk(form, Oldpeak) && FieldOk(form, Slope) && FieldOk(form, Ca)
    && FieldOk(form, Thal)
  }

  /** One field of the encoded record: `sex` compared with "Male", the
      choices looked up, the flags through `int`, the rest as given. */
  function EncodedCell(form: Form, k: Field): (c: Value)
    requires Encodable(form) && k in form
    ensures if IsCopied(k) then c == form[k] else c.Int?
    ensures k == Sex ==> (c == Int(1) <==> form[k] == Text("Male")) && (c == Int(0) || c == Int(1))
    ensures IsChoice(k) ==> c.i in ChoiceTable(k).Values
    ensures IsFlag(k) && form[k].Flag? ==> c == Int(0) || c == Int(1)
  {
    if k == Sex then Int(if form[k] == Text("Male") then 1 else 0)
    else if IsChoice(k) then Int(ChoiceTable(k)[form[k].s])
    else if IsFlag(k) then Int(ToInt(form[k]).value)
    else form[k]
  }

  /** Reading every field of the literal order means the form is encodable. */
  lemma OrderCovers(form: Form)
    requires forall i :: 0 <= i < |Order| ==> FieldOk(form, Order[i])
    ensures Encodable(form)
  {
    assert FieldOk(form, Order[0]) && FieldOk(form, Order[1]) && FieldOk(form, Order[2]);
    assert FieldOk(form, Order[3]) && FieldOk(form, Order[4]) && FieldOk(form, Order[5]);
    assert FieldOk(form, Order[6]) && FieldOk(form, Order[7]) && FieldOk(form, Order[8]);
    assert FieldOk(form, Order[9]) && FieldOk(form, Order[10]) && FieldOk(form, Order[11]);
    assert FieldOk(form, Order[12]);
  }

  /** The encoder: the fields are read in the order of the dictionary
      literal, the first failing one deciding the error; the record has the
      thirteen features and, when the form has one, its `prediction`. */
  function EncodeInput(form: Form): (r: Result<Form, EncodeError>)
    ensures r.Success? <==> Encodable(form)
    ensures r.Success? ==> r.value.Keys == form.Keys
    ensures r.Success? ==> forall k :: k in r.value ==> r.value[k] == EncodedCell(form, k)
    ensures r.Failure? ==> Some(r.error) == FirstFailure(form, Order)
  {
    if Encodable(form) then Success(map k | k in form :: EncodedCell(form, k))
    else
      FailureFound(form);
      Failure(FirstFailure(form, Order).value)
  }

  /** A form that is not encodable has a first failing field. */
  lemma FailureFound(form: Form)
    requires !Encodable(form)
    ensures FirstFailure(form, Order).Some?
  {
    if FirstFailure(form, Order).None? {
      OrderCovers(form);
    }
  }

  /** The first field in literal order that is missing or does not convert
      decides the error: with no `age` it is always `age`, and with every
      feature present an unknown `cp` wins over anything later. */
  lemma EncodeErrorOrder(form: Form)
    ensures Age !in form ==> EncodeInput(form) == Failure(MissingField(Age))
    ensures Age in form && Sex in form && Cp in form && !(form[Cp].Text? && form[Cp].s in CpCodes) ==>
      EncodeInput(form) == Failure(UnknownChoice(Cp))
  {
    var tail := Order[1..];
    assert Order[0] == Age && tail[0] == Sex && tail[1..][0] == Cp;
    if Age in form && Sex in form && Cp in form && !(form[Cp].Text? && form[Cp].s in CpCodes) {
      assert FirstFailure(form, tail[1..]) == Some(UnknownChoice(Cp));
      assert FirstFailure(form, tail) == Some(UnknownChoice(Cp));
    }
  }

  /** On success the record has the thirteen features, plus `prediction`
      exactly when the form has it, carried over unchanged. */
  lemma EncodeKeys(form: Form)
    requires EncodeInput(form).Success?
    ensures var r := EncodeInput(form).value;
      && (forall k :: IsFeature(k) ==> k in r)
      && (Prediction in r <==> Prediction in form)
      && (Prediction in form ==> r[Prediction] == form[Prediction])
  {
    forall k | IsFeature(k) ensures k in form {
      assert FieldOk(form, k) by {
        match k
        case Age => case Sex => case Cp => case Trestbps => case Chol => case Fbs => case Restecg =>
        case Thalch => case Exang => case Oldpeak => case Slope => case Ca => case Thal =>
      }
    }
    if Prediction in form {
      assert IsCopied(Prediction);
      assert EncodeInput(form).value[Prediction] == EncodedCell(form, Prediction);
    }
  }

  /** `sex` is 1 exactly for the string "Male"; every other value, "male"
      and "Female" included, is 0. */
  lemma EncodeSex(form: Form)
    requires EncodeInput(form).Success?
    ensures EncodeInput(form).value[Sex] == Int(if form[Sex] == Text("Male") then 1 else 0)
  {
  }

  /** The choice fields carry their table's code, and the flags the `int`
      of the form value. */
  lemma EncodeCodes(form: Form)
    requires EncodeInput(form).Success?
    ensures var r := EncodeInput(form).value;
      && (forall k :: IsChoice(k) ==> r[k] == Int(ChoiceTable(k)[form[k].s]))
      && r[Fbs] == Int(ToInt(form[Fbs]).value) && r[Exang] == Int(ToInt(form[Exang]).value)
  {
  }

  /** The numeric fields are passed through as given. */
  lemma EncodeCopies(form: Form)
    requires EncodeInput(form).Success?
    ensures forall c :: IsCopied(c) && c in form ==> EncodeInput(form).value[c] == form[c]
  {
  }

  /** A choice that is not a key of its table is an error, never a default
      code, whatever the other fields hold. */
  lemma UnknownChoiceFails(form: Form, k: Field)
    requires IsChoice(k) && k in form && !(form[k].Text? && form[k].s in ChoiceTable(k))
    ensures EncodeInput(form).Failure?
  {
  }

  /** The tables are literal: "ST-T wave abnormality" is 1, and thal
      "normal" is 1, not 0. */
  lemma EncodeChoiceExamples(form: Form)
    requires Encodable(form)
    ensures form[Restecg] == Text("ST-T wave abnormality") ==> EncodeInput(form).value[Restecg] == Int(1)
    ensures form[Thal] == Text("normal") ==> EncodeInput(form).value[Thal] == Int(1)
  {
  }

  /** The `sex` comparison is case-sensitive: "male" encodes as 0. */
  lemma EncodeSexCaseSensitive(form: Form)
    requires Encodable(form) && form[Sex] == Text("male")
    ensures EncodeInput(form).value[Sex] == Int(0)
  {
  }

  /** The choice lookups are case-sensitive: a lower-cased
      "st-t wave abnormality" is an error. */
  lemma EncodeChoiceCaseSensitive(form: Form)
    ensures EncodeInput(form[Restecg := Text("st-t wave abnormality")]).Failure?
  {
    assert "st-t wave abnormality" !in RestecgCodes;
    UnknownChoiceFails(form[Restecg := Text("st-t wave abnormality")], Restecg);
  }

  /** A form as the Streamlit widgets produce it: a sex choice, the four
      select boxes, two checkboxes. */
  predicate WidgetForm(form: Form): (b: bool)
    ensures b ==> Encodable(form)
  {
    && (forall k :: IsFeature(k) ==> k in form)
    && (form[Sex] == Text("Male") || form[Sex] == Text("Female"))
    && (forall k :: IsChoice(k) ==> form[k].Text? && form[k].s in ChoiceTable(k))
    && form[Fbs].Flag? && form[Exang].Flag?
  }

  function CpName(code: int): string
  {
    if code == 0 then "typical angina" else if code == 1 then "atypical angina"
    else if code == 2 then "non-anginal pain" else "asymptomatic"
  }

  function RestecgName(code: int): string
  {
    if code == 0 then "normal" else if code == 1 then "ST-T wave abnormality" else "left ventricular hypertrophy"
  }

  function SlopeName(code: int): string
  {
    if code == 0 then "upsloping" else if code == 1 then "flat" else "downsloping"
  }

  function ThalName(code: int): string
  {
    if code == 1 then "normal" else if code == 2 then "fixed defect" else "reversible defect"
  }

  /** Reads one widget value back from its encoded field. */
  function DecodeCell(k: Field, v: Value): Value
  {
    match k
    case Sex => Text(if v == Int(1) then "Male" else "Female")
    case Cp => if v.Int? then Text(CpName(v.i)) else v
    case Restecg => if v.Int? then Text(RestecgName(v.i)) else v
    case Slope => if v.Int? then Text(SlopeName(v.i)) else v
    case Thal => if v.Int? then Text(ThalName(v.i)) else v
    case Fbs => Flag(v == Int(1))
    case Exang => Flag(v == Int(1))
    case _ => v
  }

  /** Reads a widget form back from an encoded record. */
  function DecodeForm(r: Form): (form: Form)
    ensures form.Keys == r.Keys
    ensures forall k :: k in r ==> form[k] == DecodeCell(k, r[k])
  {
    map k | k in r :: DecodeCell(k, r[k])
  }

  /** Each name function inverts its table. */
  lemma CpNamesInvert(s: string)
    requires s in CpCodes
    ensures CpName(CpCodes[s]) == s
  {
    assert s == "typical angina" || s == "atypical angina" || s == "non-anginal pain" || s == "asymptomatic";
  }

  lemma RestecgNamesInvert(s: string)
    requires s in RestecgCodes
    ensures RestecgName(RestecgCodes[s]) == s
  {
    assert s == "normal" || s == "ST-T wave abnormality" || s == "left ventricular hypertrophy";
  }

  lemma SlopeNamesInvert(s: string)
    requires s in SlopeCodes
    ensures SlopeName(SlopeCodes[s]) == s
  {
    assert s == "upsloping" || s == "flat" || s == "downsloping";
  }

  lemma ThalNamesInvert(s: string)
    requires s in ThalCodes
    ensures ThalName(ThalCodes[s]) == s
  {
    assert s == "normal" || s == "fixed defect" || s == "reversible defect";
  }

  /** Each field of a widget form survives encoding and decoding. */
  lemma CellRoundTrip(form: Form, k: Field)
    requires WidgetForm(form) && Encodable(form) && k in form
    ensures DecodeCell(k, EncodedCell(form, k)) == form[k]
  {
    match k
    case Cp => CpNamesInvert(form[k].s);
    case Restecg => RestecgNamesInvert(form[k].s);
    case Slope => SlopeNamesInvert(form[k].s);
    case Thal => ThalNamesInvert(form[k].s);
    case _ =>
  }

  /** On widget forms the encoder loses nothing: decoding the record gives
      back the features and the prediction of the form. */
  lemma EncodeRoundTrip(form: Form)
    requires WidgetForm(form)
    ensures EncodeInput(form).Success?
    ensures var back := DecodeForm(EncodeInput(form).value);
      back == form
  {
    assert Encodable(form);
    var r := EncodeInput(form).value;
    forall k | k in form ensures DecodeForm(r)[k] == form[k] {
      CellRoundTrip(form, k);
    }
  }
}

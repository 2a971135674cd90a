/** How the prediction form's encoding relates to the codes the training
    pipeline assigns to the same answers, and what becomes of an encoded
    record once it is stored as feedback and read back for retraining. */
module Consistency {
  import opened Wrappers
  import opened PyValues
  import E = Encoder
  import N = Normaliser

  /** The training code table of each categorical form field. */
  function TrainingTable(k: E.Field): (t: N.CodeTable)
    requires k == E.Sex || E.IsChoice(k)
    ensures (E.Name(k), t) in N.CategoricalColumns
  {
    match k
    case Sex => N.SexCodes
    case Cp => N.CpCodes
    case Restecg => N.RestecgCodes
    case Slope => N.SlopeCodes
    case Thal => N.ThalCodes
  }

  /** Text with no surrounding whitespace keeps its characters through
      `strip()`, so only lower-casing changes its key. */
  lemma KeyOfTrimmed(s: string)
    requires s == [] || (!IsSpace(s[0]) && !IsSpace(s[|s| - 1]))
    ensures N.CanonicalKey(Text(s)) == Lower(s)
  {
    assert StripLeft(s) == s;
    assert StripRight(s) == s;
  }

  /** A form answer whose lower-cased form is a training key has that
      key's code. */
  lemma KeyIs(s: string, key: string, table: N.CodeTable)
    requires s == [] || (!IsSpace(s[0]) && !IsSpace(s[|s| - 1]))
    requires Lower(s) == key && key in table
    ensures N.Lookup(table, Text(s)) == Some(table[key])
  {
    KeyOfTrimmed(s);
  }

  /** Every `cp` answer of the form has the same code in training. */
  lemma CpAgrees(s: string)
    requires s in E.CpCodes
    ensures N.Lookup(N.CpCodes, Text(s)) == Some(E.CpCodes[s])
  {
    if s == "typical angina" {
      assert Lower("typical angina") == "typical angina";
      assert N.CpCodes["typical angina"] == 0 && E.CpCodes["typical angina"] == 0;
      KeyIs(s, "typical angina", N.CpCodes);
    } else if s == "atypical angina" {
      assert Lower("atypical angina") == "atypical angina";
      assert N.CpCodes["atypical angina"] == 1 && E.CpCodes["atypical angina"] == 1;
      KeyIs(s, "atypical angina", N.CpCodes);
    } else if s == "non-anginal pain" {
      assert Lower("non-anginal pain") == "non-anginal pain";
      assert N.CpCodes["non-anginal pain"] == 2 && E.CpCodes["non-anginal pain"] == 2;
      KeyIs(s, "non-anginal pain", N.CpCodes);
    } else {
      assert s == "asymptomatic";
      assert Lower("asymptomatic") == "asymptomatic";
      assert N.CpCodes["asymptomatic"] == 3 && E.CpCodes["asymptomatic"] == 3;
      KeyIs(s, "asymptomatic", N.CpCodes);
    }
  }

  /** Every `restecg` answer of the form has the same code in training, the
      training key being the lower-cased label. */
  lemma RestecgAgrees(s: string)
    requires s in E.RestecgCodes
    ensures N.Lookup(N.RestecgCodes, Text(s)) == Some(E.RestecgCodes[s])
  {
    if s == "normal" {
      assert E.RestecgCodes[s] == 0;
      NormalEcgAgrees();
    } else if s == "ST-T wave abnormality" {
      assert E.RestecgCodes[s] == 1;
      AbnormalityAgrees();
    } else {
      assert s == "left ventricular hypertrophy" && E.RestecgCodes[s] == 2;
      HypertrophyAgrees();
    }
  }

  lemma NormalEcgAgrees()
    ensures N.Lookup(N.RestecgCodes, Text("normal")) == Some(0)
  {
    assert Lower("normal") == "normal";
    assert N.RestecgCodes["normal"] == 0;
    KeyIs("normal", "normal", N.RestecgCodes);
  }

  lemma HypertrophyAgrees()
    ensures N.Lookup(N.RestecgCodes, Text("left ventricular hypertrophy")) == Some(2)
  {
    assert Lower("left ventricular hypertrophy") == "left ventricular hypertrophy";
    assert N.RestecgCodes["left ventricular hypertrophy"] == 2;
    KeyIs("left ventricular hypertrophy", "left ventricular hypertrophy", N.RestecgCodes);
  }

  /** The one label that differs from its training key, in case only. */
  lemma AbnormalityAgrees()
    ensures N.Lookup(N.RestecgCodes, Text("ST-T wave abnormality")) == Some(1)
  {
    assert Lower("ST-T wave abnormality") == "st-t wave abnormality";
    assert N.RestecgCodes["st-t wave abnormality"] == 1;
    KeyIs("ST-T wave abnormality", "st-t wave abnormality", N.RestecgCodes);
  }

  /** Every `slope` answer of the form has the same code in training. */
  lemma SlopeAgrees(s: string)
    requires s in E.SlopeCodes
    ensures N.Lookup(N.SlopeCodes, Text(s)) == Some(E.SlopeCodes[s])
  {
    if s == "upsloping" {
      assert Lower("upsloping") == "upsloping";
      assert N.SlopeCodes["upsloping"] == 0 && E.SlopeCodes["upsloping"] == 0;
      KeyIs(s, "upsloping", N.SlopeCodes);
    } else if s == "flat" {
      assert Lower("flat") == "flat";
      assert N.SlopeCodes["flat"] == 1 && E.SlopeCodes["flat"] == 1;
      KeyIs(s, "flat", N.SlopeCodes);
    } else {
      assert s == "downsloping";
      assert Lower("downsloping") == "downsloping";
      assert N.SlopeCodes["downsloping"] == 2 && E.SlopeCodes["downsloping"] == 2;
      KeyIs(s, "downsloping", N.SlopeCodes);
    }
  }

  /** Every `thal` answer is one higher on the form than in training. */
  lemma ThalShifted(s: string)
    requires s in E.ThalCodes
    ensures N.Lookup(N.ThalCodes, Text(s)) == Some(E.ThalCodes[s] - 1)
  {
    if s == "normal" {
      assert Lower("normal") == "normal";
      assert N.ThalCodes["normal"] == 0 && E.ThalCodes["normal"] == 1;
      KeyIs(s, "normal", N.ThalCodes);
    } else if s == "fixed defect" {
      assert Lower("fixed defect") == "fixed defect";
      assert N.ThalCodes["fixed defect"] == 1 && E.ThalCodes["fixed defect"] == 2;
      KeyIs(s, "fixed defect", N.ThalCodes);
    } else {
      assert s == "reversible defect";
      assert Lower("reversible defect") == "reversible defect";
      assert N.ThalCodes["reversible defect"] == 2 && E.ThalCodes["reversible defect"] == 3;
      KeyIs(s, "reversible defect", N.ThalCodes);
    }
  }

  /** The form codes "Male" as 1 and "Female" as 0; training codes them the
      other way round. */
  lemma SexFlipped(form: E.Form)
    requires E.Encodable(form)
    requires form[E.Sex] == Text("Male") || form[E.Sex] == Text("Female")
    ensures E.EncodeInput(form).value[E.Sex].Int?
    ensures N.Lookup(N.SexCodes, form[E.Sex]) == Some(1 - E.EncodeInput(form).value[E.Sex].i)
  {
    SexKeys();
  }

  /** Training codes "Male" as 0 and "Female" as 1. */
  lemma SexKeys()
    ensures N.Lookup(N.SexCodes, Text("Male")) == Some(0)
    ensures N.Lookup(N.SexCodes, Text("Female")) == Some(1)
  {
    MaleKey();
    FemaleKey();
  }

  lemma MaleKey()
    ensures N.Lookup(N.SexCodes, Text("Male")) == Some(0)
  {
    assert Lower("Male") == "male" && N.SexCodes["male"] == 0;
    KeyIs("Male", "male", N.SexCodes);
  }

  lemma FemaleKey()
    ensures N.Lookup(N.SexCodes, Text("Female")) == Some(1)
  {
    assert Lower("Female") == "female" && N.SexCodes["female"] == 1;
    KeyIs("Female", "female", N.SexCodes);
  }

  /** Stored as feedback, an encoded categorical cell is a number, which no
      training table maps: retraining fills it with the column's median. */
  lemma EncodedChoicesNeverMap(form: E.Form, k: E.Field)
    requires E.Encodable(form)
    requires k == E.Sex || E.IsChoice(k)
    ensures N.Lookup(TrainingTable(k), E.EncodeInput(form).value[k]).None?
  {
    assert E.FieldOk(form, k) by {
      assert k == E.Sex || k == E.Cp || k == E.Restecg || k == E.Slope || k == E.Thal;
    }
    var v := E.EncodeInput(form).value[k];
    assert v == E.EncodedCell(form, k);
    N.AllKeysStartWithLetter();
    assert (E.Name(k), TrainingTable(k)) in N.CategoricalColumns;
    N.NumberNeverMaps(TrainingTable(k), v);
  }

  /** Stored as feedback, the encoded `fbs` and `exang` are integers, which
      the flag harmonisation turns into 0 whatever the patient answered. */
  lemma EncodedFlagsLost(form: E.Form)
    requires E.Encodable(form)
    ensures N.FlagCode(E.EncodeInput(form).value[E.Fbs]) == 0
    ensures N.FlagCode(E.EncodeInput(form).value[E.Exang]) == 0
  {
    var r := E.EncodeInput(form).value;
    N.FlagOfNumberOrMissing(r[E.Fbs]);
    N.FlagOfNumberOrMissing(r[E.Exang]);
  }
}

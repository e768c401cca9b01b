/** The answer record of the application form and its error map. The record
    is keyed by field name because the validation rules look at the names
    themselves (a `declaration` prefix, a `rating` infix). */
module FormTypes {
  import opened JsText

  datatype Option<T> = None | Some(value: T)

  /** One answer as the browser holds it. */
  datatype Value = Str(s: string) | Num(n: int) | Bool(b: bool) | Null

  /** `FormData`: field name to answer. A name that is not a key reads as `undefined`. */
  type Record = map<string, Value>

  /** `FormErrors`: field name to message. */
  type Errors = map<string, string>

  /** `formData[field]`, with `None` standing for `undefined`. */
  function Get(r: Record, field: string): (v: Option<Value>)
    ensures v.Some? <==> field in r
    ensures v.Some? ==> v.value == r[field]
  {
    if field in r then Some(r[field]) else None
  }

  /** JavaScript truthiness of an answer (`undefined` is falsy). */
  predicate Truthy(v: Option<Value>) {
    match v
    case None => false
    case Some(Str(s)) => s != ""
    case Some(Num(n)) => n != 0
    case Some(Bool(b)) => b
    case Some(Null) => false
  }

  /** `String(v)`, the text a regular expression test sees. */
  function JsString(v: Value): string {
    match v
    case Str(s) => s
    case Num(n) => DecimalString(n)
    case Bool(b) => if b then "true" else "false"
    case Null => "null"
  }

  /** The declared types of the interface `FormData`. */
  datatype FieldType = TextField | NumberField | BooleanField

  /** Every field of `FormData` with its declared type, in declaration order. */
  const FormFields: seq<(string, FieldType)> := [
    ("fullName", TextField), ("email", TextField),
    ("role1_company", TextField), ("role1_title", TextField), ("role1_duration", TextField),
    ("role1_rating", NumberField), ("role1_supervisor", TextField), ("role1_scope", TextField),
    ("role2_company", TextField), ("role2_title", TextField), ("role2_duration", TextField),
    ("role2_scope", TextField), ("role2_rating", NumberField), ("role2_supervisor", TextField),
    ("role3_company", TextField), ("role3_title", TextField), ("role3_duration", TextField),
    ("role3_rating", NumberField), ("role3_supervisor", TextField), ("role3_scope", TextField),
    ("reference_check_consent", TextField), ("reference_check_explanation", TextField),
    ("ai_arch_rating", NumberField), ("ai_arch_recent_experience", TextField), ("ai_arch_models_frameworks", TextField),
    ("b2c_growth_rating", NumberField), ("b2c_growth_best_achievement", TextField), ("b2c_growth_largest_userbase", TextField),
    ("mobile_rating", NumberField), ("mobile_apps_launched", NumberField), ("mobile_downloads", TextField),
    ("privacy_rating", NumberField), ("privacy_challenge", TextField), ("privacy_compliance_experience", TextField),
    ("beta_product", TextField), ("beta_company", TextField), ("beta_participants", NumberField),
    ("beta_metrics", TextField), ("beta_pivot", TextField), ("beta_involvement", TextField),
    ("prioritization_privacy", NumberField), ("prioritization_ai", NumberField), ("prioritization_ux", NumberField),
    ("prioritization_growth", NumberField), ("prioritization_revenue", NumberField),
    ("prioritization_explanation", TextField),
    ("scenario_response", TextField),
    ("transformative_thinking", TextField), ("sovereignty_philosophy", TextField), ("competitive_differentiation", TextField),
    ("impact_plan_1", TextField), ("impact_plan_2", TextField), ("impact_plan_3", TextField),
    ("critical_q1", TextField), ("critical_q2", TextField), ("critical_q3", TextField),
    ("employment_status", TextField), ("notice_period", TextField),
    ("available_by_july15", BooleanField), ("contract_to_hire", BooleanField),
    ("comp_alignment", TextField), ("remote_work_excellence", TextField),
    ("unique_edge", TextField), ("evidence_link1", TextField), ("evidence_link2", TextField), ("evidence_link3", TextField),
    ("vendor_experience", TextField), ("vendor_metrics", TextField), ("vendor_escalation", TextField),
    ("declaration_accurate", BooleanField), ("declaration_excited", BooleanField),
    ("declaration_understands_excellence", BooleanField), ("declaration_accountable", BooleanField),
    ("digital_signature", TextField), ("submission_date", TextField),
    ("email_for_notification", TextField)
  ]

  predicate HasType(v: Value, t: FieldType) {
    match t
    case TextField => v.Str?
    case NumberField => v.Num?
    case BooleanField => v.Bool?
  }

  /** The field names of `FormData`. */
  function FieldNames(): set<string> {
    set i | 0 <= i < |FormFields| :: FormFields[i].0
  }

  /** The type `fields` declares for `name` (its last declaration), if any. */
  function TypeIn(fields: seq<(string, FieldType)>, name: string): Option<FieldType> {
    if fields == [] then None
    else if fields[|fields| - 1].0 == name then Some(fields[|fields| - 1].1)
    else TypeIn(fields[..|fields| - 1], name)
  }

  /** The declared type of a field of `FormData`. */
  function DeclaredType(name: string): Option<FieldType> {
    TypeIn(FormFields, name)
  }

  /** The record has exactly the fields of `FormData`, each of its declared type. */
  predicate ConformsToFormData(r: Record) {
    && r.Keys == FieldNames()
    && forall k | k in r :: DeclaredType(k).Some? && HasType(r[k], DeclaredType(k).value)
  }

  /** Every declared name has a declared type. */
  lemma {:induction false} TypeInFound(fields: seq<(string, FieldType)>, i: int)
    requires 0 <= i < |fields|
    ensures TypeIn(fields, fields[i].0).Some?
  {
    var n := |fields| - 1;
    if i < n && fields[n].0 != fields[i].0 {
      assert fields[i] == fields[..n][i];
      TypeInFound(fields[..n], i);
    }
  }
}

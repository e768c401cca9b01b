/** The section validation engine of the form hook: the table of required
    fields per section, the email shape rule, the rule that the five
    prioritization allocations sum to 100, the word-count ceilings, the error
    map a validation pass produces and how it is merged into the previous one. */
module FormValidation {
  import opened JsText
  import opened FormTypes

  /** The number of sections the form has. */
  const SectionCount: int := 9

  /** `REQUIRED_FIELDS`: entry `i` lists the fields section `i + 1` requires. */
  const RequiredTable: seq<seq<string>> := [
    ["fullName", "email", "role1_company", "role1_title", "role1_duration", "role1_rating", "role1_supervisor", "reference_check_consent"],
    ["ai_arch_rating", "ai_arch_recent_experience", "b2c_growth_rating", "mobile_rating", "privacy_rating"],
    ["beta_product", "beta_company", "beta_participants", "prioritization_privacy", "prioritization_ai",
     "prioritization_ux", "prioritization_growth", "prioritization_revenue", "scenario_response"],
    ["transformative_thinking", "sovereignty_philosophy", "competitive_differentiation"],
    ["impact_plan_1", "impact_plan_2", "impact_plan_3", "critical_q1", "critical_q2", "critical_q3"],
    ["employment_status", "notice_period", "comp_alignment", "remote_work_excellence"],
    ["unique_edge"],
    ["vendor_experience"],
    ["declaration_accurate", "declaration_excited", "declaration_understands_excellence", "declaration_accountable", "digital_signature"]
  ]

  /** `REQUIRED_FIELDS[sectionNumber] || []`: a section number outside the table requires nothing. */
  function RequiredFields(section: int): seq<string> {
    if 1 <= section <= |RequiredTable| then RequiredTable[section - 1] else []
  }

  const EmailKey := "email"
  const TotalKey := "prioritization_total"
  const RequiredMessage := "This field is required"
  const EmailMessage := "Please enter a valid email address"
  const TotalMessage := "Prioritization values must sum to exactly 100 points"

  /** The message of a word-count ceiling, `Must be ${limit} words or less`. */
  function LimitMessage(limit: nat): string {
    "Must be " + DecimalString(limit) + " words or less"
  }

  /** When a required field counts as unanswered: `''`, `null` or `undefined`;
      `false` in a field whose name starts with `declaration`; `0` in a field
      whose name contains `rating`. Every other value answers it. */
  predicate IsMissing(field: string, v: Option<Value>) {
    match v
    case None => true
    case Some(Str(s)) => s == ""
    case Some(Null) => true
    case Some(Bool(b)) => !b && StartsWith(field, "declaration")
    case Some(Num(n)) => n == 0 && Includes(field, "rating")
  }

  // ---------------------------------------------------------------------------
  // Email: /^[^\s@]+@[^\s@]+\.[^\s@]+$/

  predicate NoSpaceOrAt(s: string) {
    forall k | 0 <= k < |s| :: !IsSpace(s[k]) && s[k] != '@'
  }

  /** `email` is L "@" A "." B at positions `at` and `dot`, each of L, A, B
      non-empty and free of white space and '@' (A and B may hold dots). */
  predicate EmailSplit(email: string, at: int, dot: int)
    requires 0 < at < dot < |email| - 1
  {
    && at + 1 < dot
    && email[at] == '@' && email[dot] == '.'
    && NoSpaceOrAt(email[..at]) && NoSpaceOrAt(email[at + 1..dot]) && NoSpaceOrAt(email[dot + 1..])
  }

  /** `validateEmail`: the regular expression matches the whole text for some split. */
  predicate ValidateEmail(email: string) {
    exists at, dot | 0 < at < dot < |email| - 1 :: EmailSplit(email, at, dot)
  }

  /** The email rule fires: the record's `email` is truthy and `String(email)` does not match. */
  predicate EmailRejected(r: Record) {
    var v := Get(r, EmailKey);
    Truthy(v) && !ValidateEmail(JsString(v.value))
  }

  // ---------------------------------------------------------------------------
  // Prioritization: the five allocations must sum to exactly 100

  const AllocationFields: seq<string> :=
    ["prioritization_privacy", "prioritization_ai", "prioritization_ux", "prioritization_growth", "prioritization_revenue"]

  /** How an allocation enters the JavaScript sum: `null` as 0, a boolean as 0 or 1,
      a number as itself. A string turns the sum into text and `undefined` turns it
      into NaN; neither is the number 100, so those give `None`. */
  function NumericOperand(v: Option<Value>): Option<int> {
    match v
    case Some(Num(n)) => Some(n)
    case Some(Bool(b)) => Some(if b then 1 else 0)
    case Some(Null) => Some(0)
    case _ => None
  }

  /** The numeric value of the five-term sum, when it is a number at all. The
      additions run left to right on doubles, so each partial sum is rounded to
      the nearest double before the next operand is added. */
  function AllocationTotal(r: Record): Option<int> {
    var p := NumericOperand(Get(r, AllocationFields[0]));
    var a := NumericOperand(Get(r, AllocationFields[1]));
    var u := NumericOperand(Get(r, AllocationFields[2]));
    var g := NumericOperand(Get(r, AllocationFields[3]));
    var v := NumericOperand(Get(r, AllocationFields[4]));
    if p.Some? && a.Some? && u.Some? && g.Some? && v.Some? then
      Some(JsAdd(JsAdd(JsAdd(JsAdd(p.value, a.value), u.value), g.value), v.value))
    else
      None
  }

  /** `validatePrioritization`: the sum is the number 100. */
  predicate ValidatePrioritization(r: Record) {
    AllocationTotal(r) == Some(100)
  }

  // ---------------------------------------------------------------------------
  // Word-count ceilings

  /** `wordLimits`, in the order `wordLimits` lists them. */
  const WordLimits: seq<(string, nat)> := [
    ("role2_scope", 50), ("prioritization_explanation", 100), ("scenario_response", 150),
    ("sovereignty_philosophy", 100), ("competitive_differentiation", 100),
    ("remote_work_excellence", 75), ("unique_edge", 150)
  ]

  /** A non-empty text answer with more words than `limit`. */
  predicate OverLimit(v: Option<Value>, limit: nat) {
    match v
    case Some(Str(s)) => s != "" && WordCount(s) > limit
    case _ => false
  }

  predicate DistinctNames(limits: seq<(string, nat)>) {
    forall i, j | 0 <= i < j < |limits| :: limits[i].0 != limits[j].0
  }

  // ---------------------------------------------------------------------------
  // The error map of one pass

  /** The required-field errors for `fields`. */
  function RequiredErrors(fields: seq<string>, r: Record): Errors {
    if fields == [] then map[]
    else
      var f := fields[|fields| - 1];
      var earlier := RequiredErrors(fields[..|fields| - 1], r);
      if IsMissing(f, Get(r, f)) then earlier[f := RequiredMessage] else earlier
  }

  function EmailErrors(r: Record): Errors {
    if EmailRejected(r) then map[EmailKey := EmailMessage] else map[]
  }

  function TotalErrors(section: int, r: Record): Errors {
    if section == 3 && !ValidatePrioritization(r) then map[TotalKey := TotalMessage] else map[]
  }

  /** The word-limit errors for `limits`, a later entry overriding an earlier one. */
  function WordLimitErrors(limits: seq<(string, nat)>, r: Record): Errors {
    if limits == [] then map[]
    else
      var last := limits[|limits| - 1];
      var earlier := WordLimitErrors(limits[..|limits| - 1], r);
      if OverLimit(Get(r, last.0), last.1) then earlier[last.0 := LimitMessage(last.1)] else earlier
  }

  /** `newErrors` of one pass over `section`: required-field errors, then the
      email error, then the prioritization error, then the word-limit errors,
      each later write replacing an earlier one for the same key. */
  function NewErrors(section: int, r: Record): Errors {
    RequiredErrors(RequiredFields(section), r) + EmailErrors(r) + TotalErrors(section, r)
      + WordLimitErrors(WordLimits, r)
  }

  /** `validateSection` returns true: the pass produced no error entry. */
  predicate SectionPasses(section: int, r: Record) {
    NewErrors(section, r) == map[]
  }

  /** `validateAllSections` returns true: every section from 1 to 9 passes
      (as a quantifier: `AllSectionsPassIff`). */
  predicate AllSectionsPass(r: Record) {
    PassesBelow(r, SectionCount + 1)
  }

  /** `{ ...currentErrors, ...newErrors }` where `currentErrors` is `prior` without
      the keys the section requires. */
  function MergeErrors(prior: Errors, section: int, passErrors: Errors): Errors {
    (prior - FieldSet(RequiredFields(section))) + passErrors
  }

  function FieldSet(fields: seq<string>): set<string> {
    set f | f in fields
  }

  /** Every section from 1 to `n - 1` passes. */
  predicate PassesBelow(r: Record, n: int) {
    n <= 1 || (PassesBelow(r, n - 1) && SectionPasses(n - 1, r))
  }

  lemma {:induction false} PassesBelowAll(r: Record, n: int)
    ensures PassesBelow(r, n) <==> forall s | 1 <= s < n :: SectionPasses(s, r)
  {
    if n > 1 {
      PassesBelowStep(r, n - 1);
      PassesBelowAll(r, n - 1);
    }
  }

  lemma PassesBelowStep(r: Record, n: int)
    requires n >= 1
    ensures PassesBelow(r, n + 1) == (PassesBelow(r, n) && SectionPasses(n, r))
  {
  }

  /** The form is valid exactly when each of its nine sections passes on its own. */
  lemma AllSectionsPassIff(r: Record)
    ensures AllSectionsPass(r) <==> forall section | 1 <= section <= SectionCount :: SectionPasses(section, r)
  {
    PassesBelowAll(r, SectionCount + 1);
  }

  lemma MergeIs(prior: Errors, section: int, current: Errors, passErrors: Errors)
    requires current == prior - FieldSet(RequiredFields(section))
    ensures current + passErrors == MergeErrors(prior, section, passErrors)
  {
  }

  /** Merging into the empty map, as the hook's callbacks do once they have
      captured the initial `errors`, leaves exactly the pass's errors. */
  lemma MergeIntoEmpty(section: int, passErrors: Errors)
    ensures MergeErrors(map[], section, passErrors) == passErrors
  {
    var none: Errors := map[];
    assert none - FieldSet(RequiredFields(section)) == none;
  }

  lemma UpdateIsOverlay(m: Errors, k: string, v: string)
    ensures m[k := v] == m + map[k := v]
  {
  }

  lemma ClearStep(errors: Errors, fields: seq<string>, i: nat)
    requires i < |fields|
    ensures errors - FieldSet(fields[..i + 1]) == (errors - FieldSet(fields[..i])) - {fields[i]}
  {
    assert fields[..i + 1] == fields[..i] + [fields[i]];
    assert FieldSet(fields[..i + 1]) == FieldSet(fields[..i]) + {fields[i]};
  }

  lemma RequiredStep(fields: seq<string>, r: Record, i: nat)
    requires i < |fields|
    ensures RequiredErrors(fields[..i + 1], r) ==
      if IsMissing(fields[i], Get(r, fields[i])) then RequiredErrors(fields[..i], r)[fields[i] := RequiredMessage]
      else RequiredErrors(fields[..i], r)
  {
    assert fields[..i + 1] == fields[..i] + [fields[i]];
  }

  lemma WordLimitStep(base: Errors, limits: seq<(string, nat)>, r: Record, j: nat)
    requires j < |limits|
    ensures base + WordLimitErrors(limits[..j + 1], r) ==
      if OverLimit(Get(r, limits[j].0), limits[j].1) then (base + WordLimitErrors(limits[..j], r))[limits[j].0 := LimitMessage(limits[j].1)]
      else base + WordLimitErrors(limits[..j], r)
  {
    assert limits[..j + 1][..j] == limits[..j];
  }

  // ---------------------------------------------------------------------------
  // The hook's operations

  /** The first `forEach` of `validateSection`: `delete currentErrors[field]` for every required field. */
  method ClearErrors(errors: Errors, requiredFields: seq<string>) returns (currentErrors: Errors)
    ensures currentErrors == errors - FieldSet(requiredFields)
  {
    currentErrors := errors;
    var i := 0;
    while i < |requiredFields|
      invariant 0 <= i <= |requiredFields|
      invariant currentErrors == errors - FieldSet(requiredFields[..i])
    {
      ClearStep(errors, requiredFields, i);
      currentErrors := currentErrors - {requiredFields[i]};
      i := i + 1;
    }
    assert requiredFields[..i] == requiredFields;
  }

  /** The second `forEach` of `validateSection`: flag every required field that is unanswered. */
  method CheckRequired(requiredFields: seq<string>, formData: Record) returns (newErrors: Errors)
    ensures newErrors == RequiredErrors(requiredFields, formData)
  {
    newErrors := map[];
    var i := 0;
    while i < |requiredFields|
      invariant 0 <= i <= |requiredFields|
      invariant newErrors == RequiredErrors(requiredFields[..i], formData)
    {
      var field := requiredFields[i];
      var value := Get(formData, field);
      RequiredStep(requiredFields, formData, i);
      if || value == Some(Str("")) || value == Some(Null) || value == None
         || (value.Some? && value.value.Bool? && !value.value.b && StartsWith(field, "declaration"))
         || (value.Some? && value.value.Num? && value.value.n == 0 && Includes(field, "rating"))
      {
        newErrors := newErrors[field := RequiredMessage];
      }
      i := i + 1;
    }
    assert requiredFields[..i] == requiredFields;
  }

  /** The `Object.entries(wordLimits).forEach` of `validateSection`: flag every
      limited field whose answer has too many words, on top of `errorsSoFar`. */
  method CheckWordLimits(errorsSoFar: Errors, formData: Record) returns (newErrors: Errors)
    ensures newErrors == errorsSoFar + WordLimitErrors(WordLimits, formData)
  {
    newErrors := errorsSoFar;
    var j := 0;
    while j < |WordLimits|
      invariant 0 <= j <= |WordLimits|
      invariant newErrors == errorsSoFar + WordLimitErrors(WordLimits[..j], formData)
    {
      var (field, limit) := WordLimits[j];
      WordLimitStep(errorsSoFar, WordLimits, formData, j);
      if OverLimit(Get(formData, field), limit) {
        newErrors := newErrors[field := LimitMessage(limit)];
      }
      j := j + 1;
    }
    assert WordLimits[..j] == WordLimits;
  }

  /** The checks of `validateSection` after the clearing loop: the required
      fields, the email, the prioritization total and the word counts, each
      later write replacing an earlier one for the same key. */
  method CollectErrors(sectionNumber: int, requiredFields: seq<string>, formData: Record) returns (newErrors: Errors)
    requires requiredFields == RequiredFields(sectionNumber)
    ensures newErrors == NewErrors(sectionNumber, formData)
  {
    // Unanswered required fields
    newErrors := CheckRequired(requiredFields, formData);

    // A truthy email the pattern rejects
    ghost var requiredErrors := newErrors;
    var email := Get(formData, EmailKey);
    if Truthy(email) && !ValidateEmail(JsString(email.value)) {
      UpdateIsOverlay(newErrors, EmailKey, EmailMessage);
      newErrors := newErrors[EmailKey := EmailMessage];
    }
    ghost var withEmail := newErrors;
    assert withEmail == requiredErrors + EmailErrors(formData);

    // The allocation total, in section 3 only
    if sectionNumber == 3 && !ValidatePrioritization(formData) {
      UpdateIsOverlay(newErrors, TotalKey, TotalMessage);
      newErrors := newErrors[TotalKey := TotalMessage];
    }
    assert newErrors == withEmail + TotalErrors(sectionNumber, formData);

    // Answers over their word ceilings
    newErrors := CheckWordLimits(newErrors, formData);
  }

  /** `validateSection(sectionNumber, formData)` with the error map it starts from
      made explicit as `errors`; `merged` is the map it hands to `setErrors`. */
  method ValidateSection(sectionNumber: int, formData: Record, errors: Errors) returns (valid: bool, merged: Errors)
    ensures valid <==> SectionPasses(sectionNumber, formData)
    ensures merged == MergeErrors(errors, sectionNumber, NewErrors(sectionNumber, formData))
  {
    var requiredFields := RequiredFields(sectionNumber);

    // The previous map without this section's required keys
    var currentErrors := ClearErrors(errors, requiredFields);

    var newErrors := CollectErrors(sectionNumber, requiredFields, formData);

    merged := currentErrors + newErrors;
    MergeIs(errors, sectionNumber, currentErrors, newErrors);
    valid := newErrors == map[];
  }

  /** `validateAllSections(formData)`: every section from 1 to 9 is validated, none
      skipped after a failure, and the result is the conjunction. Each pass starts
      from the same `errors` (the value the hook's callback captured), so the map
      left behind is the one the pass over section 9 produced. */
  method ValidateAllSections(formData: Record, errors: Errors) returns (isValid: bool, merged: Errors)
    ensures isValid <==> PassesBelow(formData, SectionCount + 1)
    ensures merged == MergeErrors(errors, SectionCount, NewErrors(SectionCount, formData))
  {
    isValid := true;
    merged := errors;
    ghost var last := 0;
    var i := 1;
    while i <= SectionCount
      invariant 1 <= i <= SectionCount + 1 && last == i - 1
      invariant isValid == PassesBelow(formData, i)
      invariant last > 0 ==> merged == MergeErrors(errors, last, NewErrors(last, formData))
    {
      var ok, m := ValidateSection(i, formData, errors);
      PassesBelowStep(formData, i);
      merged := m;
      if !ok {
        isValid := false;
      }
      last := i;
      i := i + 1;
    }
  }
}

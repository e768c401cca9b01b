/** The application shell around the validation engine: the record a session
    starts from, how one input event updates one field, and the navigation and
    submission handlers over the section pointer, the nine completion flags,
    the submitted flag, the submission id and the stored draft. */
module App {
  import opened JsText
  import opened FormTypes
  import opened FormValidation
  import opened ValidationProperties

  // ---------------------------------------------------------------------------
  // getInitialFormData

  predicate EndsWith(s: string, suffix: string) {
    |suffix| <= |s| && s[|s| - |suffix|..] == suffix
  }

  /** The value `getInitialFormData` gives a declared field: an empty text, an
      unticked box, 1 for each `_rating` field and 0 for the other numbers
      (`mobile_apps_launched`, `beta_participants` and the five allocations). */
  function InitialValue(name: string, t: FieldType): Value {
    match t
    case TextField => Str("")
    case BooleanField => Bool(false)
    case NumberField => if EndsWith(name, "_rating") then Num(1) else Num(0)
  }

  /** `getInitialFormData()`: every field of `FormData` at its initial value. */
  function InitialFormData(): Record {
    map k | k in FieldNames() :: match DeclaredType(k) case Some(t) => InitialValue(k, t) case None => Null
  }

  /** The initial record has exactly the fields of `FormData`, each of its declared type. */
  lemma InitialConforms()
    ensures ConformsToFormData(InitialFormData())
  {
    forall k | k in FieldNames() ensures DeclaredType(k).Some? {
      var i :| 0 <= i < |FormFields| && FormFields[i].0 == k;
      TypeInFound(FormFields, i);
    }
  }

  /** The initial record does not pass section 9, whose signature is required
      and empty, so a fresh form cannot be submitted. */
  lemma InitialNotSubmittable()
    ensures !SectionPasses(SectionCount, InitialFormData())
    ensures !AllSectionsPass(InitialFormData())
  {
    var r := InitialFormData();
    var f := "digital_signature";
    var upTo74, upTo75 := FormFields[..74], FormFields[..75];
    assert upTo74[73] == (f, TextField) && TypeIn(upTo74, f) == Some(TextField);
    assert upTo75[74].0 != f && upTo75[..74] == upTo74;
    assert FormFields[75].0 != f && FormFields[..75] == upTo75;
    assert DeclaredType(f) == Some(TextField);
    assert Get(r, f) == Some(Str(""));
    assert f in RequiredFields(SectionCount);
    RequiredMessageAt(SectionCount, r, f);
    AllSectionsPassIff(r);
  }

  // ---------------------------------------------------------------------------
  // handleInputChange

  /** The part of a change event's target the handler reads: `name`, `value`,
      `type` and `checked`. */
  datatype ChangeEvent = ChangeEvent(name: string, value: string, inputType: string, checked: bool)

  /** The events whose stored answer the model represents: a number input holds
      the empty text or an integer literal. */
  predicate Representable(e: ChangeEvent) {
    e.inputType == "number" ==> IsIntegerText(e.value)
  }

  /** The answer `handleInputChange` stores: `checked` for a checkbox,
      `Number(value)` (the double nearest the literal) for a number input, and
      the text itself for every other input (select, text, textarea, and also
      the range inputs of the ratings). */
  function InputValue(e: ChangeEvent): Value
    requires Representable(e)
  {
    if e.inputType == "checkbox" then Bool(e.checked)
    else if e.inputType == "number" then Num(JsNumber(e.value))
    else Str(e.value)
  }

  /** A number input showing `String(n)` stores the double nearest `n`, which
      is `n` whenever `n` is a double and in particular whenever it is at most
      2^53 in magnitude; cleared, it stores 0. */
  lemma NumberInputRoundTrip(name: string, n: int, checked: bool)
    ensures Representable(ChangeEvent(name, DecimalString(n), "number", checked))
    ensures InputValue(ChangeEvent(name, DecimalString(n), "number", checked)) == Num(RoundToDouble(n))
    ensures IsDouble(n) ==> InputValue(ChangeEvent(name, DecimalString(n), "number", checked)) == Num(n)
    ensures -SafeBound <= n <= SafeBound ==> InputValue(ChangeEvent(name, DecimalString(n), "number", checked)) == Num(n)
    ensures InputValue(ChangeEvent(name, "", "number", checked)) == Num(0)
  {
    NumberOfDecimalString(n);
    if -SafeBound <= n <= SafeBound {
      SafeIsExact(n);
    }
    SafeIsExact(0);
  }

  /** A number input showing 9007199254740993 stores 9007199254740992. */
  lemma NumberInputRounds(name: string, checked: bool)
    ensures InputValue(ChangeEvent(name, DecimalString(SafeBound + 1), "number", checked)) == Num(SafeBound)
  {
    NumberRoundsAboveSafeBound();
  }

  /** An input of any other kind stores exactly the text it shows, whatever its
      `checked`; a checkbox stores only `checked`, whatever its text. */
  lemma InputValueKinds(e: ChangeEvent, other: ChangeEvent)
    requires Representable(e) && Representable(other)
    requires e.inputType != "checkbox" && e.inputType != "number"
    requires other.inputType == "checkbox"
    ensures JsString(InputValue(e)) == e.value && InputValue(e).Str?
    ensures InputValue(other) == InputValue(other.(value := e.value)) == Bool(other.checked)
  {
  }

  /** Writing a value of the declared type into a declared field keeps the
      record shaped like `FormData`. */
  lemma UpdateConforms(r: Record, name: string, v: Value)
    requires ConformsToFormData(r) && name in FieldNames()
    requires DeclaredType(name).Some? && HasType(v, DeclaredType(name).value)
    ensures ConformsToFormData(r[name := v])
  {
  }

  // ---------------------------------------------------------------------------
  // The replies of the submission gateway

  /** What `submitToSupabase` resolved to, or that it threw. */
  datatype PersistReply = Persisted(success: bool, id: Option<string>) | PersistThrew

  /** What `sendEmailNotification` resolved to, or that it threw. */
  datatype NotifyReply = Notified(sent: bool) | NotifyThrew

  /** A call the shell makes to the gateway, with the values it passes. */
  datatype GatewayCall = Persist(record: Record) | Notify(email: Option<Value>, fullName: Option<Value>)

  /** The calls `handleSubmit` makes: none when validation fails, then the
      insert, then the notification if the insert reported success. */
  function SubmitCalls(r: Record, persist: PersistReply): (calls: seq<GatewayCall>)
    ensures calls == [] <==> !AllSectionsPass(r)
    ensures calls != [] ==> calls[0] == Persist(r) && |calls| <= 2
    ensures |calls| == 2 <==> AllSectionsPass(r) && persist.Persisted? && persist.success
    ensures |calls| == 2 ==> calls[1] == Notify(Get(r, EmailKey), Get(r, "fullName"))
  {
    if !AllSectionsPass(r) then []
    else if persist.PersistThrew? || !persist.success then [Persist(r)]
    else [Persist(r), Notify(Get(r, EmailKey), Get(r, "fullName"))]
  }

  /** The submission completes: the form validates, the insert reports success
      and the notification resolves (sent or not) rather than throwing. */
  predicate SubmitCompletes(r: Record, persist: PersistReply, notify: NotifyReply) {
    AllSectionsPass(r) && persist.Persisted? && persist.success && notify.Notified?
  }

  /** `if (newSubmissionId)`: an id is kept only when it is a non-empty text. */
  predicate Truthful(id: Option<string>) {
    id.Some? && id.value != ""
  }

  // ---------------------------------------------------------------------------
  // The shell's state and handlers

  class Application {
    var currentSection: int
    var completedSections: seq<bool>
    var formData: Record
    var errors: Errors
    var isSubmitted: bool
    var submissionId: Option<string>
    /** The record kept under the draft key of the browser's storage, if any. */
    var draft: Option<Record>

    predicate Valid()
      reads this
    {
      1 <= currentSection <= SectionCount && |completedSections| == SectionCount
    }

    /** The component's first render: section 1, nothing completed, nothing
        submitted, no errors, and the record read back from the stored draft or,
        when there is none, `getInitialFormData()`. */
    constructor (stored: Option<Record>)
      ensures Valid()
      ensures currentSection == 1 && completedSections == seq(SectionCount, _ => false)
      ensures formData == if stored.Some? then stored.value else InitialFormData()
      ensures errors == map[] && !isSubmitted && submissionId == None && draft == stored
    {
      currentSection := 1;
      completedSections := seq(SectionCount, _ => false);
      formData := if stored.Some? then stored.value else InitialFormData();
      errors := map[];
      isSubmitted := false;
      submissionId := None;
      draft := stored;
    }

    /** `handleInputChange`: the named field takes the event's answer, no other
        field changes, and the draft is overwritten with the new record. */
    method HandleInputChange(e: ChangeEvent)
      requires Valid() && Representable(e)
      modifies this
      ensures Valid()
      ensures formData == old(formData)[e.name := InputValue(e)]
      ensures Get(formData, e.name) == Some(InputValue(e))
      ensures forall k | k != e.name :: Get(formData, k) == Get(old(formData), k)
      ensures draft == Some(formData)
      ensures currentSection == old(currentSection) && completedSections == old(completedSections)
      ensures errors == old(errors) && isSubmitted == old(isSubmitted) && submissionId == old(submissionId)
    {
      formData := formData[e.name := InputValue(e)];
      draft := Some(formData);
    }

    /** `handleNext`, reachable only below the last section (the Next button is
        not shown on section 9). The displayed errors become the pass's errors
        (the callback merges into the empty map it captured); on a pass the
        current section is marked completed and the pointer moves up by one. */
    method HandleNext()
      requires Valid() && currentSection < SectionCount
      modifies this
      ensures Valid()
      ensures errors == NewErrors(old(currentSection), formData)
      ensures SectionPasses(old(currentSection), formData) ==>
        currentSection == old(currentSection) + 1 &&
        completedSections == old(completedSections)[old(currentSection) - 1 := true]
      ensures !SectionPasses(old(currentSection), formData) ==>
        currentSection == old(currentSection) && completedSections == old(completedSections)
      ensures forall k | 0 <= k < SectionCount :: old(completedSections)[k] ==> completedSections[k]
      ensures formData == old(formData) && draft == old(draft)
      ensures isSubmitted == old(isSubmitted) && submissionId == old(submissionId)
    {
      var passed, merged := ValidateSection(currentSection, formData, map[]);
      MergeIntoEmpty(currentSection, NewErrors(currentSection, formData));
      errors := merged;
      if passed {
        completedSections := completedSections[currentSection - 1 := true];
        currentSection := currentSection + 1;
      }
    }

    /** `handlePrevious`: one section back, except on section 1 where nothing changes. */
    method HandlePrevious()
      requires Valid()
      modifies this
      ensures Valid()
      ensures currentSection == if old(currentSection) > 1 then old(currentSection) - 1 else old(currentSection)
      ensures completedSections == old(completedSections) && formData == old(formData) && draft == old(draft)
      ensures errors == old(errors) && isSubmitted == old(isSubmitted) && submissionId == old(submissionId)
    {
      if currentSection > 1 {
        currentSection := currentSection - 1;
      }
    }

    /** `handleSubmit` with the gateway's replies as parameters; `calls` are the
        gateway calls it makes. The displayed errors become those of the pass
        over section 9, the last `setErrors` of `validateAllSections`. Only a
        completed submission marks the form submitted and removes the draft; the
        id is recorded only when the insert returned one. */
    method HandleSubmit(persist: PersistReply, notify: NotifyReply) returns (calls: seq<GatewayCall>)
      requires Valid()
      modifies this
      ensures Valid()
      ensures calls == SubmitCalls(formData, persist)
      ensures errors == NewErrors(SectionCount, formData)
      ensures SubmitCompletes(formData, persist, notify) ==>
        isSubmitted && draft == None &&
        submissionId == if Truthful(persist.id) then persist.id else old(submissionId)
      ensures !SubmitCompletes(formData, persist, notify) ==>
        isSubmitted == old(isSubmitted) && draft == old(draft) && submissionId == old(submissionId)
      ensures currentSection == old(currentSection) && completedSections == old(completedSections)
      ensures formData == old(formData)
    {
      var valid, merged := ValidateAllSections(formData, map[]);
      MergeIntoEmpty(SectionCount, NewErrors(SectionCount, formData));
      errors := merged;
      if !valid {
        calls := [];
        return;
      }
      calls := [Persist(formData)];
      if persist.PersistThrew? || !persist.success {
        return;
      }
      calls := calls + [Notify(Get(formData, EmailKey), Get(formData, "fullName"))];
      if notify.NotifyThrew? {
        return;
      }
      if Truthful(persist.id) {
        submissionId := persist.id;
      }
      isSubmitted := true;
      draft := None;
    }
  }
}

# Screening form: validation engine and application shell

This project models the core of a browser application form. Candidates answer
about 76 fields in nine sections.

- The form hook (`useFormValidation`) validates one section at a time and
  keeps a map from field name to error message.
- The application component (`App`) holds the section pointer, nine completion
  flags, the answer record, the submitted flag, the submission id and a stored
  draft. It moves between sections and submits the record.

The model has five modules:

- `JsText`: the JavaScript string behaviour the rules depend on: the `\s` and
  `trim()` white-space class, `trim`, `split(/\s+/)`, `startsWith`, `includes`,
  `String(n)` and `Number(text)` for integers, and IEEE 754 rounding of an
  integer result to the nearest double.
- `FormTypes`: answers, records, error maps, JS truthiness and the declared
  fields of `FormData`.
- `FormValidation`: the rules and the hook's operations, written as methods
  with loops and proved against specification functions.
- `ValidationProperties`: what a validation pass promises, key by key and
  message by message, plus the email, prioritization and word-count rules at
  their edges.
- `App`: the initial record, input coercion, the gateway replies, and the
  class `Application` with the four handlers.

A record maps field names to answers (`Str`, `Num`, `Bool`, `Null`). A name
that is not a key stands for `undefined`. The validation rules look at field
names themselves (a `declaration` prefix, a `rating` infix), which is why the
record is keyed by name.

Notes on the code as written:

- `validateSection` and `validateAllSections` capture the initial empty
  `errors` (`useCallback(..., [])`). The merge is modelled against an explicit
  previous map, and the shell passes the empty map. So after a Next the
  displayed errors are exactly that pass's errors. After a failed submit they
  are those of the pass over section 9 (the last of nine `setErrors` calls).
  Errors found in sections 1 to 8 are not kept.
- `handleNext` puts no upper bound on the pointer. It can only be reached below
  section 9, where the Next button is shown, so `HandleNext` requires that.
- The email rule runs on every section: an email that is not well formed fails
  all nine sections.
- A zero counts as unanswered only in fields whose name contains `rating`. A
  `false` counts as unanswered only in fields whose name starts with
  `declaration`.
- The rating inputs are `type="range"`, so `handleInputChange` stores their
  value as text, not as the number `FormData` declares.
- `getInitialFormData` sets every rating to 1, not 0.

## Model

| member | source | states |
|---|---|---|
| FormValidation.RequiredFields | src/hooks/useFormValidation.ts:4-14 | defines `REQUIRED_FIELDS[section] \|\| []`: the listed fields of sections 1 to 9 and nothing for any other number; `OutOfRangeSection` and `TotalKeyNotRequired` state its properties |
| FormValidation.IsMissing | src/hooks/useFormValidation.ts:46-48 | defines the unanswered test of a required field; `AnsweredValues` and `MissingExamples` state which answers it flags |
| FormValidation.ValidateEmail | src/hooks/useFormValidation.ts:19-22 | defines the regex test as a split of the text at an '@' and a later '.'; `EmailOfParts` and `EmailShape` state its two directions |
| FormValidation.AllocationTotal | src/hooks/useFormValidation.ts:25-29 | defines the five-term `+` chain, evaluated left to right with each sum rounded to a double, and no number when an operand is text or `undefined`; `PrioritizationOfNumbers`, `PrioritizationRounds` and `PrioritizationNeedsNumbers` state its properties |
| FormValidation.ValidatePrioritization | src/hooks/useFormValidation.ts:24-31 | defines `total === 100` on that sum; `TotalKeyIff` and `SectionPassesIff` state where it decides a pass |
| FormValidation.NewErrors | src/hooks/useFormValidation.ts:34-79 | defines a pass's error map as the overlay of the required, email, total and word-limit maps, in that order; `NewErrorsKeys`, `SectionPassesIff` and the `MessageAt` lemmas state its properties |
| FormValidation.MergeErrors | src/hooks/useFormValidation.ts:37-81 | defines the map handed to `setErrors`: the previous map without the section's required keys, overlaid with the pass's errors; `MergeErrorsAt` states it key by key |
| FormValidation.ValidateSection | src/hooks/useFormValidation.ts:33-83 | returns true exactly when the pass produced no error entry; the map handed to `setErrors` is the previous map without the section's required keys, overlaid with the pass's errors |
| FormValidation.CollectErrors | src/hooks/useFormValidation.ts:43-79 | the four checks run in source order (required, email, total, word limits) build exactly the pass's error map, a later write replacing an earlier one |
| FormValidation.ClearErrors | src/hooks/useFormValidation.ts:37-41 | deleting each required field from a copy leaves the previous map minus exactly the set of required fields |
| FormValidation.CheckRequired | src/hooks/useFormValidation.ts:43-51 | the loop flags exactly the unanswered required fields |
| FormValidation.CheckWordLimits | src/hooks/useFormValidation.ts:63-79 | the loop over the seven ceilings overlays exactly the over-limit errors on the errors found so far |
| FormValidation.ValidateAllSections | src/hooks/useFormValidation.ts:85-93 | all nine sections are validated with no early exit; the result is true exactly when every pass succeeds; the map left behind is the one from the pass over section 9 |
| FormValidation.AllSectionsPassIff | src/hooks/useFormValidation.ts:85-93 | the conjunction the loop builds holds exactly when each of sections 1 to 9 passes on its own |
| FormValidation.PassesBelowAll | src/hooks/useFormValidation.ts:87-91 | the running conjunction after the first n - 1 iterations holds exactly when every section below n passes |
| FormValidation.PassesBelowStep | src/hooks/useFormValidation.ts:88-90 | one iteration conjoins the running result with that section's verdict |
| FormValidation.MergeIs | src/hooks/useFormValidation.ts:81 | `{ ...currentErrors, ...newErrors }` over the cleared copy is the merge of the previous map |
| FormValidation.MergeIntoEmpty | src/hooks/useFormValidation.ts:17 | merging into the initial empty map that the callbacks capture gives exactly the pass's errors |
| ValidationProperties.MergeErrorsAt | src/hooks/useFormValidation.ts:37-41 | after the merge a key holds the pass's message if the pass flagged it; otherwise its previous message if the section does not require it; a required key the pass did not flag is removed |
| ValidationProperties.NewErrorsKeys | src/hooks/useFormValidation.ts:43-79 | a key is in the pass's map if and only if one of the four rules flags it: unanswered required field, rejected email, section-3 total, or answer over its word ceiling |
| ValidationProperties.RequiredMessageAt | src/hooks/useFormValidation.ts:46-50 | an unanswered required field carries "This field is required"; the email, total and word-limit rules cannot override it |
| ValidationProperties.EmailMessageAt | src/hooks/useFormValidation.ts:54-56 | a rejected email carries the email message under `email`, in every section |
| ValidationProperties.TotalMessageAt | src/hooks/useFormValidation.ts:59-61 | in section 3, allocations that do not sum to 100 carry the total message under `prioritization_total` |
| ValidationProperties.TotalKeyIff | src/hooks/useFormValidation.ts:58-62 | `prioritization_total` is flagged if and only if the section is 3 and the allocations do not sum to 100; no other section ever flags it |
| ValidationProperties.EmailKeyIff | src/hooks/useFormValidation.ts:43-56 | `email` is flagged if and only if the email rule rejects it or a section requiring it finds it unanswered; an absent or empty email is never rejected |
| ValidationProperties.LimitMessageAt | src/hooks/useFormValidation.ts:74-78 | an answer over its ceiling carries `Must be <limit> words or less` with its own ceiling |
| ValidationProperties.SectionPassesIff | src/hooks/useFormValidation.ts:43-82 | a section passes if and only if all its required fields are answered, the email is not rejected, the allocations sum to 100 when the section is 3, and no limited answer runs over |
| ValidationProperties.OutOfRangeSection | src/hooks/useFormValidation.ts:35 | a section number with no entry in `REQUIRED_FIELDS` requires nothing, so only the email and word-limit rules apply |
| ValidationProperties.RequiredErrorsExactly | src/hooks/useFormValidation.ts:44-51 | the required-field errors flag exactly the listed fields that are unanswered, each with the required message |
| ValidationProperties.RequiredErrorsEmpty | src/hooks/useFormValidation.ts:44-51 | no required-field error at all if and only if every listed field is answered |
| ValidationProperties.AnsweredValues | src/hooks/useFormValidation.ts:46-48 | for each kind of answer, exactly when it counts as unanswered; an unanswered value is always falsy |
| ValidationProperties.MissingExamples | src/hooks/useFormValidation.ts:47-48 | an unticked declaration and a zero rating are unanswered; an unticked availability box, a zero `beta_participants` and a rating of 3 are answers |
| ValidationProperties.MissingIsQuiet | src/hooks/useFormValidation.ts:54-76 | an unanswered field is never over a word ceiling and never a truthy email |
| ValidationProperties.TotalKeyNotRequired | src/hooks/useFormValidation.ts:4-14 | `prioritization_total` is not a required field of any section |
| ValidationProperties.ReservedKeysNotLimited | src/hooks/useFormValidation.ts:64-72 | neither `email` nor `prioritization_total` has a word ceiling |
| ValidationProperties.WordLimitNamesDistinct | src/hooks/useFormValidation.ts:64-72 | no field has two word ceilings |
| ValidationProperties.WordLimitErrorsKeys | src/hooks/useFormValidation.ts:74-79 | the word-limit errors are keyed exactly by the limited fields whose answers run over |
| ValidationProperties.WordLimitErrorsAt | src/hooks/useFormValidation.ts:74-79 | with distinct field names, an answer over its ceiling carries that ceiling's message |
| ValidationProperties.WordLimitErrorsEmpty | src/hooks/useFormValidation.ts:74-79 | no word-limit error if and only if no limited answer runs over |
| ValidationProperties.WordLimitBoundary | src/hooks/useFormValidation.ts:76 | n words separated by single spaces exceed a ceiling exactly when n is greater than it: `limit` words pass, `limit + 1` fail |
| ValidationProperties.PrioritizationOfNumbers | src/hooks/useFormValidation.ts:24-31 | with five numeric allocations whose running totals stay within 2^53 in magnitude, every addition is exact and the rule holds exactly when they sum to 100 |
| ValidationProperties.PrioritizationRounds | src/hooks/useFormValidation.ts:25-30 | allocations 2^53, 1, -2^53, 99 and 0 sum to 100 exactly, yet the double-precision total is 99 and the rule fails |
| ValidationProperties.PrioritizationNeedsNumbers | src/hooks/useFormValidation.ts:25-30 | an allocation that is text or `undefined` keeps the JavaScript sum from being the number 100 |
| ValidationProperties.EmailOfParts | src/hooks/useFormValidation.ts:19-22 | text '@' text '.' text is accepted when each part is non-empty and free of white space and '@' |
| ValidationProperties.EmailShape | src/hooks/useFormValidation.ts:19-22 | an accepted email has exactly one '@', no white space, and a '.' with at least one character between it and the '@' and at least one after it; with `EmailOfParts` this is the exact set the pattern accepts |
| ValidationProperties.EmailAcceptedExample | src/hooks/useFormValidation.ts:20 | `sarah.johnson@example.com` is accepted |
| ValidationProperties.EmailRejectedExample | src/hooks/useFormValidation.ts:20 | `ann@site` (no '.' after the '@') is rejected |
| ValidationProperties.UnionEmpty | src/hooks/useFormValidation.ts:82 | an overlay of two error maps has no key exactly when neither has one |
| JsText.WordCountIsRuns | src/hooks/useFormValidation.ts:76 | `value.trim().split(/\s+/).length` is the number of maximal runs of non-white-space characters, and 1 when there are none |
| JsText.JoinedWordCount | src/hooks/useFormValidation.ts:76 | words joined by single spaces count as exactly that many words |
| JsText.JoinWordsRuns | src/hooks/useFormValidation.ts:76 | words joined by single spaces form exactly that many non-white-space runs |
| JsText.SplitCountsRuns | src/hooks/useFormValidation.ts:76 | splitting a non-empty text with no white space at its ends on `/\s+/` gives one piece per run |
| JsText.RunsTrim | src/hooks/useFormValidation.ts:76 | `trim()` does not change the number of runs |
| JsText.TrimIsSlice | src/hooks/useFormValidation.ts:76 | `trim()` returns a slice of the text and drops only white space before and after it |
| JsText.Trim | src/hooks/useFormValidation.ts:76 | the trimmed text is empty or starts and ends with a non-white-space character |
| JsText.SplitOnSpace | src/hooks/useFormValidation.ts:76 | `split` always returns at least one piece |
| JsText.NextSpace | src/hooks/useFormValidation.ts:76 | finds the end of the run of non-white-space characters starting at an index |
| JsText.SkipSpace | src/hooks/useFormValidation.ts:76 | finds the end of the run of white space starting at an index |
| JsText.RunsAppend | src/hooks/useFormValidation.ts:76 | joining two texts at a white-space boundary adds their run counts |
| JsText.RunsSkip | src/hooks/useFormValidation.ts:76 | leading white space does not change the run count |
| JsText.RunsWord | src/hooks/useFormValidation.ts:76 | a leading word followed by white space or the end adds one run |
| JsText.Digits | src/hooks/useFormValidation.ts:77 | the digits of `${limit}` are a non-empty run of decimal digits |
| JsText.DecimalString | src/hooks/useFormValidation.ts:77 | `String(n)` is never empty |
| JsText.DecimalStringChars | src/hooks/useFormValidation.ts:77 | `String(n)` consists only of digits and a minus sign |
| JsText.DigitsRoundTrip | src/hooks/useFormValidation.ts:77 | reading back the decimal digits of n gives n |
| JsText.NumberOfDecimalString | src/App.tsx:127 | the digits of n have the value n, and `Number` of them is the double nearest n, which is n itself whenever n is a double |
| JsText.NumberOfDigitText | src/App.tsx:127 | a signed or unsigned run of digits is a literal `Number` accepts, and its mathematical value (before rounding) is the value of its digits |
| JsText.NumberRoundsAboveSafeBound | src/App.tsx:127 | `Number("9007199254740993")` is 9007199254740992 |
| JsText.RoundToDouble | src/hooks/useFormValidation.ts:25-29 | defines the double nearest an integer, a tie going to the even significand; `RoundIsDouble`, `RoundToDoubleIsNearest` and `RoundTiesToEven` together pin it down, and `DoubleIsFixed` and `SafeIsExact` state where it changes nothing |
| JsText.JsNumber | src/App.tsx:127 | defines `Number(text)` as the double nearest the literal's value; `NumberOfDecimalString` and `NumberRoundsAboveSafeBound` state its properties |
| JsText.Spacing | src/hooks/useFormValidation.ts:25-29 | the gap between neighbouring doubles that hold integers is at least 1, and exactly 1 below 2^53 |
| JsText.SpacingBinade | src/hooks/useFormValidation.ts:25-29 | from 2^53 up, a magnitude with spacing s lies in [s * 2^52, s * 2^53) |
| JsText.SpacingConstant | src/hooks/useFormValidation.ts:25-29 | every magnitude in that range has the same spacing s |
| JsText.RoundIndexRange | src/hooks/useFormValidation.ts:25-29 | from 2^53 up, rounding picks a multiple of the spacing between 2^52 and 2^53 |
| JsText.RoundMagnitudeIsDouble | src/hooks/useFormValidation.ts:25-29 | a rounded magnitude is a multiple of the spacing at its own magnitude, also when it rounds up into the next binade |
| JsText.TopOfBinade | src/hooks/useFormValidation.ts:25-29 | rounding up to 2^53 * s lands on a double of the next binade, whose spacing is 2 * s |
| JsText.RoundIsDouble | src/hooks/useFormValidation.ts:25-29 | the result of rounding any integer is a double |
| JsText.RoundTiesToEven | src/hooks/useFormValidation.ts:25-29 | a magnitude exactly halfway between two neighbouring doubles rounds to the even multiple of the spacing |
| JsText.RoundIsNearest | src/hooks/useFormValidation.ts:25-29 | rounding moves a non-negative integer by at most half the spacing at its magnitude, upward or downward |
| JsText.RoundToDoubleIsNearest | src/hooks/useFormValidation.ts:25-29 | the same bound for any integer |
| JsText.DoubleIsFixed | src/App.tsx:127 | an integer that a double holds is left unchanged by rounding |
| JsText.SafeIsExact | src/hooks/useFormValidation.ts:25-29 | every integer up to 2^53 in magnitude is a double, so a sum that stays in that range is exact |
| JsText.RoundHalfToEven | src/hooks/useFormValidation.ts:25-29 | 2^53 + 1 is not a double and rounds to 2^53 |
| FormTypes.Get | src/hooks/useFormValidation.ts:45 | defines `formData[field]`: `None` (`undefined`) for an absent key, otherwise `Some` of the stored answer |
| FormTypes.TypeInFound | src/types/form.ts:1-107 | every field that `FormData` declares has a declared type |
| App.InitialFormData | src/App.tsx:23-101 | defines `getInitialFormData()` as the declared fields at their initial values; `InitialConforms` and `InitialNotSubmittable` state its properties |
| App.InputValue | src/App.tsx:120-129 | defines the answer the handler stores for an event; `NumberInputRoundTrip`, `NumberInputRounds` and `InputValueKinds` state its properties |
| App.InitialConforms | src/App.tsx:24-101 | the initial record has exactly the fields of `FormData`, each of its declared type |
| App.InitialNotSubmittable | src/App.tsx:24-101 | the initial record fails section 9, whose signature is required and empty, so a fresh form cannot be submitted |
| App.NumberInputRoundTrip | src/App.tsx:126-127 | a number input showing the digits of n stores the double nearest n, which is n whenever n is a double and in particular whenever it is at most 2^53 in magnitude; an empty one stores 0 |
| App.NumberInputRounds | src/App.tsx:127 | a number input showing 9007199254740993 stores 9007199254740992 |
| App.InputValueKinds | src/App.tsx:126-128 | a checkbox stores only `checked`; any input other than a checkbox or number input stores exactly the text it shows |
| App.UpdateConforms | src/App.tsx:124-129 | writing a value of the declared type into a declared field keeps the record shaped like `FormData` |
| App.SubmitCalls | src/App.tsx:160-177 | no gateway call when validation fails; otherwise the insert with the record, then the notification with `email` and `fullName` exactly when the insert reported success |
| App.Application.constructor | src/App.tsx:104-108 | the session starts on section 1 with nothing completed or submitted, no errors, and the stored draft or `getInitialFormData()` as the record |
| App.Application.HandleInputChange | src/App.tsx:120-130 | only the named field changes, to the coerced answer; the draft is overwritten with the new record; nothing else changes |
| App.Application.HandleNext | src/App.tsx:132-143 | the displayed errors become the pass's errors; on a pass the current flag is set, the other flags are unchanged and the pointer moves up by exactly one; on a fail pointer and flags stay; flags are never cleared; the record is unchanged |
| App.Application.HandlePrevious | src/App.tsx:145-151 | the pointer moves down by one if it is above 1 and stays at 1 otherwise; nothing else changes |
| App.Application.HandleSubmit | src/App.tsx:159-197 | the form becomes submitted and the draft is removed exactly when validation passes, the insert reports success and the notification resolves (sent or not); the id is recorded only when non-empty; in every other case the submitted flag, id and draft are unchanged; flags, pointer and record never change |

## Left out

- The network and the database: `submitToSupabase` and
  `sendEmailNotification` (`src/hooks/useSupabaseSubmission.ts`,
  `src/lib/supabase.ts`). They become the `PersistReply` and `NotifyReply`
  parameters of `HandleSubmit`. The calls the handler makes are returned as
  `GatewayCall` values. The payload's field renaming is not modelled.
- `useLocalStorage` is not part of this model. The draft is a stored
  `Option<Record>` that the constructor reads. It is written through on every
  input change and removed by a completed submission.
- `async`/`await`, the hook's `isSubmitting` busy flag and double-submit
  concurrency: each handler runs to completion as one step.
- React rendering and batching, `alert`, `console`, `window.scrollTo`, the
  `useEffect` that logs submission errors, the success page and the components
  under `src/components/`. Of the components' visibility guards, only the Next
  button's (it is not shown on section 9) becomes a `requires`, on
  `HandleNext`. `HandlePrevious` keeps the handler's own `currentSection > 1`
  test. `HandleSubmit` is modelled without the last-section guard of the Submit
  button and without the busy guard: it can be called on any section.
  `canProceed`/`hasValidationErrors` always allow proceeding, so they gate
  nothing and are not modelled.
- `src/utils/testSubmission.ts`: a sample record and a network test harness.
- `handleSaveDraft` only shows an alert.
- `prioritizationTotal` on the page (`src/App.tsx:232-236`) is the same
  five-term sum as `validatePrioritization`, which `FormValidation.AllocationTotal`
  models. It is not modelled separately.
- App.InputValue: `Number(value)` is modelled only for the empty text and for
  optionally signed decimal integers, rounded to the nearest double. A number
  input holding a fraction or an exponent gives a number that is not an
  integer, which the model does not represent. A literal so large that
  `Number` gives `Infinity` is rounded to a finite value instead (see
  `JsText.RoundToDouble`).
- App.Application.HandleInputChange: for the reason just given, it requires a
  representable event and does not model a number input holding a fraction,
  an exponent or a value that overflows to `Infinity`.
- JsText.RoundToDouble: overflow is not modelled. An exact result of
  2^1024 - 2^970 or more in magnitude becomes `Infinity` in JavaScript, but
  here it rounds to a finite multiple of the spacing. A typed literal needs
  more than 300 digits to reach it, and a sum of five allocations needs an
  operand close to it.
- FormValidation.AllocationTotal: the allocations are integers. A fractional
  allocation (a number input accepts `12.5`) is not represented, and overflow
  to `Infinity` is treated as in `JsText.RoundToDouble`.
- JsText.DecimalString: from 10^21 in magnitude JavaScript writes `String(n)`
  with an exponent, but the model keeps all the digits. The model applies it to
  the word ceilings (at most 150) and to the text of a number input in
  `App.NumberInputRoundTrip`, which is about the digits of n.
- `Num` holds any integer. Only integers for which `JsText.IsDouble` holds are
  JavaScript numbers. A record restored from a draft is not checked for this.
- FormValidation.OverLimit: the word-limit rule is modelled for text answers.
  A truthy non-text answer in a limited field would throw a `TypeError` in the
  source (`trim` is not a function). The limited fields are all text fields,
  so the model treats such an answer as never over the limit.
- JsText.Trim: the white-space class is the ECMAScript WhiteSpace and
  LineTerminator set, written out by code point. Unicode normalisation plays
  no part.
- App.InitialFormData: `getInitialFormData` is written as one value per
  declared type (empty text, `false`, 1 for the `_rating` fields and 0 for the
  other numbers). This gives exactly the 76 entries of the object literal,
  which list the fields in the order `FormData` declares them.

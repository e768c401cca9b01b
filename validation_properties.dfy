/** What a validation pass promises: which keys its error map holds and with
    which message, when a section passes, how the merge treats the previous
    map, and the behaviour of the email, prioritization and word-count rules
    on the inputs a reader would try first. */
module ValidationProperties {
  import opened JsText
  import opened FormTypes
  import opened FormValidation

  // ---------------------------------------------------------------------------
  // The required-field rule

  /** The required-field errors flag exactly the unanswered fields of the list,
      each with the required-field message. */
  lemma {:induction false} RequiredErrorsExactly(fields: seq<string>, r: Record, f: string)
    ensures f in RequiredErrors(fields, r) <==> f in fields && IsMissing(f, Get(r, f))
    ensures f in RequiredErrors(fields, r) ==> RequiredErrors(fields, r)[f] == RequiredMessage
  {
    if fields != [] {
      var init := fields[..|fields| - 1];
      assert fields == init + [fields[|fields| - 1]];
      RequiredErrorsExactly(init, r, f);
    }
  }

  /** A field counts as answered whenever it holds anything other than the
      falsy values the rule lists: a false box outside a declaration and a zero
      outside a rating are answers. */
  lemma AnsweredValues(field: string, v: Value)
    ensures v.Str? ==> (IsMissing(field, Some(v)) <==> v.s == "")
    ensures v.Bool? ==> (IsMissing(field, Some(v)) <==> !v.b && StartsWith(field, "declaration"))
    ensures v.Num? ==> (IsMissing(field, Some(v)) <==> v.n == 0 && Includes(field, "rating"))
    ensures IsMissing(field, Some(v)) ==> !Truthy(Some(v))
  {
  }

  /** The entries the rule singles out: a declaration box left unticked and a
      rating left at zero are missing; the count of beta participants at zero
      is an answer. */
  lemma MissingExamples()
    ensures IsMissing("declaration_accurate", Some(Bool(false)))
    ensures !IsMissing("available_by_july15", Some(Bool(false)))
    ensures IsMissing("role1_rating", Some(Num(0)))
    ensures !IsMissing("beta_participants", Some(Num(0)))
    ensures !IsMissing("role1_rating", Some(Num(3)))
  {
    assert OccursAt("role1_rating", "rating", 6);
    assert "declaration_accurate"[..11] == "declaration";
    assert "available_by_july15"[..11] != "declaration" by {
      assert "available_by_july15"[0] != "declaration"[0];
    }
    forall i | 0 <= i <= |"beta_participants"| - |"rating"|
      ensures !OccursAt("beta_participants", "rating", i)
    {
      NoRatingAt(i);
    }
  }

  /** "rating" occurs nowhere in "beta_participants". */
  lemma NoRatingAt(i: int)
    requires 0 <= i <= |"beta_participants"| - |"rating"|
    ensures !OccursAt("beta_participants", "rating", i)
  {
    var s := "beta_participants";
    var w := s[i..i + 6];
    assert w[0] == s[i] && w[1] == s[i + 1];
  }

  /** A map with no key is the empty map. */
  lemma NoKeyIsEmpty(m: Errors)
    requires forall k :: k !in m
    ensures m == map[]
  {
    assert m.Keys == {};
  }

  /** No required-field error at all exactly when every listed field is answered. */
  lemma RequiredErrorsEmpty(fields: seq<string>, r: Record)
    ensures RequiredErrors(fields, r) == map[] <==> forall f | f in fields :: !IsMissing(f, Get(r, f))
  {
    var m := RequiredErrors(fields, r);
    forall f ensures f in m <==> f in fields && IsMissing(f, Get(r, f)) {
      RequiredErrorsExactly(fields, r, f);
    }
    if forall f | f in fields :: !IsMissing(f, Get(r, f)) {
      NoKeyIsEmpty(m);
    }
  }

  // ---------------------------------------------------------------------------
  // The word-count rule

  /** The word-limit errors are keyed by the limited fields whose answers run over. */
  lemma {:induction false} WordLimitErrorsKeys(limits: seq<(string, nat)>, r: Record, k: string)
    ensures k in WordLimitErrors(limits, r) <==>
      exists i | 0 <= i < |limits| :: limits[i].0 == k && OverLimit(Get(r, k), limits[i].1)
  {
    if limits != [] {
      var init := limits[..|limits| - 1];
      WordLimitErrorsKeys(init, r, k);
      if exists i | 0 <= i < |init| :: init[i].0 == k && OverLimit(Get(r, k), init[i].1) {
        var i :| 0 <= i < |init| && init[i].0 == k && OverLimit(Get(r, k), init[i].1);
        assert limits[i] == init[i];
      }
      if exists i | 0 <= i < |limits| :: limits[i].0 == k && OverLimit(Get(r, k), limits[i].1) {
        var i :| 0 <= i < |limits| && limits[i].0 == k && OverLimit(Get(r, k), limits[i].1);
        if i < |init| {
          assert init[i] == limits[i];
        }
      }
    }
  }

  /** With distinct field names, a field over its ceiling carries exactly its own message. */
  lemma {:induction false} WordLimitErrorsAt(limits: seq<(string, nat)>, r: Record, i: nat)
    requires DistinctNames(limits) && i < |limits|
    requires OverLimit(Get(r, limits[i].0), limits[i].1)
    ensures limits[i].0 in WordLimitErrors(limits, r)
    ensures WordLimitErrors(limits, r)[limits[i].0] == LimitMessage(limits[i].1)
  {
    var init := limits[..|limits| - 1];
    if i < |init| {
      assert DistinctNames(init) by {
        forall a, b | 0 <= a < b < |init| ensures init[a].0 != init[b].0 {
          assert init[a] == limits[a] && init[b] == limits[b];
        }
      }
      assert init[i] == limits[i];
      WordLimitErrorsAt(init, r, i);
    }
  }

  /** No word-limit error at all exactly when no limited answer runs over. */
  lemma WordLimitErrorsEmpty(limits: seq<(string, nat)>, r: Record)
    ensures WordLimitErrors(limits, r) == map[] <==>
      forall i | 0 <= i < |limits| :: !OverLimit(Get(r, limits[i].0), limits[i].1)
  {
    var m := WordLimitErrors(limits, r);
    if forall i | 0 <= i < |limits| :: !OverLimit(Get(r, limits[i].0), limits[i].1) {
      forall k ensures k !in m {
        WordLimitErrorsKeys(limits, r, k);
      }
      NoKeyIsEmpty(m);
    } else {
      var i :| 0 <= i < |limits| && OverLimit(Get(r, limits[i].0), limits[i].1);
      WordLimitErrorsKeys(limits, r, limits[i].0);
    }
  }

  // ---------------------------------------------------------------------------
  // Facts about the tables

  /** `prioritization_total` is not a required field of any section. */
  lemma TotalKeyNotRequired(section: int)
    ensures TotalKey !in RequiredFields(section)
  {
  }

  /** Neither the email key nor the total key has a word ceiling. */
  lemma ReservedKeysNotLimited(i: int)
    requires 0 <= i < |WordLimits|
    ensures WordLimits[i].0 != EmailKey && WordLimits[i].0 != TotalKey
  {
  }

  /** No field has two word ceilings. */
  lemma WordLimitNamesDistinct()
    ensures DistinctNames(WordLimits)
  {
  }

  /** An unanswered field is never over a word ceiling, and an unanswered
      email is never rejected. */
  lemma MissingIsQuiet(f: string, v: Option<Value>, limit: nat)
    requires IsMissing(f, v)
    ensures !OverLimit(v, limit) && !Truthy(v)
  {
  }

  lemma UnionEmpty(a: Errors, b: Errors)
    ensures a + b == map[] <==> a == map[] && b == map[]
  {
    if a + b == map[] {
      assert forall k | k in a :: k in a + b;
      assert forall k | k in b :: k in a + b;
    }
  }

  // ---------------------------------------------------------------------------
  // The error map of one pass

  /** A key is in the pass's error map exactly when one of the four rules flags it. */
  lemma NewErrorsKeys(section: int, r: Record, k: string)
    ensures k in NewErrors(section, r) <==>
      || (k in RequiredFields(section) && IsMissing(k, Get(r, k)))
      || (k == EmailKey && EmailRejected(r))
      || (k == TotalKey && section == 3 && !ValidatePrioritization(r))
      || (exists i | 0 <= i < |WordLimits| :: WordLimits[i].0 == k && OverLimit(Get(r, k), WordLimits[i].1))
  {
    RequiredErrorsExactly(RequiredFields(section), r, k);
    WordLimitErrorsKeys(WordLimits, r, k);
  }

  /** An unanswered required field carries the required-field message: no other
      rule can flag it. */
  lemma RequiredMessageAt(section: int, r: Record, f: string)
    requires f in RequiredFields(section) && IsMissing(f, Get(r, f))
    ensures f in NewErrors(section, r) && NewErrors(section, r)[f] == RequiredMessage
  {
    RequiredErrorsExactly(RequiredFields(section), r, f);
    TotalKeyNotRequired(section);
    forall i | 0 <= i < |WordLimits| ensures !OverLimit(Get(r, f), WordLimits[i].1) {
      MissingIsQuiet(f, Get(r, f), WordLimits[i].1);
    }
    WordLimitErrorsKeys(WordLimits, r, f);
    MissingIsQuiet(f, Get(r, f), 0);
  }

  /** A rejected email carries the email message. */
  lemma EmailMessageAt(section: int, r: Record)
    requires EmailRejected(r)
    ensures EmailKey in NewErrors(section, r) && NewErrors(section, r)[EmailKey] == EmailMessage
  {
    forall i | 0 <= i < |WordLimits| ensures WordLimits[i].0 != EmailKey {
      ReservedKeysNotLimited(i);
    }
    WordLimitErrorsKeys(WordLimits, r, EmailKey);
  }

  /** In section 3, allocations that do not sum to 100 carry the total message
      under `prioritization_total`. */
  lemma TotalMessageAt(r: Record)
    requires !ValidatePrioritization(r)
    ensures TotalKey in NewErrors(3, r) && NewErrors(3, r)[TotalKey] == TotalMessage
  {
    forall i | 0 <= i < |WordLimits| ensures WordLimits[i].0 != TotalKey {
      ReservedKeysNotLimited(i);
    }
    WordLimitErrorsKeys(WordLimits, r, TotalKey);
  }

  /** An answer over its word ceiling carries that ceiling's message, whatever
      else flagged it. */
  lemma LimitMessageAt(section: int, r: Record, i: int)
    requires 0 <= i < |WordLimits| && OverLimit(Get(r, WordLimits[i].0), WordLimits[i].1)
    ensures WordLimits[i].0 in NewErrors(section, r)
    ensures NewErrors(section, r)[WordLimits[i].0] == LimitMessage(WordLimits[i].1)
  {
    WordLimitNamesDistinct();
    WordLimitErrorsAt(WordLimits, r, i);
  }

  /** `prioritization_total` is flagged exactly in section 3 when the allocations
      do not sum to 100, and never in another section. */
  lemma TotalKeyIff(section: int, r: Record)
    ensures TotalKey in NewErrors(section, r) <==> section == 3 && !ValidatePrioritization(r)
  {
    TotalKeyNotRequired(section);
    forall i | 0 <= i < |WordLimits| ensures WordLimits[i].0 != TotalKey {
      ReservedKeysNotLimited(i);
    }
    NewErrorsKeys(section, r, TotalKey);
  }

  /** `email` is flagged exactly when the email rule rejects it or, in a section
      that requires it, when it is unanswered; an empty email is never rejected. */
  lemma EmailKeyIff(section: int, r: Record)
    ensures EmailKey in NewErrors(section, r) <==>
      EmailRejected(r) || (EmailKey in RequiredFields(section) && IsMissing(EmailKey, Get(r, EmailKey)))
    ensures Get(r, EmailKey) in {None, Some(Str(""))} ==> !EmailRejected(r)
  {
    forall i | 0 <= i < |WordLimits| ensures WordLimits[i].0 != EmailKey {
      ReservedKeysNotLimited(i);
    }
    NewErrorsKeys(section, r, EmailKey);
  }

  /** A section passes exactly when its required fields are all answered, the
      email is not rejected, the allocations sum to 100 when the section is 3,
      and no limited answer runs over its ceiling. */
  lemma SectionPassesIff(section: int, r: Record)
    ensures SectionPasses(section, r) <==>
      && (forall f | f in RequiredFields(section) :: !IsMissing(f, Get(r, f)))
      && !EmailRejected(r)
      && (section == 3 ==> ValidatePrioritization(r))
      && (forall i | 0 <= i < |WordLimits| :: !OverLimit(Get(r, WordLimits[i].0), WordLimits[i].1))
  {
    var required := RequiredErrors(RequiredFields(section), r);
    var email := EmailErrors(r);
    var total := TotalErrors(section, r);
    UnionEmpty(required + email + total, WordLimitErrors(WordLimits, r));
    UnionEmpty(required + email, total);
    UnionEmpty(required, email);
    assert email == map[] <==> !EmailRejected(r) by {
      if EmailRejected(r) {
        assert EmailKey in email;
      }
    }
    assert total == map[] <==> !(section == 3 && !ValidatePrioritization(r)) by {
      if section == 3 && !ValidatePrioritization(r) {
        assert TotalKey in total;
      }
    }
    RequiredErrorsEmpty(RequiredFields(section), r);
    WordLimitErrorsEmpty(WordLimits, r);
  }

  /** A section number outside 1 to 9 requires nothing and has no total check:
      only the email rule and the word ceilings apply. */
  lemma OutOfRangeSection(section: int, r: Record)
    requires section < 1 || section > SectionCount
    ensures NewErrors(section, r) == EmailErrors(r) + WordLimitErrors(WordLimits, r)
  {
    assert RequiredFields(section) == [];
    assert TotalErrors(section, r) == map[];
    assert map[] + EmailErrors(r) + map[] == EmailErrors(r);
  }

  // ---------------------------------------------------------------------------
  // The merge with the previous map

  /** After the merge a key holds the pass's message if the pass flagged it, else
      its previous message unless the section requires it; a required key the
      pass did not flag is gone. */
  lemma MergeErrorsAt(prior: Errors, section: int, passErrors: Errors, k: string)
    ensures k in MergeErrors(prior, section, passErrors) <==>
      k in passErrors || (k in prior && k !in RequiredFields(section))
    ensures k in MergeErrors(prior, section, passErrors) ==>
      MergeErrors(prior, section, passErrors)[k] == if k in passErrors then passErrors[k] else prior[k]
  {
  }

  // ---------------------------------------------------------------------------
  // The prioritization rule

  /** With five numeric allocations whose running totals stay within 2^53 in
      magnitude, every addition is exact and the rule is exactly "the sum is 100". */
  lemma PrioritizationOfNumbers(r: Record, p: int, a: int, u: int, g: int, v: int)
    requires Get(r, AllocationFields[0]) == Some(Num(p)) && Get(r, AllocationFields[1]) == Some(Num(a))
    requires Get(r, AllocationFields[2]) == Some(Num(u)) && Get(r, AllocationFields[3]) == Some(Num(g))
    requires Get(r, AllocationFields[4]) == Some(Num(v))
    ensures -SafeBound <= p + a <= SafeBound && -SafeBound <= p + a + u <= SafeBound &&
            -SafeBound <= p + a + u + g <= SafeBound && -SafeBound <= p + a + u + g + v <= SafeBound ==>
      (ValidatePrioritization(r) <==> p + a + u + g + v == 100)
  {
    if -SafeBound <= p + a <= SafeBound && -SafeBound <= p + a + u <= SafeBound &&
       -SafeBound <= p + a + u + g <= SafeBound && -SafeBound <= p + a + u + g + v <= SafeBound {
      SafeIsExact(p + a);
      SafeIsExact(p + a + u);
      SafeIsExact(p + a + u + g);
      SafeIsExact(p + a + u + g + v);
    }
  }

  /** Allocations of 2^53, 1, -2^53, 99 and 0 add up to 100, yet the rule fails:
      2^53 + 1 rounds back to 2^53, so the running total ends at 99. */
  lemma PrioritizationRounds(r: Record)
    requires Get(r, AllocationFields[0]) == Some(Num(SafeBound)) && Get(r, AllocationFields[1]) == Some(Num(1))
    requires Get(r, AllocationFields[2]) == Some(Num(-SafeBound)) && Get(r, AllocationFields[3]) == Some(Num(99))
    requires Get(r, AllocationFields[4]) == Some(Num(0))
    ensures SafeBound + 1 + -SafeBound + 99 + 0 == 100
    ensures AllocationTotal(r) == Some(99) && !ValidatePrioritization(r)
  {
    RoundHalfToEven();
    SafeIsExact(0);
    SafeIsExact(99);
  }

  /** An allocation that is text or absent makes the sum something other than
      the number 100. */
  lemma PrioritizationNeedsNumbers(r: Record, i: int)
    requires 0 <= i < |AllocationFields|
    requires Get(r, AllocationFields[i]).None? || Get(r, AllocationFields[i]).value.Str?
    ensures !ValidatePrioritization(r)
  {
  }

  // ---------------------------------------------------------------------------
  // The email rule

  /** Text, '@', text, '.', text, the three parts non-empty and free of white
      space and '@', is accepted. */
  lemma EmailOfParts(local: string, domain: string, suffix: string)
    requires local != [] && domain != [] && suffix != []
    requires NoSpaceOrAt(local) && NoSpaceOrAt(domain) && NoSpaceOrAt(suffix)
    ensures ValidateEmail(local + "@" + domain + "." + suffix)
  {
    var e := local + "@" + domain + "." + suffix;
    var at, dot := |local|, |local| + 1 + |domain|;
    assert e[..at] == local;
    assert e[at + 1..dot] == domain;
    assert e[dot + 1..] == suffix;
    assert EmailSplit(e, at, dot);
  }

  /** An accepted email holds exactly one '@', no white space, and a '.' that
      has text between it and the '@' and text after it: with `EmailOfParts`,
      the regular expression accepts exactly these texts. */
  lemma EmailShape(e: string) returns (at: int, dot: int)
    requires ValidateEmail(e)
    ensures 0 < at && at + 1 < dot < |e| - 1 && e[at] == '@' && e[dot] == '.'
    ensures forall k | 0 <= k < |e| :: !IsSpace(e[k]) && (e[k] == '@' <==> k == at)
  {
    at, dot :| 0 < at < dot < |e| - 1 && EmailSplit(e, at, dot);
    forall k | 0 <= k < |e| ensures !IsSpace(e[k]) && (e[k] == '@' <==> k == at) {
      if k < at {
        assert e[k] == e[..at][k];
      } else if at < k < dot {
        assert e[k] == e[at + 1..dot][k - at - 1];
      } else if dot < k {
        assert e[k] == e[dot + 1..][k - dot - 1];
      }
    }
  }

  /** A typical address is accepted. */
  lemma EmailAcceptedExample()
    ensures ValidateEmail("sarah.johnson@example.com")
  {
    var local, domain, suffix := "sarah.johnson", "example", "com";
    assert NoSpaceOrAt(local) by {
      forall k | 0 <= k < |local| ensures !IsSpace(local[k]) && local[k] != '@' {
        assert 'a' <= local[k] <= 'z' || local[k] == '.';
      }
    }
    assert NoSpaceOrAt(domain) by {
      forall k | 0 <= k < |domain| ensures !IsSpace(domain[k]) && domain[k] != '@' {
        assert 'a' <= domain[k] <= 'z';
      }
    }
    assert NoSpaceOrAt(suffix) by {
      forall k | 0 <= k < |suffix| ensures !IsSpace(suffix[k]) && suffix[k] != '@' {
        assert 'a' <= suffix[k] <= 'z';
      }
    }
    EmailOfParts(local, domain, suffix);
    assert local + "@" + domain + "." + suffix == "sarah.johnson@example.com";
  }

  /** An address without a '.' after its '@' is rejected. */
  lemma EmailRejectedExample()
    ensures !ValidateEmail("ann@site")
  {
    var e := "ann@site";
    forall at, dot | 0 < at < dot < |e| - 1 ensures !EmailSplit(e, at, dot) {
      assert e[dot] != '.';
    }
  }

  // ---------------------------------------------------------------------------
  // The word-count rule at its boundary

  /** An answer of `n` space-separated words is over a ceiling exactly when `n`
      exceeds it: `limit` words pass and `limit + 1` fail. */
  lemma WordLimitBoundary(words: seq<string>, limit: nat)
    requires AreWords(words) && words != []
    ensures OverLimit(Some(Str(JoinWords(words))), limit) <==> |words| > limit
  {
    JoinedWordCount(words);
    assert JoinWords(words) != "" by {
      JoinWordsStart(words);
    }
  }

  lemma JoinWordsStart(words: seq<string>)
    requires AreWords(words) && words != []
    ensures |JoinWords(words)| >= |words[0]| > 0
  {
  }
}

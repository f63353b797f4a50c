/**
 * The form and the intake handler together: the payload the form sends is the
 * JSON body the handler validates. For every form whose values come from the
 * form's own controls, the form's readiness check and the handler's cascade
 * agree, and the inserted record holds what the submitter typed, trimmed.
 */
module EndToEnd {
  import opened JsText
  import opened JsValue
  import opened Email
  import opened Interest
  import opened RegistrationForm
  import opened Register
  import opened Html

  /** The JSON object `invoke` sends for a payload: the texts as strings, the selections as arrays of strings. */
  function ToBody(p: FormData): Fields {
    map[
      "interest_type" := Str(p.interest_type),
      "business_opportunities" := StrArray(p.business_opportunities),
      "wealth_solutions" := StrArray(p.wealth_solutions),
      "first_name" := Str(p.first_name),
      "last_name" := Str(p.last_name),
      "phone" := Str(p.phone),
      "email" := Str(p.email),
      "profession" := Str(p.profession),
      "preferred_days" := StrArray(p.preferred_days),
      "preferred_time" := StrArray(p.preferred_time),
      "referred_by" := Str(p.referred_by)]
  }

  /** Values the form's controls can produce: the interest type unset or one of the offered values, and only the offered times. */
  predicate Offered(f: FormData) {
    && (f.interest_type == "" || f.interest_type in InterestTypes)
    && forall i | 0 <= i < |f.preferred_time| :: f.preferred_time[i] in Times
  }

  lemma BodyTexts(p: FormData)
    ensures var b := ToBody(p);
      && Get(b, "interest_type") == Str(p.interest_type)
      && Get(b, "first_name") == Str(p.first_name)
      && Get(b, "last_name") == Str(p.last_name)
      && Get(b, "phone") == Str(p.phone)
      && Get(b, "email") == Str(p.email)
      && Get(b, "profession") == Str(p.profession)
      && Get(b, "referred_by") == Str(p.referred_by)
  {
  }

  lemma BodySelections(p: FormData)
    ensures var b := ToBody(p);
      && Get(b, "business_opportunities") == StrArray(p.business_opportunities)
      && Get(b, "wealth_solutions") == StrArray(p.wealth_solutions)
      && Get(b, "preferred_days") == StrArray(p.preferred_days)
      && Get(b, "preferred_time") == StrArray(p.preferred_time)
  {
  }

  /** A string field is missing on the server exactly when it is blank. */
  lemma TextMissingIffBlank(s: string)
    ensures IsMissing(Str(s)) <==> IsBlank(s)
  {
    if s == [] {
      assert AllSpace(s);
      TrimEmptyIffAllSpace(s);
    }
  }

  /** A non-empty selection of offered times is never blank once joined, and an empty one always is. */
  lemma TimesMissingIffEmpty(ts: seq<string>)
    requires forall i | 0 <= i < |ts| :: ts[i] in Times
    ensures IsMissing(StrArray(ts)) <==> ts == []
  {
    var s := ToJsString(StrArray(ts));
    StrArrayToString(ts);
    TrimEmptyIffAllSpace(s);
    if ts == [] {
      assert s == [] && AllSpace(s);
    } else {
      JoinStartsWithFirst(ts, ",");
      assert ts[0] == "AM" || ts[0] == "PM";
      assert s[0] == ts[0][0];
      assert !AllSpace(s);
    }
  }

  /** The e-mail check sees the trimmed text the form sends just as the form saw the untrimmed one. */
  lemma EmailAgrees(e: string)
    ensures IsValidEmail(EmailText(Str(Trim(e)))) == IsValidEmail(e)
  {
    ValidityIgnoresSurroundingSpace(e);
  }

  /** An offered interest type is its own lower-cased form, so both sides bring in the same sections. */
  lemma InterestAgrees(p: FormData)
    requires p.interest_type == "" || p.interest_type in InterestTypes
    ensures InterestTypeOf(ToBody(p)) == p.interest_type
  {
    BodyTexts(p);
    assert Lower("entrepreneurship") == "entrepreneurship";
    assert Lower("client") == "client";
    assert Lower("both") == "both";
  }

  /** The required keys one by one. */
  lemma MustPresentIff(b: Fields)
    ensures (forall k | k in Must :: !IsMissing(Get(b, k))) <==>
      && !IsMissing(Get(b, "interest_type"))
      && !IsMissing(Get(b, "first_name")) && !IsMissing(Get(b, "last_name")) && !IsMissing(Get(b, "phone"))
      && !IsMissing(Get(b, "email"))
      && !IsMissing(Get(b, "preferred_time"))
      && !IsMissing(Get(b, "referred_by"))
  {
    assert Must == ["interest_type", "first_name", "last_name", "phone", "email", "preferred_time", "referred_by"];
  }

  /** A chosen interest type is never blank. */
  lemma InterestBlankIffUnset(t: string)
    requires t == "" || t in InterestTypes
    ensures IsBlank(t) <==> t == ""
  {
    TrimEmptyIffAllSpace(t);
    if t != "" {
      assert !IsSpace(t[0]);
    } else {
      assert AllSpace(t);
    }
  }

  /** A typed text is missing on the server exactly when the form finds it blank before trimming. */
  lemma TrimmedTextMissingIffBlank(s: string)
    ensures IsMissing(Str(Trim(s))) <==> IsBlank(s)
  {
    TextMissingIffBlank(Trim(s));
    BlankAfterTrim(s);
  }

  /** Every required field the cascade reads is present exactly when the form's readiness check finds it filled. */
  lemma RequiredAgree(f: FormData)
    requires Offered(f)
    ensures var b := ToBody(Normalize(f));
      (forall k | k in Must :: !IsMissing(Get(b, k))) <==>
        && f.interest_type != ""
        && !IsBlank(f.first_name) && !IsBlank(f.last_name) && !IsBlank(f.phone)
        && !IsBlank(f.email)
        && |f.preferred_time| > 0
        && !IsBlank(f.referred_by)
  {
    var p := Normalize(f);
    var b := ToBody(p);
    MustPresentIff(b);
    BodyTexts(p);
    BodySelections(p);
    TextMissingIffBlank(p.interest_type);
    InterestBlankIffUnset(f.interest_type);
    TrimmedTextMissingIffBlank(f.first_name);
    TrimmedTextMissingIffBlank(f.last_name);
    TrimmedTextMissingIffBlank(f.phone);
    TrimmedTextMissingIffBlank(f.email);
    TrimmedTextMissingIffBlank(f.referred_by);
    TimesMissingIffEmpty(p.preferred_time);
  }

  /**
   * For a form filled through its own controls, the handler accepts the payload
   * the form sends exactly when the form lets it be sent.
   */
  lemma ReadyIffAccepted(f: FormData)
    requires Offered(f)
    ensures CanSubmit(f) <==> Validate(ToBody(Normalize(f))).None?
  {
    var p := Normalize(f);
    var b := ToBody(p);
    AcceptedIff(b);
    RequiredAgree(f);
    BodyTexts(p);
    BodySelections(p);
    InterestAgrees(p);
    EmailAgrees(f.email);
    if IsValidEmail(f.email) {
      ValidEmailIsNotBlank(f.email);
    }
  }

  /**
   * The record inserted for an accepted payload: status "new", the interest type
   * as chosen, the six texts as typed but trimmed, and the selections as sent.
   */
  lemma RecordFromForm(f: FormData)
    requires Offered(f)
    ensures var r := RecordOf(ToBody(Normalize(f)));
      && r.status == "new"
      && r.interest_type == f.interest_type
      && r.first_name == Trim(f.first_name) && r.last_name == Trim(f.last_name)
      && r.phone == Trim(f.phone) && r.email == Trim(f.email)
      && r.profession == Trim(f.profession) && r.referred_by == Trim(f.referred_by)
      && r.business_opportunities == StrArray(f.business_opportunities)
      && r.wealth_solutions == StrArray(f.wealth_solutions)
      && r.preferred_days == StrArray(f.preferred_days)
      && r.preferred_time == StrArray(f.preferred_time)
  {
    var p := Normalize(f);
    BodyTexts(p);
    BodySelections(p);
    InterestAgrees(p);
    TrimIdempotent(f.first_name);
    TrimIdempotent(f.last_name);
    TrimIdempotent(f.phone);
    TrimIdempotent(f.email);
    TrimIdempotent(f.profession);
    TrimIdempotent(f.referred_by);
  }

  /** Every option the form offers has a label on the server, so the mail never falls back to a raw id. */
  lemma OfferedOptionsLabelled()
    ensures forall i | 0 <= i < |BusinessOpportunityIds| :: BusinessOpportunityIds[i] in BusinessOpportunityLabels
    ensures forall i | 0 <= i < |WealthSolutionIds| :: WealthSolutionIds[i] in WealthSolutionLabels
  {
  }
}

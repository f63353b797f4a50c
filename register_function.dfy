/**
 * The intake edge function: it answers the preflight, refuses other methods,
 * validates a parsed body through a fixed cascade of checks, builds and inserts
 * one record, then sends the confirmation mail and, when configured, a copy to
 * an administrator. The database insert and the two mail sends are external;
 * their outcomes are parameters, and the handler reports what it asked of them
 * as a trace of effects.
 */
module Register {
  import opened Wrappers
  import opened JsText
  import opened JsValue
  import opened Email
  import opened Interest
  import opened Html

  /** A parsed JSON object body: its own properties. */
  type Fields = map<string, Value>

  /** `body[key]`: reading an absent property gives `undefined`. */
  function Get(body: Fields, key: string): Value {
    if key in body then body[key] else Undefined
  }

  // ---------------------------------------------------------------------------
  // Validation

  /** The fields that must be present and non-blank, in the order they are checked. */
  const Must: seq<string> := ["interest_type", "first_name", "last_name", "phone", "email", "preferred_time", "referred_by"]

  /** `!v || String(v).trim() === ""`. */
  predicate IsMissing(v: Value) {
    !Truthy(v) || IsBlank(ToJsString(v))
  }

  /** `a` is a subsequence of `b` (matched from the end). */
  predicate IsSubsequence(a: seq<string>, b: seq<string>)
    decreases |b|
  {
    if a == [] then true
    else if b == [] then false
    else if a[|a| - 1] == b[|b| - 1] then IsSubsequence(a[..|a| - 1], b[..|b| - 1])
    else IsSubsequence(a, b[..|b| - 1])
  }

  /** The keys whose value is missing from `body`, in the order of `keys`. */
  function MissingAmong(body: Fields, keys: seq<string>): (r: seq<string>)
    ensures forall k :: k in r <==> k in keys && IsMissing(Get(body, k))
    ensures IsSubsequence(r, keys)
    decreases |keys|
  {
    if keys == [] then []
    else
      var init, k := keys[..|keys| - 1], keys[|keys| - 1];
      var r := MissingAmong(body, init);
      assert keys == init + [k];
      if IsMissing(Get(body, k)) then
        assert (r + [k])[..|r|] == r;
        r + [k]
      else
        r
  }

  /** The names the `missing` list collects: the `Must` fields that are missing, then "preferred_days" when that is not a non-empty array. */
  function MissingFields(body: Fields): seq<string> {
    MissingAmong(body, Must) + (if IsNonEmptyArray(Get(body, "preferred_days")) then [] else ["preferred_days"])
  }

  /** `String(email || "")`: the text the e-mail check sees. */
  function EmailText(v: Value): string {
    if Truthy(v) then ToJsString(v) else ""
  }

  /** `String(body.interest_type || "").toLowerCase()`. */
  function InterestTypeOf(body: Fields): string {
    var v := Get(body, "interest_type");
    Lower(if Truthy(v) then ToJsString(v) else "")
  }

  /** Why a body is refused with status 400. */
  datatype Rejection = InvalidEmail | NoEntrepreneurshipOption | NoWealthOption | Incomplete(missing: seq<string>)

  /** The `error` text of the rejection envelope. */
  function Message(r: Rejection): string {
    match r
    case InvalidEmail => "Invalid email"
    case NoEntrepreneurshipOption => "Select at least one entrepreneurship option"
    case NoWealthOption => "Select at least one wealth solution option"
    case Incomplete(missing) => "Missing: " + Join(missing, ", ")
  }

  /** The validation cascade: the first failing check decides, in the order e-mail, entrepreneurship selection, wealth selection, missing fields. */
  function Validate(body: Fields): Option<Rejection> {
    var interestType := InterestTypeOf(body);
    if !IsValidEmail(EmailText(Get(body, "email"))) then Some(InvalidEmail)
    else if ShowEntrepreneurship(interestType) && !IsNonEmptyArray(Get(body, "business_opportunities")) then Some(NoEntrepreneurshipOption)
    else if ShowClient(interestType) && !IsNonEmptyArray(Get(body, "wealth_solutions")) then Some(NoWealthOption)
    else if MissingFields(body) != [] then Some(Incomplete(MissingFields(body)))
    else None
  }

  /** The steps of the cascade, one by one, as the handler takes them. */
  lemma ValidateSteps(body: Fields)
    ensures !IsValidEmail(EmailText(Get(body, "email"))) ==> Validate(body) == Some(InvalidEmail)
    ensures IsValidEmail(EmailText(Get(body, "email"))) ==>
      if ShowEntrepreneurship(InterestTypeOf(body)) && !IsNonEmptyArray(Get(body, "business_opportunities")) then Validate(body) == Some(NoEntrepreneurshipOption)
      else if ShowClient(InterestTypeOf(body)) && !IsNonEmptyArray(Get(body, "wealth_solutions")) then Validate(body) == Some(NoWealthOption)
      else if MissingFields(body) != [] then Validate(body) == Some(Incomplete(MissingFields(body)))
      else Validate(body) == None
  {
  }

  /** The `missing` list names exactly the required fields that are absent, falsy or blank, in the order they are checked, and "preferred_days" last when there are no days. */
  lemma MissingFieldsSpec(body: Fields)
    ensures forall k | k in Must :: k in MissingFields(body) <==> IsMissing(Get(body, k))
    ensures "preferred_days" in MissingFields(body) <==> !IsNonEmptyArray(Get(body, "preferred_days"))
    ensures forall k | k in MissingFields(body) :: k in Must || k == "preferred_days"
    ensures IsSubsequence(MissingAmong(body, Must), Must)
    ensures !IsNonEmptyArray(Get(body, "preferred_days")) ==> MissingFields(body)[|MissingFields(body)| - 1] == "preferred_days"
  {
    assert "preferred_days" !in Must;
  }

  /** An empty `preferred_time` array counts as missing: `String([])` is blank. */
  lemma EmptyTimeArrayIsMissing(body: Fields)
    requires Get(body, "preferred_time") == Arr([])
    ensures "preferred_time" in MissingFields(body)
  {
    assert IsMissing(Arr([])) by {
      assert ToJsString(Arr([])) == [];
      assert AllSpace([]);
      TrimEmptyIffAllSpace([]);
    }
    assert "preferred_time" in Must;
  }

  /** An e-mail that passes the check is never missing, so a "Missing: ..." error never names `email`. */
  lemma IncompleteNeverNamesEmail(body: Fields)
    requires Validate(body) == Some(Incomplete(MissingFields(body)))
    ensures "email" !in MissingFields(body)
  {
    var v := Get(body, "email");
    ValidEmailIsNotBlank(EmailText(v));
    assert Truthy(v) && ToJsString(v) == EmailText(v);
    assert !IsMissing(v);
    MissingFieldsSpec(body);
  }

  /** An accepted body has every required field present and non-blank, a valid e-mail, at least one day, and a selection in each section its interest type brings in; and every such body is accepted. */
  lemma AcceptedIff(body: Fields)
    ensures Validate(body).None? <==>
      && (forall k | k in Must :: !IsMissing(Get(body, k)))
      && IsNonEmptyArray(Get(body, "preferred_days"))
      && IsValidEmail(EmailText(Get(body, "email")))
      && (ShowEntrepreneurship(InterestTypeOf(body)) ==> IsNonEmptyArray(Get(body, "business_opportunities")))
      && (ShowClient(InterestTypeOf(body)) ==> IsNonEmptyArray(Get(body, "wealth_solutions")))
  {
    MissingFieldsSpec(body);
    var m := MissingFields(body);
    if m != [] {
      assert m[0] in m;
    }
  }

  /** An invalid e-mail is reported first, whatever else is wrong. */
  lemma InvalidEmailFirst(body: Fields)
    requires !IsValidEmail(EmailText(Get(body, "email")))
    ensures Validate(body) == Some(InvalidEmail)
  {
  }

  /** A missing selection is reported before the missing fields. */
  lemma SectionsBeforeMissing(body: Fields)
    requires IsValidEmail(EmailText(Get(body, "email")))
    requires || (ShowEntrepreneurship(InterestTypeOf(body)) && !IsNonEmptyArray(Get(body, "business_opportunities")))
             || (ShowClient(InterestTypeOf(body)) && !IsNonEmptyArray(Get(body, "wealth_solutions")))
    ensures Validate(body) == Some(NoEntrepreneurshipOption) || Validate(body) == Some(NoWealthOption)
  {
  }

  /** A non-empty interest type other than the three offered ones requires no selection in either section. */
  lemma OtherInterestRequiresNoSection(body: Fields)
    requires InterestTypeOf(body) !in InterestTypes
    ensures Validate(body) != Some(NoEntrepreneurshipOption) && Validate(body) != Some(NoWealthOption)
  {
    OtherTypesShowNoSection(InterestTypeOf(body));
  }

  lemma LowerKeepsBlank(s: string)
    ensures IsBlank(Lower(s)) == IsBlank(s)
  {
    TrimEmptyIffAllSpace(s);
    TrimEmptyIffAllSpace(Lower(s));
    assert forall i | 0 <= i < |s| :: IsSpace(Lower(s)[i]) == IsSpace(s[i]);
  }

  /** Validation reads the body only through the e-mail, the interest type, the two selections and the missing list. */
  lemma ValidateReads(b1: Fields, b2: Fields)
    requires Get(b1, "email") == Get(b2, "email")
    requires InterestTypeOf(b1) == InterestTypeOf(b2)
    requires Get(b1, "business_opportunities") == Get(b2, "business_opportunities")
    requires Get(b1, "wealth_solutions") == Get(b2, "wealth_solutions")
    requires MissingFields(b1) == MissingFields(b2)
    ensures Validate(b1) == Validate(b2)
  {
  }

  lemma LowerInterestSameType(body: Fields, s: string)
    ensures InterestTypeOf(body["interest_type" := Str(s)]) == InterestTypeOf(body["interest_type" := Str(Lower(s))])
  {
    LowerIdempotent(s);
  }

  lemma LowerInterestSameMissing(body: Fields, s: string)
    ensures MissingFields(body["interest_type" := Str(s)]) == MissingFields(body["interest_type" := Str(Lower(s))])
  {
    var b1, b2 := body["interest_type" := Str(s)], body["interest_type" := Str(Lower(s))];
    LowerKeepsBlank(s);
    assert IsMissing(Str(s)) == IsMissing(Str(Lower(s)));
    forall k | k in Must ensures IsMissing(Get(b1, k)) == IsMissing(Get(b2, k)) {
      if k != "interest_type" {
        assert Get(b1, k) == Get(body, k) == Get(b2, k);
      }
    }
    MissingAmongAgree(b1, b2, Must);
    assert Get(b1, "preferred_days") == Get(b2, "preferred_days");
  }

  /** The section requirements ignore letter case: an interest type and its lower-cased form are validated alike. */
  lemma InterestCaseIgnored(body: Fields, s: string)
    ensures Validate(body["interest_type" := Str(s)]) == Validate(body["interest_type" := Str(Lower(s))])
  {
    var b1, b2 := body["interest_type" := Str(s)], body["interest_type" := Str(Lower(s))];
    LowerInterestSameType(body, s);
    LowerInterestSameMissing(body, s);
    assert Get(b1, "email") == Get(b2, "email");
    assert Get(b1, "business_opportunities") == Get(b2, "business_opportunities");
    assert Get(b1, "wealth_solutions") == Get(b2, "wealth_solutions");
    ValidateReads(b1, b2);
  }

  /** Two bodies that agree on which keys are missing have the same missing list. */
  lemma {:induction false} MissingAmongAgree(b1: Fields, b2: Fields, keys: seq<string>)
    requires forall k | k in keys :: IsMissing(Get(b1, k)) == IsMissing(Get(b2, k))
    ensures MissingAmong(b1, keys) == MissingAmong(b2, keys)
    decreases |keys|
  {
    if keys != [] {
      MissingAmongAgree(b1, b2, keys[..|keys| - 1]);
      assert keys[|keys| - 1] in keys;
    }
  }

  /** A required field that is missing from a body whose e-mail and sections pass is named in the "Missing: ..." error. */
  lemma MissingFieldNamed(b: Fields, k: string)
    requires IsValidEmail(EmailText(Get(b, "email")))
    requires ShowEntrepreneurship(InterestTypeOf(b)) ==> IsNonEmptyArray(Get(b, "business_opportunities"))
    requires ShowClient(InterestTypeOf(b)) ==> IsNonEmptyArray(Get(b, "wealth_solutions"))
    requires k in Must && IsMissing(Get(b, k))
    ensures k in MissingFields(b)
    ensures Validate(b) == Some(Incomplete(MissingFields(b)))
  {
    MissingFieldsSpec(b);
    ValidateSteps(b);
  }

  /** A whitespace-only `referred_by` is named among the missing fields when the e-mail and sections pass. */
  lemma BlankReferredByNamed(body: Fields, s: string)
    requires IsBlank(s) && Get(body, "referred_by") == Str(s)
    requires IsValidEmail(EmailText(Get(body, "email")))
    requires ShowEntrepreneurship(InterestTypeOf(body)) ==> IsNonEmptyArray(Get(body, "business_opportunities"))
    requires ShowClient(InterestTypeOf(body)) ==> IsNonEmptyArray(Get(body, "wealth_solutions"))
    ensures "referred_by" in MissingFields(body)
    ensures Validate(body) == Some(Incomplete(MissingFields(body)))
  {
    assert IsMissing(Str(s));
    assert "referred_by" in Must;
    MissingFieldNamed(body, "referred_by");
  }

  // ---------------------------------------------------------------------------
  // The inserted record

  /** The row written to `client_registrations`. The selections keep whatever JSON value the body carried. */
  datatype Record = Record(
    status: string,
    interest_type: string,
    business_opportunities: Value,
    wealth_solutions: Value,
    first_name: string,
    last_name: string,
    phone: string,
    email: string,
    profession: string,
    preferred_days: Value,
    preferred_time: Value,
    referred_by: string)

  /** `v ?? d`. */
  function OrDefault(v: Value, d: Value): (r: Value)
    ensures IsNullish(v) ==> r == d
    ensures !IsNullish(v) ==> r == v
  {
    if IsNullish(v) then d else v
  }

  /** `String(v).trim()`. */
  function TrimmedText(v: Value): (t: string)
    ensures IsTrimmed(t)
  {
    Trim(ToJsString(v))
  }

  /** `payloadToInsert`: the record built from a body that passed validation. */
  function RecordOf(body: Fields): Record {
    Record(
      "new",
      InterestTypeOf(body),
      OrDefault(Get(body, "business_opportunities"), Arr([])),
      OrDefault(Get(body, "wealth_solutions"), Arr([])),
      TrimmedText(Get(body, "first_name")),
      TrimmedText(Get(body, "last_name")),
      TrimmedText(Get(body, "phone")),
      TrimmedText(Get(body, "email")),
      TrimmedText(OrDefault(Get(body, "profession"), Str(""))),
      OrDefault(Get(body, "preferred_days"), Arr([])),
      Get(body, "preferred_time"),
      TrimmedText(Get(body, "referred_by")))
  }

  /** What the record holds for any body: status "new", the lower-cased interest type, each of the six texts as `String(v).trim()` of the value sent, absent profession and selections defaulted, `preferred_time` untouched. */
  lemma RecordShape(body: Fields)
    ensures var r := RecordOf(body);
      && r.status == "new"
      && r.interest_type == InterestTypeOf(body) && Lower(r.interest_type) == r.interest_type
      && IsTrimmed(r.first_name) && IsTrimmed(r.last_name) && IsTrimmed(r.phone)
      && IsTrimmed(r.email) && IsTrimmed(r.profession) && IsTrimmed(r.referred_by)
      && r.first_name == Trim(ToJsString(Get(body, "first_name")))
      && r.last_name == Trim(ToJsString(Get(body, "last_name")))
      && r.phone == Trim(ToJsString(Get(body, "phone")))
      && r.email == Trim(ToJsString(Get(body, "email")))
      && r.referred_by == Trim(ToJsString(Get(body, "referred_by")))
      && (IsNullish(Get(body, "profession")) ==> r.profession == "")
      && (!IsNullish(Get(body, "profession")) ==> r.profession == Trim(ToJsString(Get(body, "profession"))))
      && (IsNullish(Get(body, "business_opportunities")) ==> r.business_opportunities == Arr([]))
      && (!IsNullish(Get(body, "business_opportunities")) ==> r.business_opportunities == Get(body, "business_opportunities"))
      && (IsNullish(Get(body, "wealth_solutions")) ==> r.wealth_solutions == Arr([]))
      && (!IsNullish(Get(body, "wealth_solutions")) ==> r.wealth_solutions == Get(body, "wealth_solutions"))
      && (IsNullish(Get(body, "preferred_days")) ==> r.preferred_days == Arr([]))
      && (!IsNullish(Get(body, "preferred_days")) ==> r.preferred_days == Get(body, "preferred_days"))
      && r.preferred_time == Get(body, "preferred_time")
  {
    var it := Get(body, "interest_type");
    LowerIdempotent(if Truthy(it) then ToJsString(it) else "");
    TrimmedIsFixpoint("");
  }

  /** The record of an accepted body: the four required name, phone and referrer texts non-empty, and an e-mail that passes the check. */
  lemma AcceptedRecordTexts(body: Fields)
    requires Validate(body).None?
    ensures var r := RecordOf(body);
      && r.first_name != [] && r.last_name != [] && r.phone != [] && r.referred_by != []
      && IsValidEmail(r.email)
  {
    AcceptedIff(body);
    assert "first_name" in Must && "last_name" in Must && "phone" in Must && "referred_by" in Must;
    PresentTextNotEmpty(Get(body, "first_name"));
    PresentTextNotEmpty(Get(body, "last_name"));
    PresentTextNotEmpty(Get(body, "phone"));
    PresentTextNotEmpty(Get(body, "referred_by"));
    ValidEmailStaysValid(Get(body, "email"));
  }

  /** The record of an accepted body: the days a non-empty array, and a non-empty selection in each section its interest type brings in. */
  lemma AcceptedRecordSelections(body: Fields)
    requires Validate(body).None?
    ensures var r := RecordOf(body);
      && IsNonEmptyArray(r.preferred_days)
      && (ShowEntrepreneurship(r.interest_type) ==> IsNonEmptyArray(r.business_opportunities))
      && (ShowClient(r.interest_type) ==> IsNonEmptyArray(r.wealth_solutions))
  {
    AcceptedIff(body);
  }

  /** A field that is not missing keeps some text once trimmed. */
  lemma PresentTextNotEmpty(v: Value)
    requires !IsMissing(v)
    ensures TrimmedText(v) != []
  {
  }

  /** The e-mail that passed the check is stored trimmed, and the stored text passes the check too. */
  lemma ValidEmailStaysValid(v: Value)
    requires IsValidEmail(EmailText(v))
    ensures IsValidEmail(TrimmedText(v))
  {
    ValidEmailIsNotBlank(EmailText(v));
    assert EmailText(v) == ToJsString(v);
    ValidityIgnoresSurroundingSpace(ToJsString(v));
  }

  // ---------------------------------------------------------------------------
  // The confirmation mail

  /**
   * What the HTML mail interpolates into its template, field by field. The
   * template text itself is not modelled. Which values pass through `escapeHtml`
   * and which do not is kept exactly as in the handler.
   */
  datatype Summary = Summary(
    name: string,
    interestedIn: string,
    preferredDays: string,
    preferredTime: string,
    referredBy: string,
    phone: string,
    email: string,
    profession: Option<string>,
    businessItems: Option<seq<string>>,
    wealthItems: Option<seq<string>>)

  /** A mail the handler sends: its envelope, and the record whose summary (`SummaryOf`) its HTML shows. */
  datatype Mail = Mail(to: string, toName: string, subject: string, heading: string, record: Record)

  const ClientSubject := "Registration Confirmation - CAN Thrive Together Network"
  const ClientHeading := "Registration Confirmation"
  const AdminSubject := "New Client Registration - CAN Thrive Together Network"
  const AdminHeading := "New Client Registration"

  /** One list item: `escapeHtml(labels[id] ?? id)`, where the lookup key is `String(id)`. */
  function ItemText(id: Value, labels: map<string, string>): string {
    var key := ToJsString(id);
    EscapeHtml(if key in labels then labels[key] else if IsNullish(id) then "" else key)
  }

  /** `labelsFor(ids, labels).map(escapeHtml)` over the elements of a selection array. */
  function Items(ids: seq<Value>, labels: map<string, string>): (r: seq<string>)
    ensures |r| == |ids|
  {
    seq(|ids|, i requires 0 <= i < |ids| => ItemText(ids[i], labels))
  }

  /** On an array of strings, the list items are the escaped results of `labelsFor`. */
  lemma ItemsOfStrings(xs: seq<string>, labels: map<string, string>)
    ensures var r := Items(StrArray(xs).elems, labels);
      |r| == |xs| && forall i | 0 <= i < |xs| :: r[i] == EscapeHtml(LabelsFor(Some(xs), labels)[i])
  {
  }

  /** The record's arrays that the mail joins and lists: the days, and each selection whose section is shown. */
  predicate Renderable(r: Record) {
    && r.preferred_days.Arr?
    && (ShowEntrepreneurship(r.interest_type) ==> r.business_opportunities.Arr?)
    && (ShowClient(r.interest_type) ==> r.wealth_solutions.Arr?)
  }

  lemma AcceptedIsRenderable(body: Fields)
    requires Validate(body).None?
    ensures Renderable(RecordOf(body))
  {
    AcceptedRecordSelections(body);
  }

  /** The values the mail template shows for a record. */
  function SummaryOf(r: Record): Summary
    requires Renderable(r)
  {
    Summary(
      EscapeHtml(r.first_name) + " " + EscapeHtml(r.last_name),
      InterestTypeFormatted(r.interest_type),
      JoinElements(r.preferred_days.elems, ", "),
      ToJsString(r.preferred_time),
      EscapeHtml(r.referred_by),
      EscapeHtml(r.phone),
      EscapeHtml(r.email),
      if r.profession != "" then Some(EscapeHtml(r.profession)) else None,
      if ShowEntrepreneurship(r.interest_type) then Some(Items(r.business_opportunities.elems, BusinessOpportunityLabels)) else None,
      if ShowClient(r.interest_type) then Some(Items(r.wealth_solutions.elems, WealthSolutionLabels)) else None)
  }

  /** The confirmation addressed to the submitter. */
  function ClientMail(r: Record): Mail {
    Mail(r.email, EscapeHtml(r.first_name) + " " + EscapeHtml(r.last_name), ClientSubject, ClientHeading, r)
  }

  /** The copy for the administrator: the same summary under another heading and subject. */
  function AdminMail(r: Record, adminEmail: string): Mail {
    Mail(adminEmail, "Admin", AdminSubject, AdminHeading, r)
  }

  predicate NoMarkup(s: string) {
    forall i | 0 <= i < |s| :: !IsMarkup(s[i])
  }

  lemma NameHasNoMarkup(first: string, last: string)
    ensures NoMarkup(EscapeHtml(first) + " " + EscapeHtml(last))
  {
    EscapedHasNoMarkup(first);
    EscapedHasNoMarkup(last);
    SpacedNoMarkup(EscapeHtml(first), EscapeHtml(last));
  }

  lemma SpacedNoMarkup(a: string, b: string)
    requires NoMarkup(a) && NoMarkup(b)
    ensures NoMarkup(a + " " + b)
  {
    assert forall i | 0 <= i < |a + " " + b| :: (a + " " + b)[i] == if i < |a| then a[i] else if i == |a| then ' ' else b[i - |a| - 1];
  }

  lemma ItemsHaveNoMarkup(ids: seq<Value>, labels: map<string, string>)
    ensures forall i | 0 <= i < |Items(ids, labels)| :: NoMarkup(Items(ids, labels)[i])
  {
    forall i | 0 <= i < |ids| ensures NoMarkup(Items(ids, labels)[i]) {
      var key := ToJsString(ids[i]);
      EscapedHasNoMarkup(if key in labels then labels[key] else if IsNullish(ids[i]) then "" else key);
    }
  }

  /** The texts the submitter typed reach the mail escaped: the name, referrer, phone, e-mail, profession and every list item carry no '<', '>', '"' or '\''. */
  lemma SummaryEscapesTypedText(r: Record)
    requires Renderable(r)
    ensures var s := SummaryOf(r);
      && NoMarkup(s.name) && NoMarkup(s.referredBy) && NoMarkup(s.phone) && NoMarkup(s.email)
      && (s.profession.Some? ==> NoMarkup(s.profession.value))
      && (s.businessItems.Some? ==> forall i | 0 <= i < |s.businessItems.value| :: NoMarkup(s.businessItems.value[i]))
      && (s.wealthItems.Some? ==> forall i | 0 <= i < |s.wealthItems.value| :: NoMarkup(s.wealthItems.value[i]))
  {
    NameHasNoMarkup(r.first_name, r.last_name);
    EscapedHasNoMarkup(r.referred_by);
    EscapedHasNoMarkup(r.phone);
    EscapedHasNoMarkup(r.email);
    EscapedHasNoMarkup(r.profession);
    if ShowEntrepreneurship(r.interest_type) {
      ItemsHaveNoMarkup(r.business_opportunities.elems, BusinessOpportunityLabels);
    }
    if ShowClient(r.interest_type) {
      ItemsHaveNoMarkup(r.wealth_solutions.elems, WealthSolutionLabels);
    }
  }

  /** The interest type reaches the mail unescaped: a '<' in it shows up in the "Interested In" line. */
  lemma InterestShownUnescaped(r: Record)
    requires Renderable(r) && '<' in r.interest_type
    ensures '<' in SummaryOf(r).interestedIn
  {
    var x := r.interest_type;
    var i :| 0 <= i < |x| && x[i] == '<';
    var t := InterestTypeFormatted(x);
    assert t[i] == '<' by {
      if i > 0 { assert t[1..][i - 1] == x[1..][i - 1]; }
    }
  }

  // ---------------------------------------------------------------------------
  // The request handler

  /** The request body as `req.json()` gives it: not JSON at all, the JSON `null`, or an object (any other JSON value reads like an object without these properties). */
  datatype RequestBody = Malformed | NullBody | Parsed(fields: Fields)

  datatype Request = Request(httpMethod: string, body: RequestBody)

  /** What the database insert settles with. */
  datatype InsertOutcome = Inserted | InsertFailed(message: string)

  /** What a mail send settles with: a 2xx answer, another answer with its body text, or a rejected `fetch`. */
  datatype SendOutcome = Delivered | Refused(detail: string) | Threw

  /** The outcomes of the external calls this request would make, in the order the handler makes them. */
  datatype Externals = Externals(insert: InsertOutcome, clientSend: SendOutcome, adminSend: SendOutcome)

  /** The configuration the handler reads: `ADMIN_NOTIFY_EMAIL`, "" when unset. */
  datatype Env = Env(adminNotifyEmail: string)

  /** A plain-text body, or the JSON envelope `{ ok, error?, detail? }`. */
  datatype Reply = Text(text: string) | Envelope(ok: bool, error: Option<string>, detail: Option<string>)

  datatype Response = Response(status: nat, reply: Reply)

  /** A call the handler made to the outside world. */
  datatype Effect = Insert(record: Record) | Send(mail: Mail)

  function Failed(status: nat, error: string): Response {
    Response(status, Envelope(false, Some(error), None))
  }

  /** The runtime's answer when the handler throws: `Deno.serve` responds 500. */
  const Crashed := Response(500, Text("Internal Server Error"))

  const Succeeded := Response(200, Envelope(true, None, None))

  /** The handler's response and the calls it makes, for every request and every outcome of those calls. */
  function Intake(req: Request, env: Env, ext: Externals): (Response, seq<Effect>) {
    if req.httpMethod == "OPTIONS" then (Response(200, Text("ok")), [])
    else if req.httpMethod != "POST" then (Response(405, Text("Method not allowed")), [])
    else
      match req.body
      case Malformed => (Failed(400, "Invalid JSON"), [])
      case NullBody => (Crashed, [])
      case Parsed(body) => Answer(body, env, ext)
  }

  /** The answer to a parsed POST body: refused by the first failing check, or stored and mailed. */
  function Answer(body: Fields, env: Env, ext: Externals): (Response, seq<Effect>) {
    match Validate(body)
    case Some(rejection) => (Failed(400, Message(rejection)), [])
    case None => Persist(RecordOf(body), env, ext)
  }

  /** Insert, then the client mail, then the optional admin copy; each step runs only if the one before it succeeded. */
  function Persist(record: Record, env: Env, ext: Externals): (Response, seq<Effect>)
  {
    match ext.insert
    case InsertFailed(message) => (Failed(500, message), [Insert(record)])
    case Inserted =>
      var sent := [Insert(record), Send(ClientMail(record))];
      match ext.clientSend
      case Threw => (Crashed, sent)
      case Refused(detail) => (Response(502, Envelope(false, Some("Email failed"), Some(detail))), sent)
      case Delivered =>
        if env.adminNotifyEmail == "" then (Succeeded, sent)
        else (if ext.adminSend.Threw? then Crashed else Succeeded, sent + [Send(AdminMail(record, env.adminNotifyEmail))])
  }

  /**
   * The `Deno.serve` handler, step by step: the method checks, the body's
   * parse, then the validation cascade and the insert and sends, with the
   * outcomes of the external calls given.
   */
  method Handle(req: Request, env: Env, ext: Externals) returns (resp: Response, effects: seq<Effect>)
    ensures (resp, effects) == Intake(req, env, ext)
  {
    if req.httpMethod == "OPTIONS" {
      return Response(200, Text("ok")), [];
    }
    if req.httpMethod != "POST" {
      return Response(405, Text("Method not allowed")), [];
    }
    if req.body.Malformed? {
      return Failed(400, "Invalid JSON"), [];
    }
    if req.body.NullBody? {
      return Crashed, [];
    }
    resp, effects := Process(req.body.fields, env, ext);
  }

  /** The loop that collects the absent, falsy or blank required fields, then the days check. */
  method CollectMissing(body: Fields) returns (missing: seq<string>)
    ensures missing == MissingFields(body)
  {
    missing := [];
    for i := 0 to |Must|
      invariant missing == MissingAmong(body, Must[..i])
    {
      var k := Must[i];
      var v := Get(body, k);
      if IsMissing(v) {
        missing := missing + [k];
      }
      assert Must[..i + 1][..i] == Must[..i];
    }
    assert Must[..|Must|] == Must;
    if !IsNonEmptyArray(Get(body, "preferred_days")) {
      missing := missing + ["preferred_days"];
    }
  }

  /** A parsed body: refused with the cascade's message, or inserted and mailed. */
  method Process(body: Fields, env: Env, ext: Externals) returns (resp: Response, effects: seq<Effect>)
    ensures (resp, effects) == Answer(body, env, ext)
  {
    var rejection := Check(body);
    if rejection.Some? {
      return Failed(400, Message(rejection.value)), [];
    }
    resp, effects := Store(RecordOf(body), env, ext);
  }

  /** The early returns of the validation cascade, in the handler's order. */
  method Check(body: Fields) returns (rejection: Option<Rejection>)
    ensures rejection == Validate(body)
  {
    var missing := CollectMissing(body);
    ValidateSteps(body);
    if !IsValidEmail(EmailText(Get(body, "email"))) {
      return Some(InvalidEmail);
    }
    var interestType := InterestTypeOf(body);
    if ShowEntrepreneurship(interestType) && !IsNonEmptyArray(Get(body, "business_opportunities")) {
      return Some(NoEntrepreneurshipOption);
    }
    if ShowClient(interestType) && !IsNonEmptyArray(Get(body, "wealth_solutions")) {
      return Some(NoWealthOption);
    }
    if missing != [] {
      return Some(Incomplete(missing));
    }
    return None;
  }

  /** The insert-then-send flow that follows a successful validation. */
  method Store(record: Record, env: Env, ext: Externals) returns (resp: Response, effects: seq<Effect>)
    ensures (resp, effects) == Persist(record, env, ext)
  {
    effects := [Insert(record)];
    if ext.insert.InsertFailed? {
      return Failed(500, ext.insert.message), effects;
    }

    effects := [Insert(record), Send(ClientMail(record))];
    if ext.clientSend.Threw? {
      return Crashed, effects;
    }
    if ext.clientSend.Refused? {
      return Response(502, Envelope(false, Some("Email failed"), Some(ext.clientSend.detail))), effects;
    }

    if env.adminNotifyEmail != "" {
      effects := effects + [Send(AdminMail(record, env.adminNotifyEmail))];
      if ext.adminSend.Threw? {
        return Crashed, effects;
      }
    }
    return Succeeded, effects;
  }

  // ---------------------------------------------------------------------------
  // What every request leads to

  /** A parsed body is refused with the first failing check's message, or its record goes on to the insert-then-send flow. */
  lemma AnswerCases(body: Fields, env: Env, ext: Externals)
    ensures Validate(body).Some? ==> Answer(body, env, ext) == (Failed(400, Message(Validate(body).value)), [])
    ensures Validate(body).None? ==> Renderable(RecordOf(body)) && Answer(body, env, ext) == Persist(RecordOf(body), env, ext)
  {
    if Validate(body).None? {
      AcceptedIsRenderable(body);
    }
  }

  /** The cases of a request, up to the insert-then-send flow. */
  lemma IntakeCases(req: Request, env: Env, ext: Externals)
    ensures req.httpMethod == "OPTIONS" ==> Intake(req, env, ext) == (Response(200, Text("ok")), [])
    ensures req.httpMethod != "OPTIONS" && req.httpMethod != "POST" ==> Intake(req, env, ext) == (Response(405, Text("Method not allowed")), [])
    ensures req.httpMethod == "POST" && req.body.Malformed? ==> Intake(req, env, ext) == (Failed(400, "Invalid JSON"), [])
    ensures req.httpMethod == "POST" && req.body.NullBody? ==> Intake(req, env, ext) == (Crashed, [])
    ensures req.httpMethod == "POST" && req.body.Parsed? && Validate(req.body.fields).Some? ==>
      Intake(req, env, ext) == (Failed(400, Message(Validate(req.body.fields).value)), [])
    ensures req.httpMethod == "POST" && req.body.Parsed? && Validate(req.body.fields).None? ==>
      Renderable(RecordOf(req.body.fields)) && Intake(req, env, ext) == Persist(RecordOf(req.body.fields), env, ext)
  {
    if req.httpMethod == "POST" && req.body.Parsed? {
      AnswerCases(req.body.fields, env, ext);
    }
  }

  /** The preflight is answered 200 and nothing is called. */
  lemma PreflightAnswered(body: RequestBody, env: Env, ext: Externals)
    ensures Intake(Request("OPTIONS", body), env, ext) == (Response(200, Text("ok")), [])
  {
  }

  /** Any method but OPTIONS and POST is refused with 405 and nothing is called. */
  lemma OtherMethodsRefused(req: Request, env: Env, ext: Externals)
    requires req.httpMethod != "OPTIONS" && req.httpMethod != "POST"
    ensures Intake(req, env, ext) == (Response(405, Text("Method not allowed")), [])
  {
  }

  /** A body that is not JSON is refused with 400 and nothing is called. */
  lemma BadJsonRejected(env: Env, ext: Externals)
    ensures Intake(Request("POST", Malformed), env, ext) == (Failed(400, "Invalid JSON"), [])
  {
  }

  /** A body that fails validation is refused with 400 and the first failing check's message, and nothing is called. */
  lemma RejectedBodyTouchesNothing(body: Fields, env: Env, ext: Externals)
    requires Validate(body).Some?
    ensures Intake(Request("POST", Parsed(body)), env, ext) == (Failed(400, Message(Validate(body).value)), [])
  {
    IntakeCases(Request("POST", Parsed(body)), env, ext);
  }

  /** A failed insert is answered 500 with the database's message, and no mail is sent. */
  lemma InsertFailureSendsNothing(body: Fields, env: Env, ext: Externals)
    requires Validate(body).None? && ext.insert.InsertFailed?
    ensures Intake(Request("POST", Parsed(body)), env, ext) == (Failed(500, ext.insert.message), [Insert(RecordOf(body))])
  {
    IntakeCases(Request("POST", Parsed(body)), env, ext);
  }

  /** A refused confirmation mail is answered 502 with the service's detail, after the record was inserted; the admin copy is not sent. */
  lemma MailFailureAfterInsert(body: Fields, env: Env, ext: Externals)
    requires Validate(body).None? && ext.insert.Inserted? && ext.clientSend.Refused?
    ensures var (resp, effects) := Intake(Request("POST", Parsed(body)), env, ext);
      && resp == Response(502, Envelope(false, Some("Email failed"), Some(ext.clientSend.detail)))
      && |effects| == 2 && effects[0] == Insert(RecordOf(body))
      && effects[1].Send? && effects[1].mail.to == RecordOf(body).email && effects[1].mail.subject == ClientSubject
  {
    IntakeCases(Request("POST", Parsed(body)), env, ext);
  }

  /** The statuses the insert-then-send flow answers with, for any record and any outcomes of the calls. */
  lemma PersistStatus(record: Record, env: Env, ext: Externals)
    ensures var resp := Persist(record, env, ext).0;
      && resp.status in {200, 500, 502}
      && (resp == Succeeded <==> ext.insert.Inserted? && ext.clientSend.Delivered? && (env.adminNotifyEmail != "" ==> !ext.adminSend.Threw?))
      && (resp.status == 502 <==> ext.insert.Inserted? && ext.clientSend.Refused?)
  {
  }

  /** The calls the insert-then-send flow makes: the insert first, then the confirmation once it succeeded, then the admin copy once that was delivered. */
  lemma PersistEffects(record: Record, env: Env, ext: Externals)
    ensures var effects := Persist(record, env, ext).1;
      && effects != [] && effects[0] == Insert(record)
      && (forall i | 1 <= i < |effects| :: effects[i].Send?)
      && (|effects| >= 2 <==> ext.insert.Inserted?)
      && (forall i | 1 <= i < |effects| :: effects[i].mail.record == record)
      && (|effects| >= 2 ==> effects[1].mail.to == record.email && effects[1].mail.subject == ClientSubject)
      && (|effects| == 3 <==> |effects| >= 2 && ext.clientSend.Delivered? && env.adminNotifyEmail != "")
      && (|effects| == 3 ==> effects[2].mail.to == env.adminNotifyEmail && effects[2].mail.subject == AdminSubject)
      && |effects| <= 3
  {
    var effects := Persist(record, env, ext).1;
    var client := Send(ClientMail(record));
    if ext.insert.InsertFailed? {
      assert effects == [Insert(record)];
    } else if !ext.clientSend.Delivered? || env.adminNotifyEmail == "" {
      assert effects == [Insert(record), client];
    } else {
      var admin := Send(AdminMail(record, env.adminNotifyEmail));
      assert effects == [Insert(record), client, admin];
    }
  }

  /** The admin copy's answer never changes the outcome of the flow unless its `fetch` throws. */
  lemma PersistIgnoresAdminAnswer(record: Record, env: Env, ext: Externals, other: SendOutcome)
    requires !ext.adminSend.Threw? && !other.Threw?
    ensures Persist(record, env, ext) == Persist(record, env, ext.(adminSend := other))
  {
  }

  /** The admin copy's answer never changes the response unless its `fetch` throws. */
  lemma AdminAnswerIgnored(req: Request, env: Env, ext: Externals, other: SendOutcome)
    requires !ext.adminSend.Threw? && !other.Threw?
    ensures Intake(req, env, ext) == Intake(req, env, ext.(adminSend := other))
  {
    IntakeCases(req, env, ext);
    IntakeCases(req, env, ext.(adminSend := other));
    if req.httpMethod == "POST" && req.body.Parsed? && Validate(req.body.fields).None? {
      PersistIgnoresAdminAnswer(RecordOf(req.body.fields), env, ext, other);
    }
  }


  /** The request succeeds exactly when a valid POST body was inserted and its confirmation delivered, and the admin copy, if configured, did not throw. */
  lemma SuccessIff(req: Request, env: Env, ext: Externals)
    ensures Intake(req, env, ext).0 == Succeeded <==>
      && req.httpMethod == "POST" && req.body.Parsed? && Validate(req.body.fields).None?
      && ext.insert.Inserted? && ext.clientSend.Delivered?
      && (env.adminNotifyEmail != "" ==> !ext.adminSend.Threw?)
  {
    IntakeCases(req, env, ext);
    if req.httpMethod == "POST" && req.body.Parsed? && Validate(req.body.fields).None? {
      PersistStatus(RecordOf(req.body.fields), env, ext);
      PersistEffects(RecordOf(req.body.fields), env, ext);
    }
  }


  /** Every response carries one of the statuses 200, 400, 405, 500 and 502, and 400 means a POST whose body was refused before anything was called. */
  lemma StatusCodes(req: Request, env: Env, ext: Externals)
    ensures var (resp, effects) := Intake(req, env, ext);
      && resp.status in {200, 400, 405, 500, 502}
      && (resp.status == 400 <==> req.httpMethod == "POST" && (req.body.Malformed? || (req.body.Parsed? && Validate(req.body.fields).Some?)))
      && (resp.status == 400 ==> effects == [])
      && (resp.status == 502 <==> req.httpMethod == "POST" && req.body.Parsed? && Validate(req.body.fields).None? && ext.insert.Inserted? && ext.clientSend.Refused?)
  {
    IntakeCases(req, env, ext);
    if req.httpMethod == "POST" && req.body.Parsed? && Validate(req.body.fields).None? {
      PersistStatus(RecordOf(req.body.fields), env, ext);
      PersistEffects(RecordOf(req.body.fields), env, ext);
    }
  }


  /**
   * The calls a request makes: one insert, of the validated record, exactly when
   * a POST body passes validation; every mail after it; the confirmation only
   * once the insert succeeded; the admin copy only once the confirmation was
   * delivered and an admin address is configured.
   */
  lemma EffectsOrder(req: Request, env: Env, ext: Externals)
    ensures var (resp, effects) := Intake(req, env, ext);
      && (effects != [] <==> req.httpMethod == "POST" && req.body.Parsed? && Validate(req.body.fields).None?)
      && (effects != [] ==> effects[0] == Insert(RecordOf(req.body.fields)))
      && (forall i | 1 <= i < |effects| :: effects[i].Send? && effects[i].mail.record == effects[0].record)
      && (effects != [] ==> Renderable(effects[0].record))
      && (|effects| >= 2 <==> effects != [] && ext.insert.Inserted?)
      && (|effects| >= 2 ==> effects[1].mail.to == effects[0].record.email && effects[1].mail.subject == ClientSubject)
      && (|effects| == 3 <==> |effects| >= 2 && ext.clientSend.Delivered? && env.adminNotifyEmail != "")
      && (|effects| == 3 ==> effects[2].mail.to == env.adminNotifyEmail && effects[2].mail.subject == AdminSubject)
      && |effects| <= 3
  {
    IntakeCases(req, env, ext);
    if req.httpMethod == "POST" && req.body.Parsed? && Validate(req.body.fields).None? {
      PersistStatus(RecordOf(req.body.fields), env, ext);
      PersistEffects(RecordOf(req.body.fields), env, ext);
    }
  }

}

/**
 * The registration form: its field record, the submit-readiness predicate, the
 * multi-select toggle and the submit step. The form is a small object whose state
 * (the field record, `submitting`, `submitted` and the shown `error`) its event
 * handlers update in place.
 */
module RegistrationForm {
  import opened Wrappers
  import opened JsText
  import opened Email
  import opened Interest

  /** The form's field record. Unset text is "" and an unset selection is []. */
  datatype FormData = FormData(
    interest_type: string,
    business_opportunities: seq<string>,
    wealth_solutions: seq<string>,
    first_name: string,
    last_name: string,
    phone: string,
    email: string,
    profession: string,
    preferred_days: seq<string>,
    preferred_time: seq<string>,
    referred_by: string)

  /** The initial state of the form. */
  function EmptyForm(): FormData {
    FormData("", [], [], "", "", "", "", "", [], [], "")
  }

  /** The option identifiers and values the form offers. */
  const BusinessOpportunityIds: seq<string> := ["financial_freedom", "own_business", "successful_entrepreneur", "million_income"]
  const WealthSolutionIds: seq<string> := ["protection_planning", "investment_planning", "college_tuition", "lifetime_income", "will_trust", "tax_optimization", "retirement", "legacy"]
  const Times: seq<string> := ["AM", "PM"]

  /** The submit control is enabled: every required field is filled and each visible section has a selection. */
  predicate CanSubmit(f: FormData) {
    && f.interest_type != ""
    && !IsBlank(f.first_name)
    && !IsBlank(f.last_name)
    && !IsBlank(f.phone)
    && IsValidEmail(f.email)
    && |f.preferred_days| > 0
    && |f.preferred_time| > 0
    && !IsBlank(f.referred_by)
    && (ShowEntrepreneurship(f.interest_type) ==> |f.business_opportunities| > 0)
    && (ShowClient(f.interest_type) ==> |f.wealth_solutions| > 0)
  }

  /** The freshly opened form cannot be submitted. */
  lemma EmptyFormCannotSubmit()
    ensures !CanSubmit(EmptyForm())
  {
  }

  /** A hidden section's selections do not matter: with "entrepreneurship" chosen, any wealth selection (even none) leaves readiness unchanged, and symmetrically. */
  lemma HiddenSectionIgnored(f: FormData, other: seq<string>)
    ensures !ShowClient(f.interest_type) ==> CanSubmit(f.(wealth_solutions := other)) == CanSubmit(f)
    ensures !ShowEntrepreneurship(f.interest_type) ==> CanSubmit(f.(business_opportunities := other)) == CanSubmit(f)
  {
  }

  /** A visible section with no selection blocks submission. */
  lemma VisibleSectionRequired(f: FormData)
    ensures ShowEntrepreneurship(f.interest_type) && f.business_opportunities == [] ==> !CanSubmit(f)
    ensures ShowClient(f.interest_type) && f.wealth_solutions == [] ==> !CanSubmit(f)
  {
  }

  // ---------------------------------------------------------------------------
  // Multi-select toggle

  predicate NoDup(s: seq<string>) {
    forall i, j | 0 <= i < j < |s| :: s[i] != s[j]
  }

  /** `Array.from(new Set(xs))`: the distinct elements of `xs`, each where it first occurs. */
  function Dedup(xs: seq<string>): (r: seq<string>)
    ensures NoDup(r)
    ensures forall x :: x in r <==> x in xs
    ensures NoDup(xs) ==> r == xs
    decreases |xs|
  {
    if xs == [] then []
    else
      var init := xs[..|xs| - 1];
      var last := xs[|xs| - 1];
      var r := Dedup(init);
      assert xs == init + [last];
      if last in r then r else r + [last]
  }

  /** `set.delete(x)`: the other elements, in their order. */
  function Without(s: seq<string>, x: string): (r: seq<string>)
    ensures forall y :: y in r <==> y in s && y != x
    ensures NoDup(s) ==> NoDup(r)
    ensures x !in s ==> r == s
  {
    if s == [] then []
    else
      var rest := Without(s[1..], x);
      if s[0] == x then rest
      else
        assert NoDup(s) ==> NoDup([s[0]] + rest) by {
          if NoDup(s) {
            assert s[0] !in s[1..];
            assert forall j | 0 < j < |[s[0]] + rest| :: ([s[0]] + rest)[j] == rest[j - 1];
          }
        }
        [s[0]] + rest
  }

  /** The selection after `toggleArray(field, id)`: `id` removed if it was there, appended otherwise. */
  function Toggle(xs: seq<string>, id: string): (r: seq<string>)
    ensures id in r <==> id !in xs
    ensures forall x | x != id :: x in r <==> x in xs
    ensures NoDup(r)
  {
    var s := Dedup(xs);
    if id in s then Without(s, id) else s + [id]
  }

  /** Toggling twice gives back the same members. */
  lemma ToggleTwiceSameMembers(xs: seq<string>, id: string)
    ensures forall x :: x in Toggle(Toggle(xs, id), id) <==> x in xs
  {
  }

  /** On a duplicate-free selection, toggling in a new id appends it at the end. */
  lemma ToggleAppends(xs: seq<string>, id: string)
    requires NoDup(xs) && id !in xs
    ensures Toggle(xs, id) == xs + [id]
  {
  }

  /** Toggling a new id in and out again gives back exactly the original selection. */
  lemma ToggleTwiceRestores(xs: seq<string>, id: string)
    requires NoDup(xs) && id !in xs
    ensures Toggle(Toggle(xs, id), id) == xs
  {
    var once := xs + [id];
    ToggleAppends(xs, id);
    assert Dedup(once) == once;
    WithoutLast(xs, id);
  }

  /** Toggling a present id out and in again moves it to the end. */
  lemma ToggleTwiceMovesToEnd(xs: seq<string>, id: string)
    requires NoDup(xs) && id in xs
    ensures Toggle(Toggle(xs, id), id) == Without(xs, id) + [id]
  {
  }

  lemma {:induction false} WithoutLast(xs: seq<string>, id: string)
    requires id !in xs
    ensures Without(xs + [id], id) == xs
  {
    if xs == [] {
      assert Without([id], id) == [] + Without([], id);
    } else {
      assert (xs + [id])[1..] == xs[1..] + [id];
      WithoutLast(xs[1..], id);
      assert xs == [xs[0]] + xs[1..];
    }
  }

  /** The multi-select fields that `toggleArray` is called with. */
  datatype SelectionField = BusinessOpportunities | WealthSolutions | PreferredDays | PreferredTime

  function Selection(f: FormData, field: SelectionField): seq<string> {
    match field
    case BusinessOpportunities => f.business_opportunities
    case WealthSolutions => f.wealth_solutions
    case PreferredDays => f.preferred_days
    case PreferredTime => f.preferred_time
  }

  /** `{ ...prev, [field]: s }`: the record with one selection replaced and every other field kept. */
  function WithSelection(f: FormData, field: SelectionField, s: seq<string>): (g: FormData)
    ensures Selection(g, field) == s
    ensures forall other | other != field :: Selection(g, other) == Selection(f, other)
    ensures g.interest_type == f.interest_type && g.first_name == f.first_name && g.last_name == f.last_name
    ensures g.phone == f.phone && g.email == f.email && g.profession == f.profession && g.referred_by == f.referred_by
  {
    match field
    case BusinessOpportunities => f.(business_opportunities := s)
    case WealthSolutions => f.(wealth_solutions := s)
    case PreferredDays => f.(preferred_days := s)
    case PreferredTime => f.(preferred_time := s)
  }

  // ---------------------------------------------------------------------------
  // Submission

  /** The request payload: the six free-text fields trimmed, every other field copied. */
  function Normalize(f: FormData): (p: FormData)
    ensures p.email == Trim(f.email) && p.phone == Trim(f.phone)
    ensures p.first_name == Trim(f.first_name) && p.last_name == Trim(f.last_name)
    ensures p.profession == Trim(f.profession) && p.referred_by == Trim(f.referred_by)
    ensures p.interest_type == f.interest_type
    ensures forall field :: Selection(p, field) == Selection(f, field)
  {
    f.(email := Trim(f.email), phone := Trim(f.phone), first_name := Trim(f.first_name),
       last_name := Trim(f.last_name), profession := Trim(f.profession), referred_by := Trim(f.referred_by))
  }

  lemma BlankAfterTrim(s: string)
    ensures IsBlank(Trim(s)) == IsBlank(s)
  {
    TrimIdempotent(s);
  }

  /** Normalising is idempotent, and it neither makes a ready form unready nor the reverse. */
  lemma NormalizeKeepsReadiness(f: FormData)
    ensures Normalize(Normalize(f)) == Normalize(f)
    ensures CanSubmit(Normalize(f)) == CanSubmit(f)
  {
    TrimIdempotent(f.email);
    TrimIdempotent(f.phone);
    TrimIdempotent(f.first_name);
    TrimIdempotent(f.last_name);
    TrimIdempotent(f.profession);
    TrimIdempotent(f.referred_by);
    ValidityIgnoresSurroundingSpace(f.email);
  }

  const NotReadyMessage := "Please complete all required fields before submitting."
  const SubmissionFailedMessage := "Submission failed."
  const FallbackMessage := "Something went wrong. Please try again."

  /**
   * What `supabase.functions.invoke` settles with: a transport error carrying a message,
   * or the handler's envelope, reduced to the truthiness of `data.ok` and to `data.error`
   * ("" when absent).
   */
  datatype InvokeOutcome = FnError(message: string) | Replied(ok: bool, error: string)

  predicate Succeeded(o: InvokeOutcome) {
    o.Replied? && o.ok
  }

  /** The message shown after a failed call: the carried message when there is one, else a fixed fallback; never empty. */
  function FailureMessage(o: InvokeOutcome): (m: string)
    requires !Succeeded(o)
    ensures m != ""
    ensures o.FnError? && o.message != "" ==> m == o.message
    ensures o.Replied? && o.error != "" ==> m == o.error
    ensures o.FnError? && o.message == "" ==> m == FallbackMessage
    ensures o.Replied? && o.error == "" ==> m == SubmissionFailedMessage
  {
    match o
    case FnError(msg) => if msg != "" then msg else FallbackMessage
    case Replied(_, err) => if err != "" then err else SubmissionFailedMessage
  }

  /** The form component's state. */
  class FormState {
    var formData: FormData
    var submitting: bool
    var submitted: bool
    var error: string

    constructor ()
      ensures formData == EmptyForm() && !submitting && !submitted && error == ""
    {
      formData := EmptyForm();
      submitting := false;
      submitted := false;
      error := "";
    }

    /** `toggleArray(field, id)`: only the named selection changes, to its toggle. */
    method ToggleArray(field: SelectionField, id: string)
      modifies this
      ensures formData == WithSelection(old(formData), field, Toggle(Selection(old(formData), field), id))
      ensures submitting == old(submitting) && submitted == old(submitted) && error == old(error)
    {
      var members := Dedup(Selection(formData, field));  // new Set(prev[field])
      if id in members {
        members := Without(members, id);
      } else {
        members := members + [id];
      }
      formData := WithSelection(formData, field, members);
    }

    /**
     * `handleSubmit`, with the outcome of the one `invoke` call as a parameter. Returns the
     * payload sent, or None when the form was not ready and no call was made.
     */
    method HandleSubmit(outcome: InvokeOutcome) returns (request: Option<FormData>)
      modifies this
      ensures formData == old(formData)
      ensures request.Some? <==> CanSubmit(old(formData))
      ensures request.None? ==> error == NotReadyMessage && submitting == old(submitting) && submitted == old(submitted)
      ensures request.Some? ==> request.value == Normalize(old(formData)) && !submitting
      ensures request.Some? ==> submitted == (old(submitted) || Succeeded(outcome))
      ensures request.Some? && Succeeded(outcome) ==> error == ""
      ensures request.Some? && !Succeeded(outcome) ==> error == FailureMessage(outcome)
    {
      error := "";
      if !CanSubmit(formData) {
        error := NotReadyMessage;
        return None;
      }
      submitting := true;
      var payload := Normalize(formData);
      request := Some(payload);
      if Succeeded(outcome) {
        submitted := true;
      } else {
        error := FailureMessage(outcome);
      }
      submitting := false;
    }
  }
}

# CAN registration: a verified model of the form and the intake function

This project models the two halves of the CAN Thrive Together Network
registration flow. On the client side is the React registration form. On the
server side is the Deno edge function `register`, which validates the posted
record, inserts it into `client_registrations` and mails a confirmation.

Client side (`src/components/RegistrationForm.jsx`):
- the e-mail check;
- the two section-visibility predicates;
- the submit-readiness predicate;
- the multi-select toggle;
- the submit step, as a method on a form-state class.

Server side (`supabase/functions/register/index.ts`):
- the HTML escaper, the label lookup and the capitalisation helpers;
- the loop that collects missing fields;
- the early-return validation cascade;
- the construction of the inserted record;
- the texts the confirmation mail interpolates;
- the mapping from request and call outcomes to an HTTP status and a trace of the calls made.

A last module connects the two sides. It shows that, for values the form's own
controls produce, the payload the form sends passes the server's checks exactly
when the form allows sending, and what the inserted record then holds.

Modules, one per file:

| file | module | contents |
|---|---|---|
| wrappers.dfy | Wrappers | `Option` |
| js_text.dfy | JsText | JavaScript `trim()` over a fixed whitespace set, ASCII `toLowerCase`/`toUpperCase`, `Array.prototype.join` |
| js_value.dfy | JsValue | JSON values as the handler sees them, truthiness, `String(v)` |
| interest.dfy | Interest | the interest types and the two section predicates |
| email.dfy | Email | the regular expression `^[^\s@]+@[^\s@]+\.[^\s@]+$` on the trimmed text, as a hand-written matcher, with its shape characterisation |
| registration_form.dfy | RegistrationForm | form record, `canSubmit`, the toggle, the payload, class `FormState` |
| html.dfy | Html | `escapeHtml`, `labelsFor`, `titleCase`, `interestTypeFormatted`, the label tables |
| register_function.dfy | Register | the missing list, the cascade, the record, the mail summary, the handler (`Intake` as a function, `Handle` as a method) |
| end_to_end.dfy | EndToEnd | the form's payload as the handler's body |

The external calls are inputs to the model:
- the database insert;
- the two Mailjet sends;
- `supabase.functions.invoke` on the client.

The handler returns its response together with the list of calls it made, so
properties such as "nothing is mailed after a failed insert" can be stated.

Behaviour of the code worth noting:
- **Trailing space in an e-mail.** `"a@b.c "` is accepted: both the form and the handler trim before matching (`Email.AcceptsTrailingSpace`). An embedded space is rejected (`Email.RejectsEmbeddedSpace`).
- **Failed admin copy.** A non-2xx answer to the admin send is ignored (`Register.AdminAnswerIgnored`). The client send (supabase/functions/register/index.ts:238) and the admin send (supabase/functions/register/index.ts:256) both await a `fetch` (supabase/functions/register/index.ts:216) with no `catch`. If either throws, the handler throws after the insert, and the runtime answers 500 (`Register.SuccessIff`).
- **`preferred_time`.** The server declares it a single `"AM" | "PM"` (supabase/functions/register/index.ts:13). The form sends an array (src/components/RegistrationForm.jsx:46), and the handler stores whatever value it received. The model keeps it a JSON value, so an empty array counts as missing (`Register.EmptyTimeArrayIsMissing`).

## Model

| member | source | states |
|---|---|---|
| RegistrationForm.CanSubmit | src/components/RegistrationForm.jsx:59-75 | the form may be sent when the interest type is set, the four typed texts and `referred_by` are not blank, the e-mail is valid, a day and a time are chosen, and each shown section has a selection; `EndToEnd.ReadyIffAccepted` ties it to the server's checks |
| Email.MatchesPattern | src/components/RegistrationForm.jsx:32 | the regular expression `^[^\s@]+@[^\s@]+\.[^\s@]+$` as a split at an '@'; `Email.MatchesPatternIffShape` states its meaning |
| Email.IsValidEmail | src/components/RegistrationForm.jsx:31-33 | the pattern tested against the trimmed text, the same on both sides (supabase/functions/register/index.ts:51-53); see `Email.ValidityIgnoresSurroundingSpace` |
| Interest.ShowEntrepreneurship | src/components/RegistrationForm.jsx:56 | the business section applies to "entrepreneurship" and "both" (supabase/functions/register/index.ts:99); see `Interest.SectionsOfOfferedTypes` |
| Interest.ShowClient | src/components/RegistrationForm.jsx:57 | the wealth section applies to "client" and "both" (supabase/functions/register/index.ts:100); see `Interest.SectionsOfOfferedTypes` |
| Html.EscapeHtml | supabase/functions/register/index.ts:38-45 | the five `replaceAll` steps in order; `Html.EscapeHtmlIsCharwise` and `Html.UnescapeInvertsEscape` state what they amount to |
| JsValue.ToJsString | supabase/functions/register/index.ts:91 | `String(v)` for a JSON value: arrays joined with commas, nullish elements empty; `JsValue.StrArrayToString` states it on string arrays |
| Register.IsMissing | supabase/functions/register/index.ts:91 | a required value is missing when falsy or blank after `String(v).trim()`; see `EndToEnd.TextMissingIffBlank` |
| Register.EmailText | supabase/functions/register/index.ts:52 | the text `isValidEmail` tests: `String(email \|\| "")` |
| Register.InterestTypeOf | supabase/functions/register/index.ts:98 | `String(body.interest_type \|\| "").toLowerCase()`; see `Register.InterestCaseIgnored` |
| Register.Validate | supabase/functions/register/index.ts:86-118 | the first failing check, or none: invalid e-mail, then each shown section without a selection, then the missing list; `Register.AcceptedIff` and `Register.InvalidEmailFirst` state it |
| Register.RecordOf | supabase/functions/register/index.ts:133-146 | `payloadToInsert`; `Register.RecordShape` states its fields |
| Register.ItemText | supabase/functions/register/index.ts:190 | one list item: the escaped label of an id, or the id itself when it has no label |
| Register.Items | supabase/functions/register/index.ts:190 | one list item per selected id, in order; see `Register.ItemsOfStrings` |
| Register.SummaryOf | supabase/functions/register/index.ts:171-201 | the values the mail template shows, each typed text escaped and the interest type formatted; see `Register.SummaryEscapesTypedText` |
| Register.Intake | supabase/functions/register/index.ts:66-84 | the method checks and the body parse, then `Answer`; `Register.IntakeCases` and `Register.StatusCodes` state its outcomes |
| Register.Answer | supabase/functions/register/index.ts:86-154 | a refused body gets 400 and no external call, an accepted one is stored and mailed; see `Register.RejectedBodyTouchesNothing` |
| Register.Persist | supabase/functions/register/index.ts:148-262 | insert, then client mail, then the optional admin copy, each only after the one before succeeded; see `Register.PersistStatus` and `Register.PersistEffects` |
| Email.MatchesPatternIffShape | src/components/RegistrationForm.jsx:31-33 | the matcher accepts a text exactly when it is `L "@" X "." Y`, with L, X and Y non-empty and free of whitespace and '@' (X and Y may hold dots) |
| Email.ValidityIgnoresSurroundingSpace | supabase/functions/register/index.ts:51-53 | trimming first never changes the verdict of `isValidEmail` |
| Email.ValidEmailIsNotBlank | src/components/RegistrationForm.jsx:31-33 | a valid address is never empty or blank |
| Email.PatternHasOneAtNoSpace | src/components/RegistrationForm.jsx:32 | an accepted text has no whitespace, contains an '@', and has exactly one |
| Email.TwoAtsRejected | src/components/RegistrationForm.jsx:32 | two '@' anywhere reject the text |
| Email.SpaceRejected | src/components/RegistrationForm.jsx:32 | a whitespace character inside the trimmed text rejects it |
| Email.RejectsWithoutAt | src/components/RegistrationForm.jsx:32 | "abc" is rejected |
| Email.RejectsWithoutDot | src/components/RegistrationForm.jsx:32 | "a@b" is rejected |
| Email.AcceptsSimpleAddress | src/components/RegistrationForm.jsx:32 | "a@b.co" is accepted |
| Email.RejectsSecondAt | src/components/RegistrationForm.jsx:32 | "a@b@c.co" is rejected |
| Email.RejectsEmbeddedSpace | src/components/RegistrationForm.jsx:32 | "a@b.c d" is rejected |
| Email.AcceptsTrailingSpace | src/components/RegistrationForm.jsx:32 | "a@b.c " is accepted, because the text is trimmed before matching |
| JsText.Trim | supabase/functions/register/index.ts:91 | `trim()` leaves no leading or trailing whitespace and never lengthens the text |
| JsText.TrimIsInfix | supabase/functions/register/index.ts:91 | the trimmed text is the original with only whitespace cut from each end |
| JsText.TrimIdempotent | src/components/RegistrationForm.jsx:101-106 | trimming twice is trimming once |
| JsText.TrimEmptyIffAllSpace | supabase/functions/register/index.ts:91 | the trimmed text is empty exactly when the text is all whitespace |
| JsText.Lower | supabase/functions/register/index.ts:98 | `toLowerCase` keeps the length and maps each character on its own |
| JsText.LowerIdempotent | supabase/functions/register/index.ts:98 | lower-casing twice is lower-casing once |
| JsValue.StrArrayToString | supabase/functions/register/index.ts:91 | `String` of an array of strings is its elements joined by "," |
| Interest.SectionsOfOfferedTypes | src/components/RegistrationForm.jsx:56-57 | "entrepreneurship" shows only the business section, "client" only the wealth section, "both" shows the two |
| Interest.OtherTypesShowNoSection | supabase/functions/register/index.ts:98-100 | any other interest type shows neither section |
| RegistrationForm.EmptyFormCannotSubmit | src/components/RegistrationForm.jsx:36-48 | the freshly opened form is not ready to submit |
| RegistrationForm.HiddenSectionIgnored | src/components/RegistrationForm.jsx:71-73 | the selection of a hidden section never changes readiness |
| RegistrationForm.VisibleSectionRequired | src/components/RegistrationForm.jsx:71-73 | a shown section with no selection blocks submission |
| RegistrationForm.Dedup | src/components/RegistrationForm.jsx:79 | `Array.from(new Set(xs))` has no duplicates and the same members as `xs`, and is `xs` itself when `xs` has none |
| RegistrationForm.Without | src/components/RegistrationForm.jsx:80 | `delete` removes exactly the one id and keeps the list duplicate-free |
| RegistrationForm.Toggle | src/components/RegistrationForm.jsx:77-84 | after the toggle the id is a member exactly when it was not before, every other member is kept, and the result has no duplicates |
| RegistrationForm.ToggleTwiceSameMembers | src/components/RegistrationForm.jsx:79-82 | toggling the same id twice gives back the same members |
| RegistrationForm.ToggleAppends | src/components/RegistrationForm.jsx:81-82 | a new id is appended at the end |
| RegistrationForm.ToggleTwiceRestores | src/components/RegistrationForm.jsx:79-82 | toggling a new id in and out gives back exactly the original list |
| RegistrationForm.ToggleTwiceMovesToEnd | src/components/RegistrationForm.jsx:79-82 | toggling a present id out and in moves it to the end, so the order may change |
| RegistrationForm.WithSelection | src/components/RegistrationForm.jsx:82 | the spread update replaces the one named selection and keeps every other field |
| RegistrationForm.Normalize | src/components/RegistrationForm.jsx:98-107 | the payload trims exactly email, phone, first_name, last_name, profession and referred_by, and copies every other field |
| RegistrationForm.NormalizeKeepsReadiness | src/components/RegistrationForm.jsx:59-75 | the payload is ready exactly when the form is, and normalising again changes nothing |
| RegistrationForm.FailureMessage | src/components/RegistrationForm.jsx:114-121 | the shown error is the carried message when non-empty, "Submission failed." or the fixed fallback otherwise, never empty |
| RegistrationForm.FormState.constructor | src/components/RegistrationForm.jsx:36-54 | the form opens empty, not submitting, not submitted and without an error |
| RegistrationForm.FormState.ToggleArray | src/components/RegistrationForm.jsx:77-84 | only the named selection changes, to its toggle; the other state is kept |
| RegistrationForm.FormState.HandleSubmit | src/components/RegistrationForm.jsx:86-125 | a form that is not ready gets the fixed error and no call is made; otherwise the normalised payload is sent, `submitted` becomes true only on an `ok` reply, the error is the failure message, and `submitting` is false on exit |
| Html.EscapeHtmlIsCharwise | supabase/functions/register/index.ts:38-45 | the five passes, with '&' first, equal escaping each character on its own |
| Html.EscapedHasNoMarkup | supabase/functions/register/index.ts:38-45 | the escaped text holds no '<', '>', '"' or '\'' |
| Html.EscapedAmpersandsBeginEntities | supabase/functions/register/index.ts:38-45 | every '&' of the escaped text begins one of the five entities |
| Html.UnescapeInvertsEscape | supabase/functions/register/index.ts:38-45 | decoding the five entities from left to right gives back the input |
| Html.PlainTextUnchanged | supabase/functions/register/index.ts:38-45 | text free of the five characters is copied unchanged |
| Html.LabelsFor | supabase/functions/register/index.ts:47-49 | the result has the length of the ids; each element is the label when the table has one and the id itself otherwise; a missing list gives [] |
| Html.KnownIdsGetLabels | supabase/functions/register/index.ts:47-49 | ids that are all in the table come out as labels only |
| Html.UnknownIdsPassThrough | supabase/functions/register/index.ts:47-49 | ids that are none of them in the table come out unchanged |
| Html.TitleCase | supabase/functions/register/index.ts:55-58 | "" stays "", otherwise the length is kept, the first character is upper-cased and the rest is kept |
| Html.TitleCaseIdempotent | supabase/functions/register/index.ts:55-58 | capitalising twice is capitalising once |
| Html.InterestTypeFormatted | supabase/functions/register/index.ts:156-157 | the special case for "both" agrees with `titleCase`, so the result is `titleCase` of the type |
| Html.FormattedEntrepreneurship | supabase/functions/register/index.ts:156-157 | "entrepreneurship" is shown as "Entrepreneurship" |
| Html.FormattedClient | supabase/functions/register/index.ts:156-157 | "client" is shown as "Client" and "both" as "Both" |
| Register.MissingAmong | supabase/functions/register/index.ts:86-92 | the list names, in the order checked, exactly the checked keys whose values are falsy or blank |
| Register.MissingFieldsSpec | supabase/functions/register/index.ts:86-93 | the missing list names a required field exactly when it is missing, and "preferred_days" exactly when the days are not a non-empty array, placed last; it names nothing else |
| Register.EmptyTimeArrayIsMissing | supabase/functions/register/index.ts:91 | an empty `preferred_time` array counts as missing |
| Register.AcceptedIff | supabase/functions/register/index.ts:86-118 | a body is accepted exactly when no required field is missing, the days are a non-empty array, the e-mail is valid and each shown section has a selection |
| Register.InvalidEmailFirst | supabase/functions/register/index.ts:94-96 | an invalid e-mail is reported whatever else is wrong |
| Register.SectionsBeforeMissing | supabase/functions/register/index.ts:102-118 | for a valid e-mail, a shown section without a non-empty selection array is reported (as one of the two section errors) before any missing field |
| Register.IncompleteNeverNamesEmail | supabase/functions/register/index.ts:94-118 | a "Missing: ..." error never names `email` |
| Register.OtherInterestRequiresNoSection | supabase/functions/register/index.ts:98-111 | an interest type other than the three requires neither selection |
| Register.InterestCaseIgnored | supabase/functions/register/index.ts:98 | an interest type and its lower-cased form are validated alike |
| Register.MissingFieldNamed | supabase/functions/register/index.ts:113-118 | a missing required field in a body whose e-mail and sections pass is named in the "Missing: ..." refusal |
| Register.BlankReferredByNamed | supabase/functions/register/index.ts:88-93 | a whitespace-only `referred_by` is named among the missing fields |
| Register.RecordShape | supabase/functions/register/index.ts:133-146 | the record has status "new" and the lower-cased interest type, each of the six texts is `String(v).trim()` of the value sent, profession defaulted to "" when nullish, each of the three arrays defaulted to `[]` when nullish and copied as sent otherwise, and `preferred_time` untouched |
| Register.AcceptedRecordTexts | supabase/functions/register/index.ts:133-146 | the record of an accepted body has non-empty names, phone and referrer, and a valid e-mail |
| Register.AcceptedRecordSelections | supabase/functions/register/index.ts:133-146 | the record of an accepted body has non-empty days and a selection in each shown section |
| Register.ItemsOfStrings | supabase/functions/register/index.ts:190 | the list items are the escaped results of `labelsFor` |
| Register.SummaryEscapesTypedText | supabase/functions/register/index.ts:171-201 | the name, referrer, phone, e-mail, profession and every list item reach the mail escaped |
| Register.InterestShownUnescaped | supabase/functions/register/index.ts:176 | the interest type reaches the mail unescaped: a '<' in it is shown |
| Register.CollectMissing | supabase/functions/register/index.ts:86-93 | the loop builds exactly the missing list |
| Register.Check | supabase/functions/register/index.ts:94-118 | the early returns give exactly the cascade's verdict |
| Register.Process | supabase/functions/register/index.ts:86-262 | a parsed body is answered as the handler specifies |
| Register.Store | supabase/functions/register/index.ts:148-262 | the insert-then-send steps give exactly the specified response and calls |
| Register.Handle | supabase/functions/register/index.ts:66-263 | the handler gives exactly the specified response and calls for every request and every outcome of the calls |
| Register.AnswerCases | supabase/functions/register/index.ts:94-154 | a parsed body is refused with the first failing check's message and nothing called, or its record goes on to the insert |
| Register.IntakeCases | supabase/functions/register/index.ts:66-118 | every case of a request, up to the insert |
| Register.PreflightAnswered | supabase/functions/register/index.ts:67-69 | OPTIONS gets 200 "ok" and nothing is called |
| Register.OtherMethodsRefused | supabase/functions/register/index.ts:71-73 | any other method but POST gets 405 and nothing is called |
| Register.BadJsonRejected | supabase/functions/register/index.ts:75-83 | a body that is not JSON gets 400 "Invalid JSON" and nothing is called |
| Register.RejectedBodyTouchesNothing | supabase/functions/register/index.ts:94-118 | a refused body gets 400 with its message and nothing is called |
| Register.InsertFailureSendsNothing | supabase/functions/register/index.ts:148-154 | a failed insert gets 500 with the database's message, and no mail is sent |
| Register.MailFailureAfterInsert | supabase/functions/register/index.ts:237-251 | a refused confirmation gets 502 with the provider's detail, after the record was inserted, and no admin copy is sent |
| Register.PersistStatus | supabase/functions/register/index.ts:148-262 | the flow answers 200, 500 or 502; 200 exactly when insert and confirmation succeeded and the admin copy, if sent, did not throw; 502 exactly on a refused confirmation |
| Register.PersistEffects | supabase/functions/register/index.ts:148-257 | the insert comes first, the confirmation to the submitter only after a successful insert, the admin copy only after a delivered confirmation and when an address is set; every mail shows the inserted record |
| Register.PersistIgnoresAdminAnswer | supabase/functions/register/index.ts:253-257 | the admin send's answer changes nothing unless its `fetch` throws |
| Register.AdminAnswerIgnored | supabase/functions/register/index.ts:253-262 | for every request, the admin answer changes neither response nor calls unless it throws |
| Register.SuccessIff | supabase/functions/register/index.ts:66-262 | a request succeeds exactly when it is a POST whose body passes, the insert succeeds, the confirmation is delivered, and any admin copy does not throw |
| Register.StatusCodes | supabase/functions/register/index.ts:66-262 | every status is 200, 400, 405, 500 or 502; 400 exactly for bad JSON or a refused body, with nothing called; 502 exactly for a refused confirmation after an insert |
| Register.EffectsOrder | supabase/functions/register/index.ts:133-257 | a request inserts exactly when its body passes; the mails come after the insert and show its record; the counts follow the outcomes |
| EndToEnd.ReadyIffAccepted | src/components/RegistrationForm.jsx:59-107 | for a form filled through its own controls, the handler accepts the sent payload exactly when the form lets it be sent |
| EndToEnd.RequiredAgree | supabase/functions/register/index.ts:86-93 | the server finds every required field present exactly when the form finds it filled |
| EndToEnd.TimesMissingIffEmpty | src/components/RegistrationForm.jsx:380-386 | a selection of offered times is missing on the server exactly when it is empty |
| EndToEnd.RecordFromForm | supabase/functions/register/index.ts:133-146 | the record inserted for the form's payload holds the chosen interest type, the six texts as typed but trimmed, and the selections as sent |
| EndToEnd.OfferedOptionsLabelled | src/components/RegistrationForm.jsx:7-26 | every option the form offers has a label on the server |

## Left out

- JSX markup, animation, icons, styles and the logo are not modelled. They have no behaviour to state.
- The HTML template text is not modelled. The mail is modelled as its envelope plus the record whose summary (`SummaryOf`) it interpolates. `FROM_NAME` and `LOGO_URL` are not modelled.
- The admin copy's heading swap (`htmlBody.replace`) is modelled as a separate heading field, not as a string replacement in the HTML.
- The `FROM`/`BCC` addresses, the Mailjet request body and `btoa` are not modelled. They are I/O.
- The Supabase insert, the Mailjet `fetch` and `supabase.functions.invoke` are foreign calls. Their outcomes are parameters.
- How `supabase-js` turns a non-2xx reply into `fnError` is not modelled. `InvokeOutcome` takes the call's settled result as given.
- `Deno.env.get` is modelled only for `ADMIN_NOTIFY_EMAIL`. A missing `SUPABASE_URL` or `SUPABASE_SERVICE_ROLE_KEY` makes `createClient` (supabase/functions/register/index.ts:131) throw after validation, so the runtime answers 500 and nothing is inserted; missing Mailjet keys or `FROM_EMAIL` make the sends fail. This misconfiguration is not modelled: the model assumes the environment is set.
- Unicode detail is not modelled:
  - `trim()` and `\s` use a fixed set of whitespace characters.
  - Upper- and lower-casing are ASCII only.
  - Characters are code points, not UTF-16 units.
- JsValue.Obj: every JSON object stringifies to "[object Object]". An object whose own `toString` property is not a function (such as `{"toString": 1}`) makes `String(v)`, `join` and the label lookup throw a `TypeError` in the handler, so the runtime answers 500. Under a required key that throw happens before any check (supabase/functions/register/index.ts:91); as `profession` it happens before the insert (supabase/functions/register/index.ts:142); inside `preferred_days` or a shown selection it happens after the insert, when the mail is built (supabase/functions/register/index.ts:177, 190, 201). The model treats such values as ordinary objects. The "every request" claims of `Register.Handle`, `Register.Intake`, `Register.SuccessIff` and `Register.StatusCodes` therefore hold only for bodies without such objects.
- Response headers are not modelled. Every reply carries `corsHeaders`, and the JSON replies also set `Content-Type: application/json` (supabase/functions/register/index.ts:68, 72, 81, 95, 104, 109, 116, 152, 249, 261). A `Response` holds only the status and the body.
- JSON numbers are integers only. Floating point and `NaN` are not modelled.
- A JSON body that is `null` makes the handler throw on the property read. It is modelled as the runtime's 500 response. Any other JSON value reads like an object with none of the keys.
- `labelsFor` looks keys up in a plain JavaScript object, so a key such as `constructor` would find an inherited member. The model's label tables are maps without inherited keys.
- The declared `preferred_time: "AM" | "PM"` type is not modelled. The value is kept as the JSON value sent.
- The unused `emailSent`/`emailError` state is not modelled.
- Disabling the button while a request is in flight is UI concurrency and is not modelled.
- `console.error` is not modelled.
- EndToEnd.ReadyIffAccepted: holds only for values the form's controls produce. The form compares the interest type as it is, while the server lower-cases it. A `preferred_time` made only of whitespace would be non-empty for the form and blank for the server.

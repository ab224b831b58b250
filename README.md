# BlueCheck Inspections: inquiry store and booking form

This project models the booking path of BlueCheck Inspections, a building-inspection website:

- the back end's `contact_inquiries` collection;
- its five endpoints: create, list, get one, update status and statistics;
- the contact form's client-side validation, including the exact JavaScript semantics of `trim`, `\s` and the two regular expressions the form uses;
- the form's per-keystroke update of its state;
- the mapping from form fields to the request body, and the reset after a successful submission.

Modules, in dependency order:

- `Wrappers`: `Option` and `Result`.
- `InquiryModel`:
  - the two enums and their wire strings;
  - the request body as received (`Payload`, with every key possibly missing or `null`);
  - the constraint table of `ContactInquiryCreate`, and validation, which yields the accepted record or the exact set of failing fields;
  - the stored record `ContactInquiry` and its defaults.
- `InquiryQueries`: pure functions over a snapshot of the collection: lookup by id, the status filter, the sort by `created_at` descending and the limit, the counts, and the status update.
- `Store`: the class `InquiryStore`.
  - Its state is the collection as a sequence in insertion order, plus a fresh-id supply standing for uuid4.
  - `Valid()` is the store's invariant: the validator's normal forms are stable (`NormalFormStable`), ids are unique and below the supply, every stored record is within the length bounds, and every stored address is its own normal form. `List` and `Get` rely on the last two to show that re-validation on read passes.
  - Each endpoint is a method or a `reads` function with its HTTP error cases.
- `JsStrings`: `String.prototype.trim`, the `\s` class, the unanchored `/\S+@\S+\.\S+/` and the anchored `/^[\d\s\-\+\(\)]+$/`.
  - The membership test the email check performs is a scan for a shortest match. It is proved equivalent to the regular-expression semantics: some substring splits as nonspace+ `@` nonspace+ `.` nonspace+.
- `Contact`: the class `ContactForm`, with `formData`, `errors` and `isSubmitting`.
  - Its methods are `validateForm`, `handleInputChange` and `handleSubmit`.
  - Lemmas tie the body it sends to the back end's validation.

Environment inputs become parameters:

- The clock is the `now` argument, in integer seconds.
- The `EmailStr` validator is a function value `emailCheck: string -> Option<string>`. None rejects the address; `Some(e)` gives the normalised address that is stored.
  - The store requires that a normal form is accepted again unchanged (`NormalFormStable`). The source validates the address again whenever it builds a `ContactInquiry`: on create (server.py:105) and on every read (server.py:137, 152). The store's invariant shows that each such re-validation passes and changes nothing.
- The outcome of the form's `fetch` is the `requestOk` argument of `HandleSubmit`.

The model follows the code on these points, which a reader of the rest of the site might expect otherwise:

- There are two inspection types (`pre-purchase`, `new-home`), although the footer lists five services (Footer.jsx:97-101).
- For name, phone and property address the server checks only lengths (server.py:66-69). It neither trims nor checks the phone's characters.
- A status update answers a message and `"success"`, not the updated record.
- A list query returns at most `limit` records, 50 by default.

## Model

| member | source | states |
|---|---|---|
| InquiryModel.ParseInspectionType | backend/server.py:31-33 | an accepted string is exactly the value of the member returned; a rejected one is the value of no member |
| InquiryModel.ParseStatus | backend/server.py:35-40 | an accepted string is exactly the value of the member returned; a rejected one is the value of no member |
| InquiryModel.ParseTypeValue | backend/server.py:31-33 | parsing the wire value of an inspection type gives that type back |
| InquiryModel.ParseStatusValue | backend/server.py:35-40 | parsing the wire value of a status gives that status back |
| InquiryModel.PayloadFieldListed | backend/server.py:65-72 | the list of fields covers all seven fields of the creation model |
| InquiryModel.FailingFields | backend/server.py:65-72 | a field is reported iff it is listed and fails its declared constraint |
| InquiryModel.FieldAccepted | backend/server.py:66-72 | the constraint table of the creation model, one field at a time; defined by its body, and its meaning for the whole body is stated by `Validate` |
| InquiryModel.Validate | backend/server.py:65-72 | the body is accepted iff every field passes (min/max lengths 1-100, 8-20, 5-200, message at most 1000, the email validator, an enum inspection type, any preferred date); a rejection names exactly the failing fields and is never empty; an accepted record carries every field as sent, with the email normalised |
| InquiryModel.ValidateToPayload | backend/server.py:65-72 | a record within the bounds, with a normalised email, survives serialisation and validation unchanged |
| InquiryModel.ValidateRejectsEachBadField | backend/server.py:65-72 | any single failing field makes validation fail and is listed |
| InquiryModel.NewInquiry | backend/server.py:52-63 | the record `ContactInquiry(**inquiry.dict())` builds, with its defaults; defined by its body, and its meaning is stated by `NewInquiryFromPayload` |
| InquiryModel.NewInquiryFromPayload | backend/server.py:52-63 | a record built from an accepted body has status `new`, both stamps at the call time, the given id, every submitted field, and lengths within the bounds |
| InquiryQueries.FindIndex | backend/server.py:149-151 | a found index is the first record with the id; not found iff no record has it |
| InquiryQueries.FindIndexSameIds | backend/server.py:166-169 | lookup depends only on the ids, so an update that keeps ids keeps lookups |
| InquiryQueries.Filter | backend/server.py:132-134 | the result contains each record iff it matches, with its multiplicity; no status means every record in order |
| InquiryQueries.HeadNewest | backend/server.py:136 | the head of a newest-first sequence is at least as new as every element |
| InquiryQueries.ConsSorted | backend/server.py:136 | an element no older than the rest, put in front, keeps the sequence newest first |
| InquiryQueries.TailSorted | backend/server.py:136 | the tail of a newest-first sequence is newest first |
| InquiryQueries.InsertBehindHead | backend/server.py:136 | inserting an element older than the head behind it keeps the order, the multiset and the membership facts |
| InquiryQueries.InsertDesc | backend/server.py:136 | inserting into a newest-first sequence keeps it newest first and adds exactly one element |
| InquiryQueries.SortByCreatedDesc | backend/server.py:136 | the result is ordered by `created_at` descending and is a permutation of the input |
| InquiryQueries.PrefixSplit | backend/server.py:136 | a prefix and the rest together are the whole sequence as a multiset |
| InquiryQueries.PrefixOrdered | backend/server.py:136 | a prefix of a newest-first sequence is newest first |
| InquiryQueries.DroppedNotNewer | backend/server.py:136 | in a newest-first sequence nothing past the cut is newer than the last element kept |
| InquiryQueries.SortedPrefix | backend/server.py:136 | the first n of a sorted permutation are ordered, drawn from the input, and no record left out is newer than one kept |
| InquiryQueries.ListQuery | backend/server.py:126-137 | exactly min(limit, matching) records, newest first, all matching and from the collection, all of them when the limit allows, and none left out newer than one returned |
| InquiryQueries.CountStatus | backend/server.py:193-195 | a per-status count is at most the total |
| InquiryQueries.CountType | backend/server.py:199-201 | a per-type count is at most the total |
| InquiryQueries.CountSince | backend/server.py:204-207 | the recent count is at most the total, and equals it iff every record is recent |
| InquiryQueries.CountStatusIsFilterSize | backend/server.py:192-195 | the per-status count of the statistics equals the number of records the listing's status filter (lines 132-134) keeps |
| InquiryQueries.StatusCountsSum | backend/server.py:189-195 | the five per-status counts sum to the total |
| InquiryQueries.TypeCountsSum | backend/server.py:189-201 | the two per-type counts sum to the total |
| InquiryQueries.SetStatus | backend/server.py:166-169 | the update keeps the collection's size |
| InquiryQueries.SetStatusAt | backend/server.py:166-169 | exactly the first record with the id gets the new status and `updated_at`; every other record is unchanged; a missing id changes nothing |
| InquiryQueries.SetStatusKeepsFields | backend/server.py:166-169 | the update keeps every id, `created_at` and every submitted field |
| InquiryQueries.SetStatusIdempotent | backend/server.py:166-174 | the record still matches after the update, and updating twice to the same status equals updating once at the later time |
| InquiryQueries.CountStatusCons | backend/server.py:193-195 | a status count of a sequence is its head's contribution plus the count of the rest |
| InquiryQueries.SetStatusCounts | backend/server.py:166-168 | an update moves the matched record, if there is one, from the count of its old status to the count of the new one; every other count stays |
| InquiryQueries.SetStatusKeepsTypeCounts | backend/server.py:166-168 | an update leaves every inspection-type count unchanged |
| Store.StatusBreakdownTotal | backend/server.py:192-195 | a breakdown keyed by the five status values sums to the total |
| Store.TypeBreakdownTotal | backend/server.py:198-201 | a breakdown keyed by the two type values sums to the total |
| Store.CountEachStatus | backend/server.py:192-195 | the loop over the five statuses: every status value is a key holding that status's count, there is no other key, and the counts sum to the size |
| Store.CountEachType | backend/server.py:198-201 | the loop over the two types: every type value is a key holding that type's count, there is no other key, and the counts sum to the size |
| Store.InquiryStore.constructor | backend/server.py:19-21 | a new store is empty and satisfies the invariant, given a validator whose normal forms are stable |
| Store.InquiryStore.Create | backend/server.py:97-124 | a rejected body answers 422 with the failing fields and changes nothing; an accepted one appends exactly one record with a fresh id, status `new` and both stamps now, and answers that id, the fixed message and "success"; every error is an HTTP 422; the stored address is the normal form, which the second validation at line 105 accepts unchanged; the invariant is kept |
| Store.InquiryStore.List | backend/server.py:126-141 | a non-enum status is a 422; a negative limit is a 500, and 422 answers exactly the bad status; otherwise the result is at most `limit` of the matching records, newest first, all of them when they fit, with no newer match left out; every returned record's address passes the re-validation of line 137 unchanged |
| Store.InquiryStore.Get | backend/server.py:143-158 | 404 iff no record has the id, and every error is an HTTP 404; otherwise the unique record with it, whose address passes the re-validation of line 152 unchanged |
| Store.InquiryStore.DefaultListing | backend/server.py:127 | the listing without parameters (`limit=50`) succeeds and holds every record when there are at most 50, or else the 50 newest, with no newer record left out |
| Store.InquiryStore.StatusCountIsListSize | backend/server.py:126-137 | the count a status gets in the statistics (lines 192-195) is the number of records the status-filtered listing answers when the limit does not cut it |
| Store.InquiryStore.UpdateStatus | backend/server.py:160-180 | a non-enum status is a 422 and a missing id a 404, both changing nothing, and the error's HTTP code is exactly that; otherwise the collection becomes the status update of the old one and the answer is the new status with "success"; the invariant is kept |
| Store.InquiryStore.GetStats | backend/server.py:183-214 | the total, every status and every type key with its count (and no other key), the count created since now minus seven days; both breakdowns sum to the total, and the recent count is at most the total |
| JsStrings.TrimStart | frontend/src/components/Contact.jsx:29 | leading whitespace removed; defined by its body, and its meaning is stated by `TrimStartMeaning` |
| JsStrings.TrimEnd | frontend/src/components/Contact.jsx:29 | trailing whitespace removed; defined by its body, and its meaning is stated by `TrimEndMeaning` |
| JsStrings.Trim | frontend/src/components/Contact.jsx:29 | `s.trim()`; defined by its body, and its meaning is stated by `TrimMeaning` |
| JsStrings.TrimStartMeaning | frontend/src/components/Contact.jsx:29 | removing leading whitespace keeps a suffix after an all-whitespace prefix, and does not start with whitespace |
| JsStrings.TrimEndMeaning | frontend/src/components/Contact.jsx:29 | removing trailing whitespace keeps a prefix before an all-whitespace suffix, and does not end with whitespace |
| JsStrings.TrimMeaning | frontend/src/components/Contact.jsx:29 | `trim()` is empty iff the string is all whitespace, and neither end of a nonempty result is whitespace |
| JsStrings.HasEmailMatch | frontend/src/components/Contact.jsx:35 | the scan for a shortest match of `\S+@\S+\.\S+`; defined by its body, and its meaning is stated by `EmailMatchIff` |
| JsStrings.PhoneRegexTest | frontend/src/components/Contact.jsx:41 | `/^[\d\s\-\+\(\)]+$/.test(s)`: nonempty and every character a digit, a whitespace character or one of `-+()`; defined by its body, with examples in `PhoneWordsRefused` and `PhoneInternationalAccepted` |
| JsStrings.EmailMatchSound | frontend/src/components/Contact.jsx:35 | a shortest match found by the scan extends to a substring in the regular language |
| JsStrings.EmailMatchComplete | frontend/src/components/Contact.jsx:35 | every substring in the regular language contains a shortest match |
| JsStrings.EmailMatchIff | frontend/src/components/Contact.jsx:35 | the scan decides the unanchored regular-expression test exactly |
| Contact.WithField | frontend/src/components/Contact.jsx:125-128 | the named field takes the value and every other field keeps its own |
| Contact.FieldError | frontend/src/components/Contact.jsx:29-47 | the message each check of `validateForm` records, as the code performs it; defined by its body, and its meaning is stated by `FieldErrorMeaning` |
| Contact.FieldErrorMeaning | frontend/src/components/Contact.jsx:29-47 | a blank name, email, phone or address gets its "required" message, which takes precedence; a nonblank email without a substring of the email shape, or a nonblank phone with a character outside digits, whitespace and `-+()`, gets its format message; the other three fields are never checked |
| Contact.FormValidIff | frontend/src/components/Contact.jsx:26-50 | the form is valid iff no field has an error |
| Contact.ErrorsAgree | frontend/src/components/Contact.jsx:27-47 | an error map that agrees on the four checked fields and has no key for the other three agrees on every field |
| Contact.NoErrorsIff | frontend/src/components/Contact.jsx:49-50 | an error map built this way is empty iff the form is valid |
| Contact.ClearError | frontend/src/components/Contact.jsx:130-136 | no key is added or removed; the named field's entry becomes empty and the others stay |
| Contact.OrNull | frontend/src/components/Contact.jsx:74-75 | `x \|\| null` is null exactly for the empty string, and the string itself otherwise |
| Contact.ToSubmitData | frontend/src/components/Contact.jsx:68-76 | the snake_case body built from the form; defined by its body, and its meaning is stated by `SubmitDataRoundTrip` and `SubmittedFormAccepted` |
| Contact.SubmitDataRoundTrip | frontend/src/components/Contact.jsx:68-76 | the body loses nothing: the form can be read back from it |
| Contact.SubmittedFormAccepted | frontend/src/components/Contact.jsx:68-76 | a form within the back end's bounds, with a select option as its type and a normalised email, is accepted by the back end with every field as typed and empty optionals as null |
| Contact.BlankNameOnlyRefusedByForm | frontend/src/components/Contact.jsx:29-31 | a one-space name is refused by the form with "Full name is required" although it meets the server's length bounds |
| Contact.EmailWithoutAt | frontend/src/components/Contact.jsx:35-36 | "bob" gets the email format message |
| Contact.EmailPlainAccepted | frontend/src/components/Contact.jsx:35-36 | "bob@example.com" has no error |
| Contact.EmailBlankRequired | frontend/src/components/Contact.jsx:33-34 | a blank email gets "Email is required" rather than the format message |
| Contact.PhoneWordsRefused | frontend/src/components/Contact.jsx:41-42 | "call me" gets the phone format message |
| Contact.PhoneInternationalAccepted | frontend/src/components/Contact.jsx:41-42 | "+61 4 1234 5678" has no error |
| Contact.ContactForm.constructor | frontend/src/components/Contact.jsx:13-23 | the form starts empty with type `pre-purchase`, no errors and not submitting |
| Contact.ContactForm.ValidateForm | frontend/src/components/Contact.jsx:26-51 | the errors become exactly the failing fields with their messages, and the answer is true iff there are none, iff the form is valid |
| Contact.ContactForm.HandleInputChange | frontend/src/components/Contact.jsx:123-137 | the named field takes the value, its non-empty error is cleared, and nothing else changes |
| Contact.ContactForm.HandleSubmit | frontend/src/components/Contact.jsx:53-121 | an invalid form sends nothing and keeps its values with the new errors; a valid one sends its snake_case body, has no errors, and is reset to the initial values iff the request succeeded; the busy flag ends false |

## Left out

- Persistence, the web framework and the driver are not modelled: MongoDB, Motor, FastAPI routing, CORS, logging, `.env` loading and shutdown.
  - The collection is a sequence held by the store object.
  - Calls run one at a time: concurrent requests and async interleaving are not modelled.
- The 500 answers for a failed database call are not modelled: a failed insert, an exception in find, update or count, and `inserted_id` being falsy. Only the driver's rejection of a negative `limit` is modelled.
- The legacy `/api/status` endpoints and the root greeting are outside the inquiry core.
- uuid4 is a counter. Uniqueness is an invariant of the fresh-id supply rather than a probabilistic property of random ids.
- Timestamps are integer seconds from the `now` argument.
  - The two `default_factory` clock readings of a new record are one reading here; in the source they are microseconds apart.
  - The stats window converts with `utcnow().timestamp()` followed by `fromtimestamp`. The two local-time conversions cancel, except across a daylight-saving change, which is not modelled.
- `EmailStr` validation and normalisation are a function parameter; the model does not implement that library's rules.
- Store.InquiryStore.constructor: requires `NormalFormStable`, so a normalised address is accepted again unchanged. With a validator lacking that property, the source's re-validations at server.py:105, 137 and 152 could fail and answer 500, or store a twice-normalised address. The model does not cover those answers.
- Pydantic coercion of non-string JSON values is not modelled: every present field is a string.
- Strings are sequences of Unicode scalar values, so lengths are Python's `len` and no length is counted in the browser. The one string the model cannot represent is a lone surrogate, such as one sent as the JSON escape `\uD800`.
- `InquiryStore.UpdateStatus` answers the new status and `"success"`. The message text is left out because it depends on the Python version's enum formatting.
- `InquiryQueries.ListQuery` promises newest-first order but not the order among records with equal `created_at`. The database does not fix that order either; the model happens to sort stably.
- `InquiryStore.List` takes the limit as an argument. The endpoint's default of 50 is `DefaultLimit`, which the caller passes. `DefaultListing` states what that call answers.
- The rendering, toasts, console logging and notification texts of the form are not modelled.
- The `fetch` itself, the JSON decoding of the answer and the answer's message are not modelled. `fetch` sends the body to `${REACT_APP_BACKEND_URL}/api/contact/inquiry`. The outcome is the boolean `requestOk`: the request completed, the answer was a 2xx and the body parsed.
- `ContactForm.HandleSubmit` states only the state after the handler returns. The interval in which `isSubmitting` is true while the request is pending is not modelled.
- The date input's own checks on `preferredDate` are browser behaviour and are not modelled. The back end accepts any string there.
- The browser's own constraint checks run before the submit handler and are not modelled: the `required` attributes on the inputs and the select, and `type="email"` with its whitespace stripping (Contact.jsx:247-321). `ContactForm.HandleSubmit` is modelled as if every form reaches the handler.

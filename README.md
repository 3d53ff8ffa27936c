# Aerotraq intake handlers in Dafny

This project models the two lead-capture endpoints of the Aerotraq landing page. Both forward
a submission to an external spreadsheet-style record store (Airtable).

- **Operator intake** (`POST /api/submit-access`) runs four steps. It checks that `name`,
  `email` and `agreedToTerms` are truthy. It checks the email against
  `^[^\s@]+@[^\s@]+\.[^\s@]+$`. It maps the request onto the columns of the `Drone Inquiry`
  table, which includes the `"other"` use-case branch, the array coercion of `interest` and a
  submission date. It then creates one record. Any exception becomes a 500, with the message
  "Server configuration error" when the error's text names `API_KEY_INVALID` or
  `BASE_NOT_FOUND`.
- **Buyer intake** (`POST /api/submit-buyer`) runs the same two checks on `fullName` and
  `workEmail`. It then looks up `For Data Buyers` for a record with the same `Work Email` and
  answers 409 if one exists. Otherwise it maps the request onto the table's columns (no
  submission date) and creates one record. Every exception becomes the same generic 500.

Structure, one module per concern:

- `Json` covers request values, JavaScript truthiness, `v || ''` and the array-or-empty coercion.
- `Text` covers `includes` and `split('T')[0]`. `Find`, the first position of a character, is
  the helper behind the date part and the email check.
- `Email` covers the format check. The regular expression's language is a ghost predicate,
  `MatchesPattern`. The executable check is a plain predicate: one `@`, no whitespace, a
  non-empty local part, and a domain with an inner `.`. The two are proved equal.
- `Http` covers thrown values, body parsing, and responses.
- `RecordStore` covers records, the lookup with `maxRecords`, and a `Table` class whose
  `Create` appends a record.
- `OperatorIntake` and `BuyerIntake` are the two handlers. Each has a pure specification
  function `Step`, which maps the table's records and the request to the response and the
  records afterwards. Each also has an imperative `Submit` method on a `Table`. `Submit`
  follows the handler's statements in order and is proved equal to `Step`.

Calls the store decides are parameters. These are whether constructing the client, the
lookup or the create throws, and what it throws (a `Faults` value). The request timestamp is
also a parameter. The records a table holds are the state of the model.

The operator handler has no duplicate check. `RepeatedSubmissionsEachCreate` proves that two
identical valid operator submissions create two records.

Three predicates model source behaviour and are specified by the rows that name them:
`Json.Truthy` (the truthiness tests of app/api/submit-access/route.ts:30 and
app/api/submit-buyer/route.ts:26) by `Json.OrEmpty` and both `Validate` rows;
`Email.IsValidEmail` (the `emailRegex.test` of app/api/submit-access/route.ts:38-39) by
`Email.ValidEmailIsPattern` and the other `Email` rows; and `Text.Includes` (the
`message.includes` of app/api/submit-access/route.ts:82) by `Text.IncludesInfix` and
`OperatorIntake.ErrorMessage`.

## Model

| member | source | states |
|---|---|---|
| `Json.OrEmpty` | app/api/submit-access/route.ts:50-52 | `v \|\| ''` keeps a truthy value unchanged and turns every falsy value into `''`, so the result is never null, undefined, false or 0 |
| `Json.ArrayOrEmpty` | app/api/submit-access/route.ts:55 | `v && Array.isArray(v) ? v : []` always yields an array: the submitted one when it is an array, otherwise `[]` |
| `Text.DatePart` | app/api/submit-access/route.ts:58 | `split('T')[0]` is the longest prefix without `T`: it contains no `T`, it is a prefix of the input, and the input continues with `T` when it is longer |
| `Text.DatePartOfTimestamp` | app/api/submit-access/route.ts:58 | the date part of an ISO timestamp `<date>T<time>` is exactly `<date>` |
| `Text.IncludesInfix` | app/api/submit-access/route.ts:82 | `message.includes(code)` holds for every message that has `code` written inside it |
| `Email.ValidEmailIsPattern` | app/api/submit-access/route.ts:38-39 | the plain check accepts a string if and only if `^[^\s@]+@[^\s@]+\.[^\s@]+$` matches it |
| `Email.ValidEmailMatches` | app/api/submit-access/route.ts:38-39 | every string the plain check accepts splits as `local@host.tld`, with three non-empty parts of non-whitespace, non-`@` characters |
| `Email.MatchesAreValid` | app/api/submit-access/route.ts:38-39 | every string the regular expression matches has its only `@` after a non-empty local part, no whitespace, and a domain with an inner `.` |
| `Email.ValidEmailHasOneAt` | app/api/submit-access/route.ts:38 | an accepted address has exactly one `@` |
| `Email.NoAtRejected` | app/api/submit-access/route.ts:38-44 | a string without `@` (such as `not-an-email`) is rejected |
| `Email.NoDotRejected` | app/api/submit-access/route.ts:38-44 | `local@domain` with no `.` in the domain (such as `a@b`) is rejected |
| `Email.EmptyLocalRejected` | app/api/submit-access/route.ts:38-44 | a string starting with `@` (such as `@b.com`) is rejected |
| `Email.ValidFromParts` | app/api/submit-access/route.ts:38 | `local@domain` is accepted when the local part is non-empty, neither part has `@` or whitespace, and the domain has an inner `.` |
| `Email.ExampleAccepted` | app/api/submit-access/route.ts:38-44 | `jane@example.com` is accepted |
| `RecordStore.FirstMatches` | app/api/submit-buyer/route.ts:43-46 | the first page of a lookup is the first `maxRecords` records satisfying `{key} = 'value'` in table order, or all of them when fewer match: a prefix of `AllMatches` of length min(`maxRecords`, number of matches), each one a record of the table, and empty exactly when `maxRecords` is 0 or no record matches |
| `RecordStore.Table.Select` | app/api/submit-buyer/route.ts:43-46 | a lookup either throws the store's failure, or returns exactly the page `FirstMatches` gives over the table's current records: the first `maxRecords` matches in table order |
| `RecordStore.Table.Create` | app/api/submit-access/route.ts:62-66 | `create` either throws and leaves the table unchanged, or appends exactly one record with the given fields and returns its new identifier, which is the old record count and differs from the identifier of every record already in the table |
| `OperatorIntake.Validate` | app/api/submit-access/route.ts:30-44 | a falsy `name`, `email` or `agreedToTerms` gives 400 "Missing required fields…" before the format check; otherwise a failing email gives 400 "Invalid email format"; the request passes exactly when both checks do |
| `OperatorIntake.ApplicationFields` | app/api/submit-access/route.ts:47-59 | the field set has exactly the eleven `Drone Inquiry` columns. Name, Email and Terms Agreement are stored verbatim. Phone, company, role and challenge are the value or `''`. `"other"` gives `Other` plus the description or `''`. Any other use case is kept unchanged and the description is `''`. The interest column is the array or `[]`. The date is the given date |
| `OperatorIntake.ErrorMessage` | app/api/submit-access/route.ts:81-93 | the message is "Server configuration error" exactly when the thrown value is an `Error` whose message includes `API_KEY_INVALID` or `BASE_NOT_FOUND`, and "Failed to submit application. Please try again." otherwise |
| `OperatorIntake.Step` | app/api/submit-access/route.ts:6-95 | status is 201, 400 or 500. Every answer other than 201 leaves the records unchanged. 400 happens exactly when validation fails, and the response is then `Validate`'s rejection: "Missing required fields: name, email, and terms agreement are required" or "Invalid email format". 201 happens exactly when validation passes and no store call throws, and then one record holding the mapped fields and the date part of `now` is appended and its id returned. A 500 answers the value thrown by the first step that throws: constructing the client, `request.json()`, destructuring a `null` body, or `create`, with the catch block's message for that value |
| `OperatorIntake.Submit` | app/api/submit-access/route.ts:6-95 | the handler run against the `Drone Inquiry` table keeps the table well numbered, answers as `Step` does and leaves the table's records as `Step` says |
| `OperatorIntake.ConfigurationErrorReported` | app/api/submit-access/route.ts:81-87 | an `Error` whose message contains `API_KEY_INVALID` or `BASE_NOT_FOUND` anywhere is answered with "Server configuration error" |
| `OperatorIntake.CreateConfigurationErrorReported` | app/api/submit-access/route.ts:62-87 | a valid request whose `create` throws an `Error` with `API_KEY_INVALID` or `BASE_NOT_FOUND` in its message is answered 500 "Server configuration error" and adds no record |
| `OperatorIntake.RepeatedSubmissionsEachCreate` | app/api/submit-access/route.ts:62-75 | no lookup precedes the create: the same valid application submitted twice is answered 201 twice, with consecutive ids, and leaves two records with the same email |
| `OperatorIntake.RequiredFieldsOnly` | app/api/submit-access/route.ts:47-75 | a request with only a name, a valid email and `agreedToTerms: true` creates one record. It holds those three values and empty optional text, an undefined use case, an empty description, `[]` interests and the date of the timestamp |
| `BuyerIntake.Validate` | app/api/submit-buyer/route.ts:26-40 | a falsy `fullName` or `workEmail` gives 400 "Full Name and Work Email are required." before the format check; otherwise a failing email gives 400 "Invalid email format."; the request passes exactly when both checks do |
| `BuyerIntake.ApplicationFields` | app/api/submit-buyer/route.ts:55-69 | the field set has exactly the twelve `For Data Buyers` columns and no `Submission Date`. Full Name and Work Email are stored verbatim. Each of the nine optional text columns is the value or `''`. Data Interests is the array or `[]` |
| `BuyerIntake.Step` | app/api/submit-buyer/route.ts:4-90 | status is 201, 400, 409 or 500, and nothing but 201 changes the records. 400 happens exactly when validation fails, and the response is then `Validate`'s rejection: "Full Name and Work Email are required." or "Invalid email format.". 409 happens exactly when validation passes, the lookup succeeds and a record already carries the work email, and it always says "An application with this email address has already been submitted.". 201 happens exactly when there is no such record and no store call throws; one record is then appended and its id returned. Every 500 carries the single generic message |
| `BuyerIntake.Submit` | app/api/submit-buyer/route.ts:4-90 | the handler run against the `For Data Buyers` table keeps the table well numbered, answers as `Step` does and leaves the table's records as `Step` says |
| `BuyerIntake.StepKeepsWorkEmailsDistinct` | app/api/submit-buyer/route.ts:43-73 | in a sequential run no request adds a record whose work email is already in the table, so distinct work emails stay distinct |
| `BuyerIntake.ResubmissionConflicts` | app/api/submit-buyer/route.ts:43-82 | the same valid buyer application submitted twice is answered 201 and then 409, and the table grows by exactly one record |

## Left out

- `app/page.tsx` is not part of this model. It holds the page rendering, the modal state, the focus trap, the `fetch` calls, the reset timer and the client-side array coercion, all of which the handlers re-check or do not depend on.
- Client construction and environment variables are not modelled. Whether constructing the client throws, and what it throws, is a parameter of each request.
- The store's formula language is not modelled. The lookup is exact equality on `Work Email`. The format check accepts `'` and `\`, and the address is written into the formula unescaped. Such an address can make the formula malformed, which is covered only as a lookup that throws, answered with the generic 500. It can also make a well-formed formula that compares `Work Email` with a different string, which is not modelled.
- BuyerIntake.StepKeepsWorkEmailsDistinct: holds only because the modelled lookup is exact equality. An address with `'` or `\` that the store reads as another string can pass the lookup although its record exists, so a sequential resubmission could create a duplicate.
- BuyerIntake.ResubmissionConflicts: holds for the same reason. Such an address is not guaranteed a 409 on resubmission.
- The wall clock is not modelled. The handler receives the ISO timestamp `now` as a parameter.
- JSON parsing is not modelled. The body arrives already parsed, or as the exception `request.json()` throws. A `null` body makes the destructuring throw a `TypeError`. That error is modelled as a fixed `Error` whose message names no store code.
- `console.error` logging is not modelled.
- JSON numbers are integers here. Fractions and the truthiness of `NaN` are not modelled.
- An `undefined` column value (for example the use case when `droneUseCase` is absent) stays in the field set. JSON serialisation would drop that key before it reaches the store.
- OperatorIntake.Validate: a truthy `email` that is not a string always fails the format check. In JavaScript `regex.test` first converts it with `String()`, so an array whose comma-joined text is a valid address would pass.
- BuyerIntake.Validate: the same holds for a truthy `workEmail` that is not a string.
- RecordStore.Table.Create: a create that throws leaves the table unchanged. A real store could have written the record before the failure reached the handler.
- `RecordStore.Table.Create` sends one field set per call, which is all the handlers send. Record identifiers are table positions, not the store's opaque strings.
- Whether the store library's errors are `Error` instances is not modelled. It decides whether the configuration message can appear at all. The model takes each thrown value as given.
- The check-then-create race between concurrent buyer submissions is not modelled. Only sequential requests are. Under concurrency two requests with the same work email can both pass the lookup.

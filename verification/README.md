# Honest Customer Experience India: a Dafny model of the complaint-intake core

The application lets a consumer sign up, log in, and file a complaint ("case") against a
company. Each case has loss types and, optionally, a monetary loss. The consumer can then
follow their cases on a dashboard. All data lives in JSON files, one array per
collection (users, cases, updates, admins, config).

This project models the core of that application:

- **Storage.** `lib/storage.ts` becomes the class `Storage.JsonStorage`, whose `file`
  field is what the data file holds. Every mutator reads the whole array, changes it and
  writes it back; each method states the new file contents in terms of the old ones.
  `Storage.Collections` holds the five collections.
- **Validators.** The email and phone checks and `toStringArray` of `lib/utils.ts` become
  predicates and functions. The email check is proved equivalent to the regular
  expression it uses. The unit-test examples are proved as lemmas.
- **Routes.**
  - Signup (`SignupRoute`) and case filing (`CasesRoute.Post`) change collections, so they
    are methods over `Collections`. Listing cases (`CasesRoute.GetCases`) is also a method
    over `Collections`, but writes nothing.
  - Login (`LoginRoute`) and the YouTube configuration (`ConfigRoute`) only read, so they
    are functions of the collection contents.
  - Each route states every response it can give and what it stores.
- **Pages.** From the dashboard page, the status badge colour and status formatting. From
  the submit-case page, the loss-type toggle and the guard steps of submitting.

Everything the code calls but cannot be seen or is not deterministic becomes a
parameter:

| what the code calls | parameter |
|---|---|
| hashPassword | `hash` |
| comparePassword | `compare` |
| generateToken | `sign` |
| verifyToken | `verify` |
| generateId | `id`, `caseId`, `updateId` |
| `new Date().toISOString()` | `now` (signup, config); `createdAt`, `updatedAt`, `updateTime` (the three readings of case filing) |
| `new Date(createdAt).getTime()` | `key` |
| `parseFloat` | `parseFloat` |
| `JSON.parse` | `parseJson` |

JSON values are the datatype `Json.Value`, and records are maps from field names to
values. A request body that cannot be parsed, or that parses to `null`, is `None`: reading
a field of it throws, and the handlers answer 500. A body that parses to an array, a
string, a number or a boolean has no fields of its own, so it is a body whose every field
is missing (`Some(SignupBody("", "", "", ""))`, `Some(LoginBody("", ""))`, `Some(map[])`)
and is answered with 400.

Modules, one file each: `Wrappers`, `Json`, `Arrays` (find, findIndex, filter, map),
`Strings` (trim, split, join), `Types`, `Storage`, `Utils`, `UtilsExamples`,
`SignupRoute`, `LoginRoute`, `CasesRoute`, `ConfigRoute`, `Dashboard`, `SubmitCase`.

## Model

| member | source | states |
|---|---|---|
| Arrays.FirstIndex | lib/storage.ts:69 | the first index whose element satisfies the predicate; None (-1) exactly when no element does |
| Arrays.Find | lib/storage.ts:43 | None (`undefined`) exactly when no element satisfies the predicate; otherwise the first element that does |
| Arrays.Filter | lib/storage.ts:51 | the result is no longer than the input and holds only input elements that satisfy the predicate |
| Arrays.FilterMembership | lib/storage.ts:51 | an element is in the filtered array iff it is in the input and satisfies the predicate |
| Arrays.FilterConcat | lib/storage.ts:83 | filtering keeps relative order: the filter of a concatenation is the concatenation of the filters |
| Arrays.FilterMultiset | lib/storage.ts:51 | a kept element appears as often as in the input; a rejected one never appears |
| Arrays.FilterKeepsAll | lib/storage.ts:83 | a filter that rejects nothing returns its input unchanged |
| Arrays.FilterLength | lib/storage.ts:85 | the filtered array has the input's length iff every element satisfies the predicate |
| Arrays.AllAt | lib/utils.ts:58 | a string is a possibly empty run of the character class, `[\d\s-()]*`, iff each of its positions satisfies the class predicate; the `+` is Utils.IsValidPhone's separate nonempty condition |
| Arrays.AllConcat | lib/utils.ts:58 | a concatenation is a run of a character class iff both parts are |
| Arrays.Map | lib/utils.ts:82 | same length as the input, each element the function applied to the input element at that position |
| Arrays.MapConcat | lib/utils.ts:101 | mapping distributes over concatenation |
| Strings.TrimStart | lib/utils.ts:73 | a suffix of the input; everything cut is white space; it does not start with white space |
| Strings.TrimEnd | lib/utils.ts:73 | a prefix of the input; everything cut is white space; it does not end with white space |
| Strings.Trim | lib/utils.ts:73 | the result has no white space at either end |
| Strings.TrimSlice | lib/utils.ts:73 | trim keeps one contiguous slice of the input, and everything outside it is white space |
| Strings.TrimIdempotent | lib/utils.ts:73 | trimming twice is trimming once |
| Strings.Split | lib/utils.ts:81 | at least one piece; no piece holds the separator; joining the pieces with it gives the input back |
| Strings.Join | app/dashboard/page.tsx:74 | the pieces with the separator between neighbours; by Strings.Split and Strings.SplitUnique it is the inverse of splitting |
| Strings.SplitUnique | app/dashboard/page.tsx:72 | any separator-free pieces that join back to the string are exactly its split |
| Json.Get | app/api/auth/login/route.ts:29 | property access is defined exactly for the record's own fields and yields the stored value |
| Json.StrictlyEqual | app/api/auth/signup/route.ts:41 | `===` between values parsed separately: it holds only for equal values, and never for an array or object |
| Json.WithOptional | app/api/cases/route.ts:65 | an `undefined` value adds no field; a defined one sets its key; every other field is unchanged |
| Types.ParseStatus | lib/types.ts:12-18 | a parsed name is the stored name of the status it returns |
| Types.StatusNameRoundTrip | lib/types.ts:12-18 | the six status names are distinct: each parses back to its status |
| Types.PublicUser | app/api/auth/signup/route.ts:68-73 | the response's user object holds exactly the user's id, email, name and phone fields, with their values, and never the password |
| Types.TokenPayload | app/api/auth/signup/route.ts:61 | the token payload's userId is the user's id and its email the user's email; it has no other field |
| Storage.Merge | lib/storage.ts:73 | every field named by the updates takes the update's value, and one set to `undefined` is absent afterwards; every other field of the item is kept |
| Storage.MergeIdempotent | lib/storage.ts:73 | applying the same updates twice equals applying them once |
| Storage.JsonStorage.Contents | lib/storage.ts:19-28 | a missing, unreadable or malformed file reads as []; otherwise as the stored array |
| Storage.JsonStorage.constructor | lib/storage.ts:12-14 | the instance is bound to its file name and the file's current state |
| Storage.JsonStorage.ReadAll | lib/storage.ts:19-28 | returns the stored array, and [] when the file is missing or malformed; never fails |
| Storage.JsonStorage.WriteAll | lib/storage.ts:33-36 | afterwards the file holds exactly the given array |
| Storage.JsonStorage.FindOne | lib/storage.ts:41-44 | None iff no stored record satisfies the predicate; otherwise the first stored record that does |
| Storage.JsonStorage.FindMany | lib/storage.ts:49-52 | the stored records that satisfy the predicate, in stored order, each as often as stored |
| Storage.JsonStorage.Create | lib/storage.ts:57-62 | the file becomes the old contents with the item appended; the item is returned |
| Storage.JsonStorage.Update | lib/storage.ts:67-76 | with no match nothing is written and null is returned; otherwise only the first match is replaced by its merge with the updates, and that merge is returned |
| Storage.JsonStorage.Delete | lib/storage.ts:81-89 | reports true iff some record matched; then the file holds the non-matching records in order, otherwise it is untouched |
| Storage.Collections.constructor | lib/storage.ts:95-101 | five distinct collections bound to users.json, cases.json, updates.json, admins.json and config.json |
| Utils.IsValidEmail | lib/utils.ts:49-52 | an accepted address contains an '@' and has at least five characters; Utils.EmailMatchesPattern gives the exact set |
| Utils.EmailMatchesPattern | lib/utils.ts:49-52 | the email check accepts a string iff it matches `^[^\s@]+@[^\s@]+\.[^\s@]+$` |
| Utils.DigitCount | lib/utils.ts:59 | the number of digits is at most the length of the string |
| Utils.DigitCountIsDigitsLength | lib/utils.ts:59 | the digit count is the length of the string left once every non-digit is removed, so never more than the string's length |
| Utils.DigitCountConcat | lib/utils.ts:59 | digits are counted piece by piece: the count of a concatenation is the sum of the counts |
| Utils.IsValidPhone | lib/utils.ts:57-60 | an accepted phone number has at least ten characters; Utils.ValidPhoneShape gives its shape |
| Utils.ValidPhoneShape | lib/utils.ts:57-60 | an accepted phone number has at least ten characters, only phone characters after the first, and a '+' or phone character first |
| Utils.StringElements | lib/utils.ts:68 | keeping the string elements never lengthens the array |
| Utils.StripQuotes | lib/utils.ts:82 | the result is the input without its first character exactly when that is a '"', and without its last exactly when that is a further '"'; it is at most two characters shorter |
| Utils.ToStringArray | lib/utils.ts:66-103 | for an array, the result is no longer than the array; Utils.ArrayKeepsStrings, Utils.NonTextGivesEmpty, Utils.BlankGivesEmpty and Utils.TextPiecesClean state the rest |
| Utils.StringElementsExact | lib/utils.ts:67-69 | the string elements of a concatenation are those of each part in order, and a string is kept iff it was an element |
| Utils.ArrayKeepsStrings | lib/utils.ts:67-69 | for an array, toStringArray holds a string iff the array held it |
| Utils.NonTextGivesEmpty | lib/utils.ts:71 | a value that is neither an array nor a string gives [] |
| Utils.BlankGivesEmpty | lib/utils.ts:73-79 | a string that is blank after trimming gives [], and so does `{}` |
| Utils.TextPiecesClean | lib/utils.ts:76-102 | unless the text is read as a JSON array, every element is nonempty and has no comma |
| Utils.CommaPiecesClean | lib/utils.ts:99-102 | every piece of the comma-separated reading is nonempty, trimmed and comma-free |
| Utils.CommaPiecesInOrder | lib/utils.ts:99-102 | the comma reading of `a,b` is the reading of `a` followed by that of `b` |
| Utils.SplitConcat | lib/utils.ts:100 | splitting around a separator splits each side separately |
| Utils.BracePiecesClean | lib/utils.ts:77-84 | every piece of the `{...}` reading is nonempty and comma-free |
| UtilsExamples.EmailOfParts | lib/utils.ts:49-52 | a plain local part, '@' and a plain domain with an inner dot form a valid address |
| UtilsExamples.PhoneOfParts | lib/utils.ts:57-60 | an optional '+' and a nonempty run of phone characters with ten digits form a valid number |
| UtilsExamples.ValidEmailExample | __tests__/lib/utils.test.ts:120 | test@example.com is valid |
| UtilsExamples.ValidDottedEmailExample | __tests__/lib/utils.test.ts:121 | user.name@domain.co.uk is valid |
| UtilsExamples.ValidTaggedEmailExample | __tests__/lib/utils.test.ts:122 | user+tag@example.com is valid |
| UtilsExamples.InvalidEmailWithoutAt | __tests__/lib/utils.test.ts:126-130 | "invalid" and "" are rejected |
| UtilsExamples.InvalidEmailWithoutDomain | __tests__/lib/utils.test.ts:127 | "invalid@" is rejected |
| UtilsExamples.InvalidEmailWithoutLocalPart | __tests__/lib/utils.test.ts:128 | "@example.com" is rejected |
| UtilsExamples.InvalidEmailEndingInAt | __tests__/lib/utils.test.ts:129 | "user@" is rejected |
| UtilsExamples.ShortPhoneInvalid | __tests__/lib/utils.test.ts:143-146 | no string shorter than ten characters is a valid phone number |
| UtilsExamples.ValidPhoneExample | __tests__/lib/utils.test.ts:149-152 | ten and eleven plain digits are valid |
| UtilsExamples.ValidCountryCodePhoneExample | __tests__/lib/utils.test.ts:137 | "+91 1234567890" is valid |
| UtilsExamples.ValidParenthesisedPhoneExample | __tests__/lib/utils.test.ts:138 | "(123) 456-7890" is valid |
| UtilsExamples.ValidDashedPhoneExample | __tests__/lib/utils.test.ts:139 | "+1-234-567-8900" is valid |
| UtilsExamples.InvalidPhoneExamples | __tests__/lib/utils.test.ts:142-147 | "123", "12345", "" and "abcdefghij" are rejected |
| SignupRoute.Validate | app/api/auth/signup/route.ts:12-38 | every failure is a 400; a missing field gives "All fields are required"; a body passes iff all fields are present, the email and phone are valid and the password has at least 6 characters |
| SignupRoute.ValidationOrder | app/api/auth/signup/route.ts:19-38 | email format is reported before phone format, and phone format before password length |
| SignupRoute.NewUser | app/api/auth/signup/route.ts:51-58 | the stored user has exactly id, email, hashed password, name, phone and createdAt, with the body's values and the hash of the password |
| SignupRoute.AppendKeepsEmailsDistinct | app/api/auth/signup/route.ts:41-51 | appending a user whose email nobody has keeps emails unique across users |
| SignupRoute.DecimalText | lib/utils.ts:51 | `String(n)` of an integer is nonempty and starts with '-' exactly when the number is negative |
| SignupRoute.TestedText | lib/utils.ts:51 | the text RegExp.test reads: a string as itself, an empty array as "" |
| SignupRoute.ArrayTexts | lib/utils.ts:51 | an array is read as its elements' texts joined by ',': `[s]` and `[[s]]` as s, `[s, t]` as "s,t", `[s, null]` as "s," |
| SignupRoute.SignupAsWritten | app/api/auth/signup/route.ts:12-51 | with the email sent as any JSON value, either nothing is stored or one user carrying that value; an array or object email whose text passes validation is always stored; a string email is stored iff it is valid and not taken |
| SignupRoute.ArrayWithExtraElementStored | app/api/auth/signup/route.ts:12-58 | an email sent as `[address, t]` is stored whenever "address,t" passes validation |
| SignupRoute.ArrayEmailStoredTwice | app/api/auth/signup/route.ts:41 | a valid signup sent twice with its email as a one-element array stores two users with the same email |
| SignupRoute.SignupCorrected | app/api/auth/signup/route.ts:12-51 | the intended signup stores nothing for an email that is not a string, and otherwise at most the new user |
| SignupRoute.CorrectedKeepsEmailsDistinct | app/api/auth/signup/route.ts:41-51 | the intended signup keeps emails unique across users |
| SignupRoute.CorrectedStoresOnce | app/api/auth/signup/route.ts:41-51 | with the intended signup, repeating a request stores no second user |
| SignupRoute.Post | app/api/auth/signup/route.ts:6-82 | an unparsable or `null` body gives 500; invalid input gives its 400; a taken email gives 409; none of these writes anything. Otherwise the new user is appended and 201 returns the token of its payload and its public fields. Only the users file changes, and unique emails stay unique |
| LoginRoute.StoredHash | app/api/auth/login/route.ts:29 | the stored password hash exists iff the user has a `password` field holding a string, and is then that string |
| LoginRoute.Login | app/api/auth/login/route.ts:6-59 | an unparsable or `null` body gives 500; a missing field gives 400. The answer is 200 iff the first user with the email exists, has a string password hash and the password compares equal; then it returns that user's token and public fields. A first user without a string hash gives 500. Nothing but 200, 400, 401 and 500 is returned |
| LoginRoute.FailuresIndistinguishable | app/api/auth/login/route.ts:20-35 | an unknown email and a wrong password give the same 401 "Invalid email or password" |
| LoginRoute.FirstMatchDecides | app/api/auth/login/route.ts:20-37 | only the first user with the email is checked (500 if it has no string hash); later users with that email cannot log in |
| LoginRoute.SuccessNamesTheUser | app/api/auth/login/route.ts:37-51 | a successful login answers with the token and public fields of a stored user having the given email |
| CasesRoute.Authenticate | app/api/cases/route.ts:9-25 | a missing or non-"Bearer " header gives 401 Unauthorized; otherwise the text after the 7 characters is verified, and a failed verification gives 401 Invalid token |
| CasesRoute.BearerTokenRoundTrip | app/api/cases/route.ts:17 | the token passed to verification is exactly what was written after "Bearer " |
| CasesRoute.AuthenticationFailuresAre401 | app/api/cases/route.ts:9-25 | every authentication failure is a 401 |
| CasesRoute.HasRequiredFields | app/api/cases/route.ts:41-46 | the presence check of the eight required fields: each must be truthy; CasesRoute.ValidateCase states its place in the answer |
| CasesRoute.HasLossTypes | app/api/cases/route.ts:48-53 | the loss types are an array with at least one element; CasesRoute.EmptyLossTypesRejected shows an empty array passes the presence check only |
| CasesRoute.ValidateCase | app/api/cases/route.ts:41-53 | a body passes iff all eight required fields are truthy and the loss types are a nonempty array; the missing-fields check comes first |
| CasesRoute.EmptyLossTypesRejected | app/api/cases/route.ts:41-53 | an empty loss-type array passes the presence check and is then rejected with "At least one loss type must be selected" |
| CasesRoute.MonetaryLoss | app/api/cases/route.ts:65 | the monetary loss is present iff the body's value is truthy, and is then its parsed number |
| CasesRoute.NewCase | app/api/cases/route.ts:56-71 | the case gets the generated id, the token's userId, status "submitted", and the first and second clock readings as creation and update times |
| CasesRoute.NewCaseCopiesBody | app/api/cases/route.ts:60-68 | the eight body fields reach the case as sent; monetaryLoss is the parsed value, present only when truthy |
| CasesRoute.NewCaseHasNoOtherField | app/api/cases/route.ts:56-71 | the case holds no field besides the copied ones and those the handler sets |
| CasesRoute.CopyFields | app/api/cases/route.ts:60-68 | each copied field has the body's value, or is absent when the body lacks it, and nothing else is copied |
| CasesRoute.Stamp | app/api/cases/route.ts:57-70 | sets id, status "submitted", createdAt and updatedAt from their own clock readings, and keeps the copied fields |
| CasesRoute.NewUpdate | app/api/cases/route.ts:74-80 | the first update refers to the case, is written by "system", carries the submitted message, is stamped with the third clock reading and has exactly five fields |
| CasesRoute.LossTypesNotChecked | app/api/cases/route.ts:48-64 | a loss type naming none of the five kinds passes validation and is stored as sent |
| CasesRoute.Post | app/api/cases/route.ts:6-93 | authentication failures pass through; an unparsable or `null` body gives 500; invalid bodies give their 400; none of these writes anything. Otherwise exactly one case and one matching update are appended, and 201 returns the case. Users, admins and config are untouched |
| CasesRoute.OwnedBy | app/api/cases/route.ts:117 | the filter `c.userId === decoded.userId`, both possibly absent, with strict equality |
| CasesRoute.OwnedByMatches | app/api/cases/route.ts:117 | a case is kept only if it stores the token's userId; for an absent userId or one that is not an array or object, exactly then |
| CasesRoute.StructuredUserIdOwnsNothing | app/api/cases/route.ts:117 | a token whose userId is an array or an object is given no cases |
| CasesRoute.Insert | app/api/cases/route.ts:120-122 | inserting into a newest-first list keeps it newest first and adds exactly the element |
| CasesRoute.SortNewestFirst | app/api/cases/route.ts:120-122 | the result is ordered newest first and is a permutation of the input |
| CasesRoute.SortOrderedIsIdentity | app/api/cases/route.ts:120-122 | an already ordered list is left as it is |
| CasesRoute.GetCases | app/api/cases/route.ts:95-131 | authentication failures pass through. Otherwise 200 lists the caller's cases newest first: a permutation of the stored cases whose userId is strictly equal to the token's, holding a case iff it is stored and owned |
| ConfigRoute.DefaultConfig | app/api/config/route.ts:12-16 | the default has the channel URL, an empty featured video and the current time, and nothing else |
| ConfigRoute.GetConfig | app/api/config/route.ts:6-19 | always 200; the first stored configuration, or the default when none is stored |
| ConfigRoute.LaterConfigsIgnored | app/api/config/route.ts:8 | configurations after the first never influence the answer |
| ConfigRoute.MissingConfigFileGivesDefault | app/api/config/route.ts:7-17 | a missing or malformed config file is served as the default, not as an error |
| Dashboard.StatusColor | app/dashboard/page.tsx:59-69 | the listed colour for a listed status, gray for every other string |
| Dashboard.StatusColorTable | app/dashboard/page.tsx:60-67 | the table's keys are exactly the six status names; every other string is gray |
| Dashboard.GreenStatuses | app/dashboard/page.tsx:63-66 | a status gets the green badge iff it is verified or published |
| Dashboard.StatusColorAsWritten | app/dashboard/page.tsx:68 | as written, the lookup yields an inherited Object.prototype member exactly for those member names that are not statuses |
| Dashboard.InheritedMemberLeaks | app/dashboard/page.tsx:68 | for "toString" the code as written yields the inherited method, where gray is intended |
| Dashboard.AsWrittenAgreesElsewhere | app/dashboard/page.tsx:68 | for every string that is not an inherited member name, the code as written and the intended lookup agree |
| Dashboard.Upper | app/dashboard/page.tsx:73 | lower-case ASCII letters become upper case; other characters are kept |
| Dashboard.Capitalize | app/dashboard/page.tsx:73 | same length; the first character upper-cased and the rest kept |
| Dashboard.Caps | app/dashboard/page.tsx:71-75 | the character-wise reading keeps the length and leaves no '_' |
| Dashboard.JoinCapitalized | app/dashboard/page.tsx:72-74 | capitalising '_'-free pieces and joining them with spaces is the character-wise reading of their '_' join |
| Dashboard.FormatStatus | app/dashboard/page.tsx:71-75 | split on '_', capitalise each piece, join with spaces; Dashboard.FormatStatusIsCaps and Dashboard.FormatStatusShape state what it does to the string |
| Dashboard.FormatStatusIsCaps | app/dashboard/page.tsx:71-75 | formatStatus turns every '_' into a space and upper-cases each word's first letter, keeping everything else |
| Dashboard.FormatStatusShape | app/dashboard/page.tsx:71-75 | formatStatus keeps the length and leaves no '_' |
| Dashboard.FormatsPieces | app/dashboard/page.tsx:71-75 | two plain words joined by '_' are shown as both words capitalised, separated by a space |
| Dashboard.UnderReviewExample | app/dashboard/page.tsx:71-75 | "under_review" is shown as "Under Review" |
| SubmitCase.ToggleLossType | app/submit-case/page.tsx:30-37 | an unselected type is appended; a selected type is removed completely |
| SubmitCase.ToggleKeepsOthers | app/submit-case/page.tsx:34 | removing a type keeps every other type, as often as before and in order |
| SubmitCase.ToggleTwiceRestores | app/submit-case/page.tsx:33-35 | selecting then deselecting a type restores the list |
| SubmitCase.ToggleInForm | app/submit-case/page.tsx:31-36 | only the loss types of the form change |
| SubmitCase.FormBody | app/submit-case/page.tsx:63 | the JSON body carries the form's loss types as an array of strings and its company name as a string |
| SubmitCase.SubmittedFormMeetsLossTypeCheck | app/submit-case/page.tsx:49-63 | a form the page sends always passes the handler's loss-type check; it is rejected iff a required text field is empty |
| SubmitCase.SubmitCasePage.constructor | app/submit-case/page.tsx:8-20 | the form starts empty, with no error and not loading |
| SubmitCase.SubmitCasePage.HandleLossTypeChange | app/submit-case/page.tsx:30-37 | the form's loss types are toggled; nothing else changes |
| SubmitCase.SubmitCasePage.HandleSubmit | app/submit-case/page.tsx:39-64 | the error is cleared. Without a token the page goes to /login; without a loss type it shows the error. Otherwise it starts loading and sends "Bearer " + token with the form |

## Left out

- File system and concurrency:
  - the file reads and writes are replaced by the `file` field;
  - creating the data directory is not modelled;
  - interleaving of concurrent requests is not modelled.
  - Storage.JsonStorage.WriteAll therefore never fails. The 500 answers a failed write would cause in the routes are not modelled.
- Parameters instead of computation:
  - the bodies of hashPassword, comparePassword, generateToken, verifyToken and generateId;
  - the JWT secret and expiry;
  - the clock.
- JSON text:
  - JSON.parse and JSON.stringify themselves are not modelled.
  - A data file holding valid JSON that is not an array is treated like a malformed file.
  - A request body that parses to an array, a string, a number or a boolean is a body with every field missing; an unparsable or `null` body is the `None` case.
- Floating point: numbers are integers, and `parseFloat` is a parameter.
- CasesRoute.GetCases: dates are compared through the `key` parameter; parsing ISO dates is not modelled.
- CasesRoute.SortNewestFirst: the order of cases with equal creation times is not stated. Array.prototype.sort is stable, and so is the model, which inserts each case in front of those with an equal time; no contract states it.
- Signup and login bodies: each field is a string, and "" stands for a missing one. A non-string JSON value in those fields (a number, an object) is not modelled in the routes; for the signup email, SignupRoute.SignupAsWritten models every JSON value on the users collection alone.
- SignupRoute.Post: uniqueness of emails is proved for string emails only. An email sent as a one-element array passes validation and is stored again (see Findings); Post models the intended string-only behaviour.
- LoginRoute.Login: the password comparison is a parameter; that it fails for a hash that is not a string is modelled by LoginRoute.StoredHash, not by the parameter.
- SignupRoute.Validate: JavaScript's `password.length` counts UTF-16 code units; the model counts characters.
- Dashboard.Upper: `toUpperCase` is modelled for ASCII letters only.
- ConfigRoute.GetConfig: a stored first element that is `null` (which the code answers with the default) is not modelled, because stored elements are records.
- The logger calls are not modelled; they do not change any response.
- Page rendering is not modelled: the JSX, HTML `required` attributes and the list of loss-type options.
- In `handleSubmit`, everything after the request is sent is not modelled: the fetch itself, reading the response, the error messages and the redirect to /dashboard.
- The dashboard's data loading and logout are not modelled.

## Findings

| source | as written | input that shows it | evidently intended | confidence | as-written member | corrected member |
|---|---|---|---|---|---|---|
| app/api/auth/signup/route.ts:41 | the duplicate check `u.email === email` compares by reference for an array, while `isValidEmail` tests the array as text | an email sent as `["a@b.co"]` (or `["a@b.co","x"]`, read as "a@b.co,x") in two otherwise valid signups: both are stored | an email that is not a string is rejected, or compared by its text, so one user per email | not executed | SignupRoute.SignupAsWritten, SignupRoute.ArrayEmailStoredTwice, SignupRoute.ArrayWithExtraElementStored | SignupRoute.SignupCorrected, SignupRoute.CorrectedKeepsEmailsDistinct, SignupRoute.CorrectedStoresOnce |
| app/dashboard/page.tsx:68 | `colors[status] \|\| 'bg-gray-100 text-gray-800'` also finds members inherited from Object.prototype, which are truthy | status "toString" (or "constructor", "valueOf", ...) yields a function instead of the gray class | any status not listed gets the gray class | not executed; low impact, since stored statuses come from a fixed set | Dashboard.StatusColorAsWritten | Dashboard.StatusColor |

# empowered-canvass: verified model of the input rules, CSV export, search, initials and toggle state

empowered-canvass is a canvassing app: users create projects, add team
members and record notes about the contacts they visit. Those notes can be
exported as CSV. This Dafny project models the self-contained rules
underneath it:

- the form validators of `app/utils/validation.ts`, including the e-mail
  pattern `EMAIL_REGEX`;
- the inline checks of the new-project action and the membership list it
  stores (`app/routes/projects.new.tsx`), plus the member-picker toggle;
- the CSV encoding spelled out in `tests/integration/csv-export.test.ts`:
  header, quoting, newline flattening, rows, content and file names;
- the client-side search hook `useSearch`;
- the avatar initials `getInitials`;
- the `useToggle` open/close/toggle state.

Files:

| file | module | contents |
|---|---|---|
| wrappers.dfy | Wrappers | `Option`: JavaScript's `undefined`/`null` |
| js_strings.dfy | JsStrings | JavaScript string primitives: whitespace, `trim`, ASCII case maps, `includes`, `split` on one character, `join` |
| validation.dfy | Validation | the seven validators and the e-mail pattern |
| validation_examples.dfy | ValidationExamples | the vectors of `tests/utils/validation.test.ts` |
| project_creation.dfy | ProjectCreation | the new-project action (a method filling an errors record), membership rows, `toggleMember` (a class) |
| search.dfy | Search | `filteredItems` as a function, `handleSearch` on a class |
| avatar.dfy | Avatar | `getInitials` and a reference definition by words |
| toggle.dfy | Toggle | `useToggle` as a class with a step function |
| csv_export.dfy | CsvExport | CSV encoding, the row-building loop as a method, and a reader for RFC 4180 records used as its inverse |

Modelling choices:

- Strings are `seq<char>`. A Dafny `char` is a Unicode scalar value, so `|s|` is JavaScript's `length` only for strings whose characters all lie in the Basic Multilingual Plane. The model covers those strings.
- Whitespace for `trim()` and `\s` is the exact ECMAScript set: WhiteSpace plus LineTerminator, including U+00A0, U+1680, U+2000–U+200A, U+2028, U+2029, U+202F, U+205F, U+3000 and U+FEFF.
- Letter case is ASCII. For the ASCII character classes matched under `/i` this is exact. For `toUpperCase`/`toLowerCase` it is an approximation (see Left out).
- The e-mail pattern has two forms. `MatchesEmailRegex` is a reference predicate: there is a local part and a list of labels such that the address is `local@label.label…`. `IsEmailFormat` is a checkable version built on `split`. `EmailFormatIsRegex` proves the two equivalent.
- `validateX` returning `undefined` is `None`; returning a message `m` is `Some(m)`.
- `!x` on a string is `x == ""`. The `typeof` guards cannot fire on string inputs and are not modelled.
- The new-project action takes the outcome of the database insert as a boolean parameter, `storeSucceeds`.
- In CSV rows, the creator column takes the author's name as a parameter. The test writes the literal `Test User` there; the export route (`app/routes/projects.$projectId.export-csv.tsx:60`) writes the quoted author name. Both are `Quote(createdBy)`.
- The two dates are already-formatted strings (they depend on the locale).

## Model

| member | source | states |
|---|---|---|
| Validation.MatchesEmailRegex | app/utils/validation.ts:2 | the reading of `EMAIL_REGEX`: the address is a local part of allowed characters, `@`, and one or more dot-separated labels, each 1–63 letters, digits or hyphens that start and end with a letter or digit |
| Validation.IsEmailFormat | app/utils/validation.ts:21 | the checkable form of the regex test: splitting at `@` gives exactly two pieces, the first a local part and the second splitting at `.` into labels |
| Validation.EmailFormatIsRegex | app/utils/validation.ts:2 | the checkable e-mail format holds exactly when the address is a local part of allowed characters, `@`, and one or more dot-separated labels of 1–63 letters, digits or hyphens that start and end alphanumeric |
| Validation.ValidateEmail | app/utils/validation.ts:5-24 | empty gives "Email is required"; trimmed length over 254 gives "Email address is too long"; otherwise no error exactly when the trimmed address matches the pattern, else "Invalid email address format" |
| Validation.EmailWithoutAt | app/utils/validation.ts:13-23 | a trimmed address of at most 254 characters without `@` is rejected as invalid |
| Validation.EmailFromParts | app/utils/validation.ts:2 | any valid local part joined by `@` to valid labels, within 254 characters, is accepted |
| Validation.SplitAtSingleAt | app/utils/validation.ts:2 | splitting `local@domain` at `@` gives the two sides when neither holds `@` |
| Validation.EmailBadParts | app/utils/validation.ts:2 | `local@domain` with a bad local part or a bad label is rejected as invalid |
| Validation.IsPasswordSpecial | app/utils/validation.ts:46 | a character is special exactly when it is one of the 30 punctuation characters of the source's class, backslash and vertical bar included; no letter or digit is special |
| Validation.ValidatePassword | app/utils/validation.ts:27-51 | empty gives the required message; under 8 the too-short message; over 72 the too-long message; no error exactly when the length is 8–72 and there is an upper-case letter, a lower-case letter, a digit and a listed special character; otherwise the complexity message |
| Validation.ValidateTrimmed | app/utils/validation.ts:54-75 | the shared chain: empty gives the required message, then the trimmed length against the inclusive bounds, then the markup check on the trimmed text |
| Validation.ValidateName | app/utils/validation.ts:54-75 | no error exactly when non-empty, trimmed length 2–100 and no forbidden marker; each failing guard gives its own message |
| Validation.ValidateProjectName | app/utils/validation.ts:89-110 | the same with trimmed length 3–100 and the project-name messages |
| Validation.ValidateContactName | app/utils/validation.ts:113-134 | the same with trimmed length 2–100 and the contact-name messages |
| Validation.ValidateNotes | app/utils/validation.ts:137-158 | the same with trimmed length 10–10000 and the notes messages |
| Validation.ValidateRequired | app/utils/validation.ts:78-86 | empty or whitespace-only gives "<field> is required"; otherwise the untrimmed value is checked for markup, giving "<field> contains invalid characters" or no error |
| Validation.HasForbiddenMarkup | app/utils/validation.ts:72 | the case-insensitive regex test for `<script`, `<iframe`, `javascript:` or `onerror=`: one of the four markers occurs in the lower-cased text (the same test recurs at lines 83, 107, 131 and 155) |
| Validation.ForbiddenInAnyCase | app/utils/validation.ts:72 | text containing any of the four markers in any letter case has forbidden markup |
| Validation.TrimmedIgnoresPadding | app/utils/validation.ts:62 | surrounding whitespace does not change the shared chain's answer for a non-empty value |
| Validation.ValidatorsIgnorePadding | app/utils/validation.ts:54-157 | for non-empty `s`, the four trimming validators answer the same for `s` and for `s` padded with whitespace |
| Validation.TrimmedRejectsMarkup | app/utils/validation.ts:72-74 | once the length checks pass, a value whose trimmed text has a marker in any case gets the invalid-content message |
| Validation.RequiredRejectsMarkup | app/utils/validation.ts:83-85 | any value containing a marker in any case gets "<field> contains invalid characters" |
| ValidationExamples.AcceptsPlainAddress | tests/utils/validation.test.ts:8 | `test@example.com` is accepted |
| ValidationExamples.AcceptsDottedLocalPart | tests/utils/validation.test.ts:9 | `user.name@example.com` is accepted |
| ValidationExamples.AcceptsTaggedAddress | tests/utils/validation.test.ts:10 | `user+tag@example.co.uk` is accepted |
| ValidationExamples.AcceptsNumericLocalPart | tests/utils/validation.test.ts:11 | `123@example.com` is accepted |
| ValidationExamples.AcceptsMixedCase | tests/utils/validation.test.ts:40-42 | `Test@Example.COM` is accepted |
| ValidationExamples.RejectsWithoutAt | tests/utils/validation.test.ts:19-38 | `invalid` and `notanemail` give "Invalid email address format" |
| ValidationExamples.RejectsEmptyLocalPart | tests/utils/validation.test.ts:22 | `@example.com` is rejected as invalid |
| ValidationExamples.RejectsEmptyDomain | tests/utils/validation.test.ts:23 | `user@` is rejected as invalid |
| ValidationExamples.RejectsSpaceInLocalPart | tests/utils/validation.test.ts:24 | `user @example.com` is rejected as invalid |
| ValidationExamples.RejectsEmptyLabel | tests/utils/validation.test.ts:25 | `user@.com` is rejected as invalid |
| ValidationExamples.RejectsEmptyEmail | tests/utils/validation.test.ts:26 | the empty address gives "Email is required" |
| ValidationExamples.AcceptsPassword1 | tests/utils/validation.test.ts:48 | `Password123!` is accepted |
| ValidationExamples.AcceptsPassword2 | tests/utils/validation.test.ts:49 | `SuperSecure1@` is accepted |
| ValidationExamples.AcceptsPassword3 | tests/utils/validation.test.ts:50 | `MyP@ssw0rd` is accepted |
| ValidationExamples.AcceptsPassword4 | tests/utils/validation.test.ts:51 | `Test1234#` is accepted |
| ValidationExamples.RejectsShortPassword | tests/utils/validation.test.ts:59-63 | `Pass1!` gets the too-short message |
| ValidationExamples.RejectsPasswordWithoutUpper | tests/utils/validation.test.ts:65-69 | `password123!` gets the complexity message |
| ValidationExamples.RejectsPasswordWithoutLower | tests/utils/validation.test.ts:71-75 | `PASSWORD123!` gets the complexity message |
| ValidationExamples.RejectsPasswordWithoutDigit | tests/utils/validation.test.ts:77-81 | `Password!` gets the complexity message |
| ValidationExamples.RejectsPasswordWithoutSpecial | tests/utils/validation.test.ts:83-87 | `Password123` gets the complexity message |
| ValidationExamples.RejectsEmptyPassword | tests/utils/validation.test.ts:89-93 | the empty password gets "Password is required" |
| ValidationExamples.SeedPasswordFailsLoginValidation | prisma/seed.ts:10 | the seeded password `password123` fails the complexity check that the login form runs (app/routes/login.tsx:25) before any credential check |
| ProjectCreation.NameError | app/routes/projects.new.tsx:68-72 | a missing or whitespace-only name gives "Project name is required"; a non-blank name of untrimmed length over 100 gives the length message; nothing else is an error |
| ProjectCreation.DescriptionError | app/routes/projects.new.tsx:74-76 | a description longer than 500 gives the description message; an absent or shorter one never does |
| ProjectCreation.StoredDescription | app/routes/projects.new.tsx:87 | the stored description is the trimmed description, or null exactly when it is absent or blank |
| ProjectCreation.MemberRows | app/routes/projects.new.tsx:97-100 | one row per selected id, in input order, each with that id and the member role |
| ProjectCreation.Memberships | app/routes/projects.new.tsx:89-101 | 1 + n rows: the current user as owner first, then each selected id in input order as member; only the first row is an owner |
| ProjectCreation.CreateProjectAction | app/routes/projects.new.tsx:61-104 | rejected with exactly the recorded name and description errors when either check fails, and nothing is stored; otherwise the trimmed name, stored description, owner and membership rows are written, or the form error is returned when the insert fails |
| ProjectCreation.Toggled | app/routes/projects.new.tsx:131-139 | the toggled id's membership flips and every other id's stays |
| ProjectCreation.ToggledTwice | app/routes/projects.new.tsx:131-139 | toggling the same id twice restores the selection |
| ProjectCreation.MemberSelection.constructor | app/routes/projects.new.tsx:120 | the selection starts empty |
| ProjectCreation.MemberSelection.ToggleMember | app/routes/projects.new.tsx:131-139 | the new selection is the old one with the id toggled |
| ProjectCreation.ValidatorAcceptanceImpliesRoute | app/routes/projects.new.tsx:68-72 | a name `validateProjectName` accepts, of untrimmed length at most 100, passes the action's own name check |
| ProjectCreation.RouteAcceptsShortNames | app/routes/projects.new.tsx:68-72 | any name that is not blank, untrimmed at most 100, that trims to one or two characters passes the action's check while `validateProjectName` answers "Project name must be at least 3 characters long" |
| ProjectCreation.RouteAcceptsMarkupNames | app/routes/projects.new.tsx:68-72 | any name of untrimmed length at most 100 whose trimmed text has at least 3 characters and holds markup passes the action's check while `validateProjectName` answers "Project name contains invalid characters" |
| ProjectCreation.RouteAcceptsShortName | app/routes/projects.new.tsx:68-72 | `ab` passes the action's check although `validateProjectName` demands 3 characters |
| ProjectCreation.RouteAcceptsMarkup | app/routes/projects.new.tsx:68-72 | `<script>` passes the action's check although `validateProjectName` rejects it |
| ProjectCreation.RouteCountsPadding | app/routes/projects.new.tsx:70 | the action counts surrounding whitespace towards the 100 limit where `validateProjectName` ignores it |
| Search.Filter | app/hooks/useSearch.ts:26 | no longer than the input; every kept item satisfies the predicate; every input item that satisfies it is kept |
| Search.FilteredItems | app/hooks/useSearch.ts:23-27 | an empty query gives the items unchanged; otherwise the filter by the lower-cased query |
| Search.FilterIsSubsequence | app/hooks/useSearch.ts:26 | the kept items sit at strictly increasing positions of the input: order is preserved |
| Search.FilteredItemsIsSubsequence | app/hooks/useSearch.ts:23-27 | the filtered list is a subsequence of the items |
| Search.FilterCounts | app/hooks/useSearch.ts:26 | every value occurs as often as in the input if it satisfies the predicate, and not at all otherwise |
| Search.FilteredItemsMembership | app/hooks/useSearch.ts:24-26 | with a non-empty query, an item is in the result exactly when it is in the input and satisfies the predicate with the lower-cased query |
| Search.FilteredItemsIdempotent | app/hooks/useSearch.ts:26 | filtering the filtered list again with the same query changes nothing |
| Search.QueryCaseIrrelevant | app/hooks/useSearch.ts:25 | queries that lower-case alike give the same result |
| Search.ProjectNameMatches | app/routes/dashboard.tsx:46 | a project matches when its lower-cased name includes the query |
| Search.UserMatches | app/routes/projects.new.tsx:126-128 | a user matches when their lower-cased name or lower-cased e-mail includes the query |
| Search.DashboardSearch | app/routes/dashboard.tsx:44-47 | a project is listed exactly when it is in the list and, for a non-empty query, its lower-cased name includes the lower-cased query |
| Search.MemberPickerSearch | app/routes/projects.new.tsx:124-129 | a user is listed exactly when they are in the list and, for a non-empty query, their lower-cased name or e-mail includes the lower-cased query |
| Search.SearchState.constructor | app/hooks/useSearch.ts:21 | the query starts empty |
| Search.SearchState.HandleSearch | app/hooks/useSearch.ts:29-31 | the query becomes exactly the argument |
| Avatar.GetInitials | app/components/ui/Avatar.tsx:9-15 | the initials have at most two characters, with letters upper-cased by the ASCII map |
| Avatar.SplitOnSpaceRuns | app/components/ui/Avatar.tsx:10 | `split(/\s+/)`: always at least one piece, cut at each maximal whitespace run |
| Avatar.InitialsOfParts | app/components/ui/Avatar.tsx:11-14 | one piece gives its first character upper-cased, more pieces the first characters of the first and last piece upper-cased, so at most two characters under the ASCII map |
| Avatar.SplitIsWords | app/components/ui/Avatar.tsx:10 | on trimmed non-empty text, splitting at whitespace runs gives exactly its words |
| Avatar.WordsOfTrim | app/components/ui/Avatar.tsx:10 | trimming does not change the words |
| Avatar.InitialsOfWords | app/components/ui/Avatar.tsx:9-15 | no words give the empty string; one word gives its first character upper-cased; otherwise the upper-cased first characters of the first and the last word |
| Avatar.InitialsIgnorePadding | app/components/ui/Avatar.tsx:10 | leading and trailing whitespace do not change the initials |
| Avatar.InitialsCollapseRuns | app/components/ui/Avatar.tsx:10 | a run of whitespace inside the name counts as one space |
| Avatar.InitialsIgnoreMiddle | app/components/ui/Avatar.tsx:14 | inserting middle words between a first and a last part does not change the initials |
| Avatar.InitialsOfFirstLast | app/components/ui/Avatar.tsx:14 | two space-free words separated by a space give both first letters upper-cased |
| Avatar.InitialsOfJohnDoe | app/components/ui/Avatar.tsx:14 | `john doe` gives `JD` |
| Toggle.Step | app/hooks/useToggle.ts:17-19 | open makes the state true and close false whatever it was; toggle negates it |
| Toggle.ToggleState.constructor | app/hooks/useToggle.ts:14-15 | the state starts at the initial value, false by default |
| Toggle.ToggleState.Open | app/hooks/useToggle.ts:17 | the state becomes true |
| Toggle.ToggleState.Close | app/hooks/useToggle.ts:18 | the state becomes false |
| Toggle.ToggleState.Toggle | app/hooks/useToggle.ts:19 | the state becomes the negation of the old state |
| Toggle.ToggleTwice | app/hooks/useToggle.ts:19 | two toggles restore the state |
| Toggle.OpenCloseSettle | app/hooks/useToggle.ts:17-18 | open and close are idempotent, and the later of the two decides |
| Toggle.RunFlipsParity | app/hooks/useToggle.ts:19 | after only toggles, the state is the initial one exactly when the number of toggles is even |
| Toggle.RunForgetsBeforeSet | app/hooks/useToggle.ts:17-19 | after an open or a close, earlier actions no longer matter |
| CsvExport.Header | tests/integration/csv-export.test.ts:71-78 | the six column names joined by commas |
| CsvExport.HeaderColumns | tests/integration/csv-export.test.ts:6-19 | the header splits at commas back into the six column names in their fixed order |
| CsvExport.EscapeQuotes | tests/integration/csv-export.test.ts:23 | text without quotes is unchanged, and the result is never shorter |
| CsvExport.Quote | tests/integration/csv-export.test.ts:83 | a quoted field starts and ends with a double quote and is at least two characters longer than its text |
| CsvExport.EscapeKeepsOtherChars | tests/integration/csv-export.test.ts:23 | doubling quotes adds no other character and removes none |
| CsvExport.QuotedBodyOfEscape | tests/integration/csv-export.test.ts:21-25 | reading a quoted body stops at the first quote that is not doubled, and gives back the text whose quotes were doubled |
| CsvExport.QuoteEncodes | tests/integration/csv-export.test.ts:21-25 | a quoted field reads back, under the RFC 4180 quoted-field rule, as exactly the original text, whatever it contains |
| CsvExport.EscapeJohnny | tests/integration/csv-export.test.ts:21-25 | `John "Johnny" Doe` is quoted as `"John ""Johnny"" Doe"` |
| CsvExport.FlattenNewlines | tests/integration/csv-export.test.ts:28-34 | same length, every line feed replaced by a space in place, every other character kept in place, so no line feed is left |
| CsvExport.FlattenThreeLines | tests/integration/csv-export.test.ts:28-34 | `Line 1\nLine 2\nLine 3` becomes `Line 1 Line 2 Line 3` |
| CsvExport.FlattenEscapeCommute | tests/integration/csv-export.test.ts:56 | doubling quotes and flattening line feeds can be done in either order |
| CsvExport.NotesField | tests/integration/csv-export.test.ts:85 | the notes field never holds a line feed, whatever the notes contain |
| CsvExport.NotesFieldIsQuote | tests/integration/csv-export.test.ts:56 | the notes field is the quoted form of the flattened notes |
| CsvExport.EmailField | tests/integration/csv-export.test.ts:36-41 | a null e-mail gives an empty, unquoted field |
| CsvExport.EmailEncodes | tests/integration/csv-export.test.ts:84 | the e-mail field reads back as the address, or as the empty text when the address is null |
| CsvExport.NullEmailIsEmptyField | tests/integration/csv-export.test.ts:36-41 | the fixture's null e-mail gives the empty field |
| CsvExport.RowFields | tests/integration/csv-export.test.ts:51-65 | a row has exactly six fields |
| CsvExport.Row | tests/integration/csv-export.test.ts:82-90 | the six fields of a note joined by commas |
| CsvExport.RowIsOneLine | tests/integration/csv-export.test.ts:82-90 | a row has no line feed exactly when the contact name, e-mail, creator and dates have none |
| CsvExport.RowRoundTrip | tests/integration/csv-export.test.ts:82-90 | a row reads back as its six values: contact name, e-mail (empty when null), flattened notes, creator, dates |
| CsvExport.BuildCsvContent | tests/integration/csv-export.test.ts:67-93 | the loop's result is the header followed by one row per note, in order, joined by line feeds |
| CsvExport.CsvContent | tests/integration/csv-export.test.ts:93 | the header line followed by one row per note, joined by line feeds |
| CsvExport.ContentLines | tests/integration/csv-export.test.ts:93-103 | splitting the content at line feeds gives the header and then the rows, so notes + 1 lines |
| CsvExport.ContentContainsName | tests/integration/csv-export.test.ts:96-99 | a contact name without quotes occurs verbatim in the content |
| CsvExport.ContentRoundTrip | tests/integration/csv-export.test.ts:67-104 | line k + 1 of the content reads back as the values of note k |
| CsvExport.MockContentLines | tests/integration/csv-export.test.ts:101-103 | the three fixture notes give four lines |
| CsvExport.MockContentNames | tests/integration/csv-export.test.ts:96-99 | the content of the fixture notes contains `John Doe`, `Jane Smith` and `Bob Johnson` |
| CsvExport.SanitizeFileName | tests/integration/csv-export.test.ts:106-113 | same length, every ASCII letter or digit kept in place and every other character replaced by `_`, so only letters, digits and `_` remain |
| CsvExport.SanitizeIdempotent | tests/integration/csv-export.test.ts:108 | sanitising twice is sanitising once |
| CsvExport.SanitizeMyProject | tests/integration/csv-export.test.ts:106-113 | `My Project #1!` becomes `My_Project__1_` |

## Left out

- Sessions, cookies, password hashing, `requireUser`, `logout` and the `intent` dispatch: these are library calls whose behaviour is not in this code base.
- Prisma queries: project visibility and ordering, the loaders' user lists, the seed data. The database runs these.
- The route actions of login and register are glue around the validators and are not modelled. The one fact worth keeping is the seed-password lemma above.
- The redirect to the new project's page after creation. The action returns a `Created` result carrying the record it would store.
- A failed insert is not computed. The model takes the database's success or failure as the `storeSucceeds` parameter.
- UI rendering and the React mechanics (`useState`, `useMemo`, `useCallback`, re-rendering). Only the state transitions are modelled.
- The `typeof` guards of the validators cannot fire on string inputs.
- `toLocaleDateString`: it depends on the locale, so the dates are string parameters. The round-trip lemmas require them to hold no comma and not to start with a quote.
- The export route's file name (`app/routes/projects.$projectId.export-csv.tsx:68`), which appends `_notes_` and the ISO date to the sanitised name. Only the sanitising itself is modelled.
- Characters outside the Basic Multilingual Plane: JavaScript counts each as two UTF-16 code units, and the model counts it as one character. For such strings the length bounds (254, 72, 100, 500, 10000) count differently from the source, and `SanitizeFileName` writes one `_` where the source writes two.
- Avatar.GetInitials: `toUpperCase` is modelled on ASCII letters only. Other letters are left unchanged, where JavaScript applies the full Unicode case mapping. The at-most-two-characters bound holds only under the ASCII map. The source breaks it for letters whose upper case is longer than one character: `"ß".toUpperCase()` is `"SS"`, so `getInitials("ß ß")` gives `"SSSS"`, and a ligature such as `ﬁ` behaves the same way.
- Search.FilteredItems: `toLowerCase` is ASCII only, for the same reason. Non-ASCII letters in a query are not folded.
- CsvExport.ContentLines: it needs every field that is not flattened to be free of line feeds: the contact name, the e-mail, the creator and the dates. A contact name alone is not enough, since an e-mail with a line feed also adds a line.

# forms-react-zod: the registration schema in Dafny

The application is a small registration form. The form
values are checked by one Zod schema, `createUserFormSchema`, before they
reach the submit handler. This project models that schema: the rules each
field must meet, the issues reported for the rules a candidate breaks, and the
normalised record produced when it meets them all. It also models the entry
that the "add" button appends to the list of technologies.

- **avatar** must be present and non-empty, and its first file must be at
  most 5 MiB (5,242,880 bytes; exactly 5 MiB passes).
- **name** must have at least one UTF-16 code unit. It is then transformed:
  - it is trimmed and split on `' '`;
  - the first character of every word is upper-cased;
  - the words are joined again with `' '`.

  When a word comes out empty, `word[0]` is `undefined` and the transform
  throws a TypeError. This happens for a name of blanks, or when two spaces
  stand side by side inside the trimmed name (`"ana  maria"`; the two spaces
  of `"ana  "` are trimmed away and do no harm). Nothing catches the error,
  so the whole parse fails with it.
- **email** must be non-empty and pass the `.email()` syntax check on the raw
  string. It is then lower-cased, and the lower-cased string must end with
  `@gmail.com`. All three checks run and each reports its own issue.
- **password** must have at least 6 UTF-16 code units. It is passed on
  unchanged.
- **techs** must be a non-empty list. Every entry needs a non-empty `title`
  and a `knowledge` number from 1 to 100, both bounds included. NaN fails the
  number type check and stops there; ±Infinity fails a bound.
- **addNewTech** appends `{ title: '', knowledge: 0 }`. That entry breaks both
  entry rules until it is edited.

The project has four modules:

- `Wrappers`: `Option`.
- `JsString`: the JavaScript string built-ins the schema uses, as functions on
  `seq<char>` with their laws.
  - `length` counts UTF-16 code units.
  - `trim` scans indices from both ends.
  - `split`/`join` work on a one-character separator.
  - `endsWith`, `toLowerCase` and one-character `toLocaleUpperCase` are
    included.
- `NameTransform`: the name transform, with `None` standing for the thrown
  TypeError.
- `UserSchema`: the records, one predicate per rule, the issues (a set of
  `(path, rule)` pairs), `Validate` (accepted record, rejected issues, or
  thrown) and `AddNewTech`.

## Model

| member | source | states |
|---|---|---|
| JsString.Utf16Length | src/App.tsx:20 | the length `min` counts lies between the number of characters and twice it, and is 0 exactly for the empty string |
| JsString.IsWhitespace | src/App.tsx:22 | the characters `trim()` removes: the ECMAScript WhiteSpace and LineTerminator characters |
| JsString.Utf16LengthBasic | src/App.tsx:35-36 | a string of Basic Multilingual Plane characters has as many code units as characters |
| JsString.Trim | src/App.tsx:22 | `trim()` leaves no whitespace at either end, and returns a string that has none there unchanged |
| JsString.TrimDropsWhitespace | src/App.tsx:22 | `trim()` is a slice of its input and everything it drops before and after the slice is whitespace |
| JsString.TrimEmptyIff | src/App.tsx:22 | `trim()` is empty exactly when the input is all whitespace |
| JsString.Split | src/App.tsx:23 | `split(sep)` yields at least one piece, and no piece holds the separator |
| JsString.Join | src/App.tsx:26 | `join(sep)`: the pieces in order with one separator between neighbours; its laws are JoinSplit, SplitJoin and JoinEnds |
| JsString.JoinSplit | src/App.tsx:23-26 | joining the pieces of a split with the same separator gives the string back |
| JsString.SplitJoin | src/App.tsx:23-26 | splitting a join of separator-free pieces gives back the pieces, same number, same order |
| JsString.SplitEnds | src/App.tsx:22-23 | non-empty first and last pieces of a split begin and end the string |
| JsString.JoinEnds | src/App.tsx:26 | a join begins with the first character of its first piece and ends with the last character of its last piece |
| JsString.EndsWith | src/App.tsx:33 | `endsWith(suffix)`, compared character by character from the end; EndsWithSlice gives its closed form |
| JsString.EndsWithSlice | src/App.tsx:33 | `endsWith(suffix)` holds exactly when the last characters of the string are the suffix |
| JsString.ToLowerChar | src/App.tsx:31 | lower-casing a character yields no upper-case letter, leaves every other character alone and maps an upper-case letter to a lower-case one |
| JsString.ToLowerCase | src/App.tsx:31 | `toLowerCase()` keeps the length, maps character by character and leaves no upper-case letter |
| JsString.ToLowerCaseIdempotent | src/App.tsx:31 | lower-casing twice is lower-casing once |
| JsString.ToUpperCase | src/App.tsx:25 | `toLocaleUpperCase()` of one character gives one or two characters, and leaves alone every character without an upper-case mapping |
| JsString.ToUpperCaseNoWhitespace | src/App.tsx:25 | upper-casing introduces no whitespace |
| JsString.CaseRoundTrip | src/App.tsx:25-31 | the lower- and upper-case tables are inverse: an upper-case letter comes back from its lower case, and a shifted lower-case letter from its upper case |
| JsString.ToUpperCaseIdempotent | src/App.tsx:25 | the first character of an upper-cased character upper-cases to itself |
| NameTransform.Capitalize | src/App.tsx:25 | a capitalized word is at most one character longer, starts with the first character of the upper-cased first character and, for a word of two or more characters, keeps the last character |
| NameTransform.CapitalizeChangesOnlyFirst | src/App.tsx:25 | only the first character of a word changes: the result starts with the whole upper-casing of the first character, and every later character keeps its place, shifted by one when the first upper-cases to two |
| NameTransform.CapitalizeAll | src/App.tsx:24-26 | the `map` keeps the number of words and capitalizes each one in place |
| NameTransform.Words | src/App.tsx:22-23 | the words the transform capitalizes: the trimmed name split on `' '`, at least one |
| NameTransform.CapitalizeWords | src/App.tsx:23-26 | split-capitalize-join is undefined exactly when some piece is empty |
| NameTransform.NormalizeName | src/App.tsx:20-27 | the transform throws exactly when some word of the trimmed name is empty |
| NameTransform.NoEmptyWordIff | src/App.tsx:23-25 | splitting on `' '` yields no empty word exactly when the string is non-empty, has no space at either end and no two spaces in a row |
| NameTransform.NormalizeNameDefinedIff | src/App.tsx:20-27 | the transform succeeds exactly when the trimmed name is non-empty with no two spaces in a row |
| NameTransform.CapitalizeIdempotent | src/App.tsx:25 | capitalizing a capitalized word changes nothing |
| NameTransform.CapitalizeKeepsEnds | src/App.tsx:25 | capitalizing keeps a non-whitespace first or last character non-whitespace |
| NameTransform.CapitalizeWordsEnds | src/App.tsx:24-26 | the joined result begins and ends as the capitalized first and last words do |
| NameTransform.CapitalizeWordsSplit | src/App.tsx:23-26 | splitting the result again yields the capitalized words, one for one and in order |
| NameTransform.CapitalizeWordsIdempotent | src/App.tsx:23-26 | split-capitalize-join applied to its own result returns that result |
| NameTransform.CapitalizeWordsKeepsEnds | src/App.tsx:22-26 | a string without whitespace at its ends keeps none there after split-capitalize-join |
| NameTransform.NormalizedIsTrimmed | src/App.tsx:21-27 | a successful transform yields a non-empty string with no whitespace at either end |
| NameTransform.NormalizeNameWords | src/App.tsx:22-26 | the result splits back into the words of the trimmed name, same number and order, each capitalized |
| NameTransform.NormalizeNameIdempotent | src/App.tsx:21-27 | transforming a transformed name returns it unchanged |
| NameTransform.NormalizeNameTwoWords | src/App.tsx:21-27 | two words with one space between and nothing to trim become the two words capitalized with one space between |
| NameTransform.CapitalizeExamples | src/App.tsx:25 | "ana" becomes "Ana", "joão" "João", "érica" "Érica", and "ßa" "SSa" |
| NameTransform.NormalizeNameThrowsOnBlank | src/App.tsx:20-25 | a name of blanks passes `min(1)` and then makes the transform throw |
| NameTransform.NormalizeNameThrowsOnDoubleSpace | src/App.tsx:22-25 | two spaces side by side inside the trimmed name (between a first part and a last part whose outer ends are not whitespace) make the transform throw |
| NameTransform.NormalizeNameThrowsOnThreeBlanks | src/App.tsx:20-25 | `"   "` makes the transform throw |
| UserSchema.Message | src/App.tsx:18-40 | the schema attaches its own message to every rule except the knowledge bounds and number type |
| UserSchema.AvatarAccepted | src/App.tsx:13-16 | the avatar refine: a list is given, it is non-empty, and its first file is at most 5 MiB |
| UserSchema.NameAccepted | src/App.tsx:20 | `min(1)` on the raw name, in UTF-16 code units |
| UserSchema.EmailAccepted | src/App.tsx:28-34 | `min(1)` and the syntax check on the raw email, and the `@gmail.com` suffix on the lower-cased email |
| UserSchema.PasswordAccepted | src/App.tsx:35-36 | `min(6)` on the password, in UTF-16 code units |
| UserSchema.BelowMin | src/App.tsx:39 | the numbers `min(1)` rejects: below 1, and minus infinity |
| UserSchema.AboveMax | src/App.tsx:39 | the numbers `max(100)` rejects: above 100, and plus infinity |
| UserSchema.KnowledgeAccepted | src/App.tsx:39 | a number (not NaN) that neither bound rejects; KnowledgeRange gives the closed form |
| UserSchema.TechAccepted | src/App.tsx:38-39 | an entry with a title of at least one code unit and an accepted knowledge value |
| UserSchema.TechsAccepted | src/App.tsx:37-40 | `min(1)` on the list, and every entry accepted; TechsRule gives the closed form |
| UserSchema.CandidateAccepted | src/App.tsx:9-41 | every field rule of the schema holds |
| UserSchema.AvatarIssues | src/App.tsx:13-19 | the avatar issue is reported exactly when the refine fails, and it is the only avatar issue |
| UserSchema.NameIssues | src/App.tsx:20 | the name issue is reported exactly when `min(1)` fails |
| UserSchema.EmailIssues | src/App.tsx:28-34 | each email issue (required, format, not Gmail) is reported exactly when its own check fails, and none is reported exactly when the email is accepted |
| UserSchema.PasswordIssues | src/App.tsx:35-36 | the password issue is reported exactly when `min(6)` fails |
| UserSchema.KnowledgeIssues | src/App.tsx:39 | NaN is reported as not a number, a value below 1 or above 100 as too small or too large, and nothing is reported exactly when the value is accepted |
| UserSchema.TechIssues | src/App.tsx:38-39 | an entry's issues sit under its own index; the title issue is reported exactly when the title is empty |
| UserSchema.EntriesIssues | src/App.tsx:37-39 | the entries report nothing exactly when every entry is accepted, and every issue sits under an index of the list |
| UserSchema.TechsIssues | src/App.tsx:37-40 | the list issue is reported exactly when the list is empty, and the entry issues are those of the entries |
| UserSchema.Issues | src/App.tsx:9-41 | a candidate has no issue exactly when every field rule holds, and every issue fits its field |
| UserSchema.Validate | src/App.tsx:9-41 | parsing throws exactly when the name passes `min(1)` but has an empty word; it accepts exactly when every rule holds and the transform succeeds, with the record normalised; otherwise it reports a non-empty set of issues |
| UserSchema.AddNewTech | src/App.tsx:58 | the list grows by one, keeps its entries, and ends with the default entry |
| UserSchema.AvatarRule | src/App.tsx:13-16 | absent or empty lists fail; only the first file counts; 5,242,880 bytes pass and 5,242,881 fail |
| UserSchema.PasswordRule | src/App.tsx:35-36 | a password passes exactly when its length is at least 6 |
| UserSchema.PasswordExamples | src/App.tsx:35-36 | "abc12" fails and "abc123" passes |
| UserSchema.KnowledgeRange | src/App.tsx:39 | knowledge passes exactly for finite values from 1 to 100, both included |
| UserSchema.TechsRule | src/App.tsx:37-40 | the list passes exactly when it is non-empty and every entry has a title and knowledge from 1 to 100 |
| UserSchema.KnowledgeExamples | src/App.tsx:39 | 1, 100 and 50.5 pass; 0, 101 and NaN fail |
| UserSchema.EmptyEmailRejected | src/App.tsx:29 | an empty email fails and is reported as required |
| UserSchema.EmailCaseInsensitive | src/App.tsx:29-34 | two emails equal up to letter case, which the `.email()` syntax check judges alike, have the same acceptance and the same issues |
| UserSchema.ValidateEmailCaseInsensitive | src/App.tsx:28-34 | validation gives the same outcome for two emails equal up to letter case, provided the `.email()` syntax check judges them alike |
| UserSchema.EntriesIssuesAt | src/App.tsx:37-39 | an entry issue is reported exactly when the entry at its index breaks that rule |
| UserSchema.IssueOfAvatar | src/App.tsx:10-19 | an avatar issue is reported exactly when the avatar check reports it |
| UserSchema.IssueOfName | src/App.tsx:20 | a name issue is reported exactly when the name check reports it |
| UserSchema.IssueOfEmail | src/App.tsx:28-34 | an email issue is reported exactly when the email checks report it |
| UserSchema.IssueOfPassword | src/App.tsx:35-36 | a password issue is reported exactly when the password check reports it |
| UserSchema.IssueOfTechs | src/App.tsx:37-40 | a list or entry issue is reported exactly when the techs checks report it |
| UserSchema.IssuesOfFields | src/App.tsx:10-36 | each field issue is reported exactly when its rule is broken |
| UserSchema.IssuesOfEntry | src/App.tsx:37-40 | an entry issue of a candidate is reported exactly when the entry at that index breaks the rule |
| UserSchema.RejectedReportsEntry | src/App.tsx:38-39 | a rejected candidate reports, at index j, a missing title, a non-number, a value below 1 and a value above 100 exactly when entry j has them |
| UserSchema.AcceptedRecord | src/App.tsx:9-41 | an accepted record has a first avatar file of at most 5 MiB, a name the transform leaves unchanged, a lower-case Gmail address, the password as typed (at least 6 long), and a non-empty list of titled entries with knowledge from 1 to 100 |
| UserSchema.DefaultTechRejected | src/App.tsx:58 | the default entry breaks exactly two rules: the title is required and the knowledge is too small |
| UserSchema.AddNewTechBlocksSubmit | src/App.tsx:57-59 | right after `addNewTech` the form is never accepted; when it is rejected, both issues of the new entry are reported under its index |

## Left out

- The submit handler `createUser` is left out: the upload to Supabase storage and the `setOutput` display are I/O and UI state.
- The React rendering is left out: the `useForm`/`useFieldArray` wiring and the JSX. The field array's `append` is modelled only as a list operation on values (`AddNewTech`); `remove` (src/App.tsx:118) is left out, because it only deletes the entry at the given index and the schema states nothing about it. `field.id` identity is not modelled.
- The `.email()` grammar is Zod library code. It is the parameter `emailSyntax: string -> bool`, applied to the raw, not yet lower-cased, string.
- `z.coerce.number()` parsing of the input text is left out. `knowledge` arrives as an already-coerced JavaScript number: NaN, ±Infinity or a finite value, taken as an exact real. Floating-point rounding is not modelled.
- `z.instanceof(FileList)` and `z.string()` type checks on values of other types are left out. The form only produces a `FileList` (or `undefined`) and strings.
- JsString.ToUpperCase: maps Basic Latin and Latin-1 Supplement letters only (with ß to "SS", ÿ to Ÿ, µ to Μ). Every other character is left unchanged, and locale-specific rules are not modelled.
- JsString.ToLowerChar: maps the upper-case letters of Basic Latin and Latin-1 Supplement only, because case mapping outside that repertoire depends on the Unicode tables.
- UserSchema.Issues: the issues form a set. The order in which Zod lists them is not modelled, and neither is react-hook-form showing one message per field.
- UserSchema.Validate: the TypeError from the name transform is an outcome of its own (`Threw`), because the code lets it escape the parse. It is not a validation issue, and the issues of the other fields are lost with it.
- UserSchema.Message: the list message says "at least 2 technologies" while the rule checks `min(1)`. The model keeps both as written, and `TechsRule` states the `min(1)` behaviour.
- UserSchema.EmailCaseInsensitive: holds only for two emails the `.email()` syntax check judges alike. That check runs on the raw string and its grammar is a parameter here, so whether it ignores letter case is assumed, not proved.
- UserSchema.ValidateEmailCaseInsensitive: holds only for two emails the `.email()` syntax check judges alike, for the same reason as EmailCaseInsensitive.
- Strings are sequences of Unicode scalar values, so a lone surrogate cannot be represented. The source's `word[0]` and `substring(1)` index UTF-16 code units. For a word starting outside the Basic Multilingual Plane, the model upper-cases the whole character, where the source upper-cases its first surrogate. Both leave it unchanged, so the results agree.

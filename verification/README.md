# Admin dashboard: add-user wizard and user search, modelled in Dafny

This project models two parts of an admin dashboard written in React.

**The add-user wizard** (`app/dashboard/add/page.tsx`) is a three-step form: basic info, then address, then review.
- The page keeps three pieces of state: the current step, a five-field record (name, email, street, city, PIN code) and a map from field to error message.
- Next validates the current step. It moves on only when the step has no errors.
- Back moves to the previous step without validating.
- Typing into a field sets that field and clears its error.
- An effect mirrors the record and the step into browser storage under `formData` and `formStep`.
- On mount, the page reads both entries back.
- Submit removes both entries.

**The user list** (`app/dashboard/page.tsx`):
- A search box filters the users. A user is kept when the query occurs in the name or in the city, ignoring case.
- The list shows "Showing X of Y".
- Each avatar shows the name's initials.

How the model is built:
- Module `Form` holds the wizard as values:
  - the validation rules, with their exact messages;
  - `Apply`, the session transition for each user intent.
- Class `AddUserWizard.Wizard` holds the page's state and browser storage as fields. Each handler is a method whose new state is `Form.Apply` of the old one. Each handler also states what it writes to storage.
- Module `Snapshot` holds the storage format:
  - `JSON.stringify` of the record and a `JSON.parse` for it, with a round trip;
  - `parseInt` and `toString` of the step, with a round trip;
  - hydration.
- Module `UserList` holds the search filter and the initials, both as pure functions.

Whitespace is the full ECMAScript `WhiteSpace` and `LineTerminator` set. `String.prototype.trim` and the regular-expression class `\s` both use that set, so the model uses all of it rather than only ASCII.

Where the design description and the code disagree, the model follows the code:
- `handleNext` and `handlePrevious` do not clamp the step. Only the buttons the page offers keep it within 1..3 (`Form.Offered`, `Form.RunKeepsReachable`).
- A step read back from storage is not range checked.
- `handleSubmit` neither re-validates nor resets the in-memory state. It only removes the two storage entries.
- The error map is not limited to the current step's fields. A failed Next on the address step followed by Back leaves the address errors in the map while step 1 is shown (`Form.StaleErrorsAfterBack`). The invariant actually kept is that errors belong to the current step or to the next one (`Form.Reachable`).

## Model

| member | source | states |
|---|---|---|
| Text.TrimStartIsSuffix | app/dashboard/add/page.tsx:82 | the start of `trim` drops exactly the leading run of whitespace: what is dropped is all whitespace, and what is kept does not start with whitespace |
| Text.TrimEndIsPrefix | app/dashboard/add/page.tsx:82 | the end of `trim` drops exactly the trailing run of whitespace |
| Text.TrimEmptyIffAllWhitespace | app/dashboard/add/page.tsx:82 | `!s.trim()` holds exactly when every character of `s` is whitespace |
| Text.ToLower | app/dashboard/page.tsx:142-143 | lower-casing keeps the length and lower-cases each character in place |
| Text.ToLowerIdempotent | app/dashboard/page.tsx:142-143 | lower-casing a lower-cased string changes nothing |
| Text.IncludesIffOccurs | app/dashboard/page.tsx:142-143 | `includes` is true exactly when the query occurs at some offset of the text |
| Decimal.NatToString | app/dashboard/add/page.tsx:55 | `toString` of a natural number is a non-empty string of digits with no leading zero, and the digits are worth the number |
| Decimal.LeadingDigits | app/dashboard/add/page.tsx:24 | `parseInt` reads the longest run of digits, stopping at the first non-digit |
| Decimal.ParseIntOfIntToString | app/dashboard/add/page.tsx:24 | `parseInt(n.toString(), 10)` gives back `n` for every integer |
| Form.Record.With | app/dashboard/add/page.tsx:61-64 | an edit sets the named field to the new value and leaves the other four fields unchanged |
| Form.EmailPatternIffShape | app/dashboard/add/page.tsx:90 | the email pattern matches exactly these strings: no whitespace, a non-empty local part, one `@`, and a domain with a `.` that is neither its first nor its last character |
| Form.PinPatternIffSixDigitNumeral | app/dashboard/add/page.tsx:109 | the PIN pattern matches exactly the numerals of 100000..999999 |
| Form.PinExamples | app/dashboard/add/page.tsx:109 | "560001" passes; "12345", "012345" and " 560001" fail |
| Form.StepErrors | app/dashboard/add/page.tsx:76-117 | a validation's error map has keys only for the fields of the validated step; any step other than 1 and 2 gives the empty map |
| Form.NameRequiredIffBlank | app/dashboard/add/page.tsx:82-85 | step 1 reports "Name is required" exactly when the name is blank after trimming |
| Form.EmailErrorCases | app/dashboard/add/page.tsx:87-93 | a blank email gets "Email is required"; otherwise "Please enter a valid email address" is reported exactly when the untrimmed email is not well shaped; the email key holds one message only |
| Form.AddressRequiredIffBlank | app/dashboard/add/page.tsx:96-104 | step 2 reports "Street address is required" and "City is required" exactly for a blank street and a blank city |
| Form.PinErrorCases | app/dashboard/add/page.tsx:106-112 | a blank PIN code gets "PIN code is required"; otherwise the PIN code is accepted exactly when it is a six-digit numeral without a leading zero, and is otherwise rejected with the invalid-PIN message |
| Form.BasicInfoValidIff | app/dashboard/add/page.tsx:80-93 | step 1 validates exactly when the name is not blank and the email is well shaped |
| Form.AddressValidIff | app/dashboard/add/page.tsx:94-112 | step 2 validates exactly when street and city are not blank and the PIN code is a six-digit numeral without a leading zero |
| Form.ClearError | app/dashboard/add/page.tsx:67-72 | editing a field removes that field's error and keeps every other field's error as it was |
| Form.ApplyKeepsReachable | app/dashboard/add/page.tsx:120-129 | from a reachable session, each intent the page offers keeps the step in 1..3 and the errors on the current or the next step's fields |
| Form.RunKeepsReachable | app/dashboard/add/page.tsx:332-357 | any sequence of offered intents from a reachable session keeps it reachable: only the buttons bound the step |
| Form.StaleErrorsAfterBack | app/dashboard/add/page.tsx:127-129 | a failed Next on step 2 then Back shows step 1 while "Street address is required" stays in the error map |
| Snapshot.ParseStringOfQuote | app/dashboard/add/page.tsx:54 | parsing a string literal written by `JSON.stringify` gives the string back and leaves the text after it |
| Snapshot.EncodeRecord | app/dashboard/add/page.tsx:33 | the serialised record is a non-empty object text, so a saved record always counts as present when it is read back |
| Snapshot.DecodeEncodeRecord | app/dashboard/add/page.tsx:33 | `JSON.parse(JSON.stringify(formData))` gives back the same record |
| Snapshot.Save | app/dashboard/add/page.tsx:53-56 | the effect leaves `formData` holding the serialised record and `formStep` the step's numeral, and every other entry as it was |
| Snapshot.Clear | app/dashboard/add/page.tsx:137-138 | submitting removes both entries and keeps every other entry |
| Snapshot.HydrateMirrored | app/dashboard/add/page.tsx:20-48 | storage that mirrors a step and a record hydrates to that same step and record |
| Snapshot.HydrateCleared | app/dashboard/add/page.tsx:20-48 | with no saved entries the page starts at step 1 with an all-empty record |
| AddUserWizard.Wizard.constructor | app/dashboard/add/page.tsx:20-56 | mounting reads step and record back from storage, starts with no errors, and the mount effect writes both back |
| AddUserWizard.Wizard.Persist | app/dashboard/add/page.tsx:53-56 | the effect rewrites both entries from the current state and changes no state |
| AddUserWizard.Wizard.HandleChange | app/dashboard/add/page.tsx:59-73 | the edited field takes the value, other fields and other errors are unchanged, the field's error is gone, the step is kept and storage mirrors the new record |
| AddUserWizard.Wizard.ValidateStep | app/dashboard/add/page.tsx:76-117 | the error map is replaced by the step's errors, and the result is true exactly when that map is empty |
| AddUserWizard.BasicInfoErrorsInOrder | app/dashboard/add/page.tsx:80-93 | the step-1 map built field by field is empty exactly when both fields pass |
| AddUserWizard.AddressErrorsInOrder | app/dashboard/add/page.tsx:94-112 | the step-2 map built field by field is empty exactly when all three fields pass |
| AddUserWizard.Wizard.HandleNext | app/dashboard/add/page.tsx:120-124 | the step goes up by exactly 1 when validation passes and stays otherwise; storage is rewritten only when the step moved |
| AddUserWizard.Wizard.HandlePrevious | app/dashboard/add/page.tsx:127-129 | the step goes down by exactly 1 with no validation; record and errors are unchanged |
| AddUserWizard.Wizard.HandleSubmit | app/dashboard/add/page.tsx:132-145 | both storage entries are removed; step, record and errors are unchanged |
| AddUserWizard.Reload | app/dashboard/add/page.tsx:20-56 | reloading while storage mirrors the page restores the same step and record, with no errors |
| UserList.Filter | app/dashboard/page.tsx:141-144 | the filter keeps, in order, exactly the users whose lower-cased name or city contains the lower-cased query, each as often as it occurs |
| UserList.Search | app/dashboard/page.tsx:137-147 | the empty query shows the full list; any query shows an ordered sublist holding exactly the matching users |
| UserList.FilterEmptyQuery | app/dashboard/page.tsx:137-139 | the empty query matches every user, so the filter alone would also give the full list |
| UserList.SubsequenceLength | app/dashboard/page.tsx:253 | an ordered sublist is no longer than its list |
| UserList.ShownAtMostTotal | app/dashboard/page.tsx:253 | in "Showing X of Y", X is at most Y |
| UserList.SearchIgnoresCase | app/dashboard/page.tsx:142-143 | searching for a query and for its lower-cased form gives the same list |
| UserList.Split | app/dashboard/page.tsx:64 | `split(' ')` gives at least one piece, no piece holds a space, and the last piece is empty exactly when the name is empty or ends with a space |
| UserList.JoinSplit | app/dashboard/page.tsx:64 | joining the pieces of `split(' ')` with spaces gives the name back |
| UserList.SplitJoin | app/dashboard/page.tsx:64 | splitting pieces joined with spaces gives the pieces back |
| UserList.InitialsAreWordStarts | app/dashboard/page.tsx:64 | the initials are the first character of each space-separated word, in order; empty pieces from repeated, leading or trailing spaces add nothing |

## Left out

- Rendering is not modelled: JSX, animations, the step indicator, toasts and the `console.log` of the submitted record.
- The server-side branch of the state initialisers (`typeof window` undefined) is not modelled. The model always takes the browser branch.
- Storage is a map from strings to strings. Storage exceptions, such as a full quota, are not modelled.
- AddUserWizard.Wizard.constructor: requires that a saved step parses and that a saved record decodes. Two cases are left out:
  - a stored step with no digits, which the page reads as `NaN`;
  - stored text that `JSON.parse` rejects or reads as something other than such a record, where the page throws.
- Snapshot.DecodeRecord reads only the layout `JSON.stringify` writes for the record. It does not accept whitespace, other key orders, extra keys or non-string values.
- Snapshot.ParseEscape: refuses a `\u` escape that names a surrogate code unit. Model strings are sequences of Unicode scalar values, so surrogate pairs are not represented.
- Strings are sequences of characters, not UTF-16 code units. For a word starting with a character outside the Basic Multilingual Plane, `n[0]` in the initials gives half a surrogate pair; the model gives the whole character.
- Text.ToLower: lower-cases ASCII letters only. `toLowerCase` also maps other letters.
- Decimal.ParseInt: reads into an unbounded integer. JavaScript numbers are doubles, which lose precision above 2^53.
- The browser's sanitising of an `<input type="email">` value is not modelled. `handleChange` is given the value as typed.
- Form.ClearError: removes the key. The code instead sets the entry to `undefined`, and the page treats an undefined entry like a missing one.
- React's render timing is not modelled. The effect is taken to run right after any handler that changed the record or the step.
  - An edit always creates a new record object, so it always triggers a write.
  - A failed Next and Submit change neither, so they do not.
- The `filteredUsers` state holder is not modelled. `UserList.Search` is the value `handleSearch` stores in it.
- The users fetch and its loading and error states are not modelled, nor is `app/api/usersData.ts` (an HTTP call plus random roles and statuses).
- Also not modelled: the login page, the navigation bar, the table library wiring and the pagination buttons.

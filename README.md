# Customer record validation and deletion gating

A Dafny model of the rule-bearing core of a React Native front end for customer
("cliente") records. It covers two components:

- The customer form (`UserForm`). It holds a draft of the record and a map of
  per-field error messages. Each edit re-validates one field. Submitting validates
  every property present in the draft and forwards the draft only when nothing fails.
- The customer detail screen (`UserDetailScreen`). It refuses to delete a customer
  younger than 80, reports the outcome of a delete request, and picks one of four
  views to show.

Modules, one per concern:

- `Wrappers`: `Option`.
- `Chars`: the `\s` and `\d` character sets, and `String.prototype.trim`.
- `Regex`: the regular-expression fragment the rules use. A pattern is anchored and
  is a sequence of quantified single-character atoms. `FullMatch` gives its meaning.
- `Dates`: `(year, month, day)` dates, their order, anniversaries, and ISO
  `YYYY-MM-DD` text.
- `UserModel`: the customer record, and the loosely typed draft object (a map from
  property name to a string, number or boolean value).
- `UserForm`: the rule table, written as the source's own regular expressions, with
  a plain-words lemma per rule. Also the age rule, the submission loop, and the
  `Form` class with its three handlers.
- `UserDetail`: the deletion gate, the delete outcome, the render precedence, and
  the `DetailScreen` class.

"Today" is a parameter wherever the source calls `new Date()`. Every request's
outcome (the fetched record, the delete's success) is also a parameter. Callbacks
and requests are recorded in the order they happen: the drafts passed to `onSubmit`,
and the screen's `effects`.

Three behaviours of the code are easy to miss, and the model keeps them as written:

- The edit form hides the `dni`, `gender` and `birth_date` inputs (`UserForm.tsx:166`),
  but the submit loop still checks every key of the draft (`UserForm.tsx:98`).
  Editing a fetched record therefore still checks those three fields
  (`EditedRecordChecksFixedFields`).
- Keys absent from the draft are never checked, so the empty draft of a new customer
  submits with no errors (`EmptyDraftPasses`).
- A `birth_date` that is not a date passes validation: its age is NaN, and
  `NaN < 18` is false (`UnparseableBirthDatePasses`).

## Model

| member | source | states |
|---|---|---|
| `UserForm.MessageFor` | src/presentation/components/molecules/UserForm.tsx:27-68 | a field has a (non-empty) message exactly when the rule table has a case for it |
| `UserForm.ValidateField` | src/presentation/components/molecules/UserForm.tsx:27-68 | the result is "" or the field's own message; any field with no case (ID, age, deleted, …) always gives "" |
| `Regex.FullMatch` | src/presentation/components/molecules/UserForm.tsx:28-54 | `^p$` matches s only when s is between the pattern's least and greatest lengths; its definition splits s into one run per quantified atom |
| `UserForm.NameRule` | src/presentation/components/molecules/UserForm.tsx:29-34 | first_name and last_name pass iff 2–50 characters, each an ASCII letter, one of áéíóúÁÉÍÓÚñÑ, or whitespace |
| `UserForm.PhoneRule` | src/presentation/components/molecules/UserForm.tsx:35-39 | phone passes iff exactly 9 ASCII digits |
| `UserForm.EmailPatternMeaning` | src/presentation/components/molecules/UserForm.tsx:41 | `^[^\s@]+@[^\s@]+\.[^\s@]+$` matches s iff s has no whitespace, exactly one @ (not first), and after it a dot that is neither the first nor the last character of the domain |
| `UserForm.EmailRule` | src/presentation/components/molecules/UserForm.tsx:40-44 | email passes iff the value has that address shape |
| `UserForm.EmailExamples` | src/presentation/components/molecules/UserForm.tsx:40-44 | "a@b.co" passes; "a@b" and "a.b@" fail |
| `Chars.Trim` | src/presentation/components/molecules/UserForm.tsx:46 | the result is the part of s between a whitespace prefix and a whitespace suffix, and neither starts nor ends with whitespace |
| `Chars.TrimStart` | src/presentation/components/molecules/UserForm.tsx:46 | the result is a suffix of s; the characters dropped are all whitespace; the result does not start with whitespace |
| `Chars.TrimEnd` | src/presentation/components/molecules/UserForm.tsx:46 | the result is a prefix of s; the characters dropped are all whitespace; the result does not end with whitespace |
| `Chars.TrimEmptyIffAllSpace` | src/presentation/components/molecules/UserForm.tsx:46 | trim() is empty iff every character is whitespace |
| `UserForm.CityRule` | src/presentation/components/molecules/UserForm.tsx:45-49 | city fails iff it is empty or only whitespace |
| `UserForm.DniRule` | src/presentation/components/molecules/UserForm.tsx:50-54 | dni passes iff exactly 8 ASCII digits |
| `UserForm.DniExamples` | src/presentation/components/molecules/UserForm.tsx:50-54 | "12345678" passes; "1234567", "123456789" and "1234567a" fail |
| `UserForm.BirthDateRule` | src/presentation/components/molecules/UserForm.tsx:55-60 | a parsable birth date passes iff the computed age is at least 18, i.e. iff the 18th birthday is on or before today |
| `UserForm.UnparseableBirthDatePasses` | src/presentation/components/molecules/UserForm.tsx:55-60 | a birth date text that is not a date passes (NaN < 18 is false) |
| `UserForm.GenderRule` | src/presentation/components/molecules/UserForm.tsx:61-65 | gender fails iff it is the empty string |
| `UserForm.CalculateAge` | src/presentation/components/molecules/UserForm.tsx:70-78 | the age is the number of birthdays reached: the anniversary of that many years is on or before today, the next one is after |
| `UserForm.AgeCountsBirthdays` | src/presentation/components/molecules/UserForm.tsx:70-78 | the n-th birthday has come iff n is at most the age |
| `UserForm.AgeRule` | src/presentation/components/molecules/UserForm.tsx:72-77 | the age is the year difference, less one exactly when today's (month, day) is before the birth (month, day) |
| `UserForm.AgeOnBirthday` | src/presentation/components/molecules/UserForm.tsx:74-77 | born on today's month and day N years ago gives N |
| `UserForm.AgeOnEveOfBirthday` | src/presentation/components/molecules/UserForm.tsx:74-75 | on the day before the N-th birthday the age is N − 1, also when that day is the last of a month or of the year |
| `UserForm.AgeMonotone` | src/presentation/components/molecules/UserForm.tsx:70-78 | a later "today" never gives a smaller age |
| `Dates.ParseIsoDate` | src/presentation/components/molecules/UserForm.tsx:56 | text read as a date is a real calendar date with a four-digit year, otherwise an Invalid Date |
| `Dates.FormatIsoDate` | src/presentation/components/molecules/UserForm.tsx:86 | the text written for a chosen date is ten characters, `YYYY-MM-DD`, with dashes at positions 4 and 7 |
| `Dates.ParseFormat` | src/presentation/components/molecules/UserForm.tsx:86 | the ISO text stored for a chosen date reads back as that date |
| `Dates.FormatParse` | src/presentation/components/molecules/UserForm.tsx:56 | a text that reads as a date is that date's ISO text (reading is injective) |
| `UserForm.Form.constructor` | src/presentation/components/molecules/UserForm.tsx:21-25 | the draft starts as the initial data, the error map empty, edit mode iff the initial data has a truthy ID |
| `UserForm.InputFields` | src/presentation/components/molecules/UserForm.tsx:115-196 | first_name, last_name, phone, email and city are always typed into; dni and gender iff not editing; birth_date never through onChangeText (its field opens the date picker) |
| `UserForm.EditModeHidesFixedFields` | src/presentation/components/molecules/UserForm.tsx:166-209 | in edit mode exactly dni, gender and birth_date cannot be edited; when creating only birth_date is not typed into |
| `UserForm.IsEditMode` | src/presentation/components/molecules/UserForm.tsx:25 | edit mode needs an ID property, and a falsy ID (0, "", false) never gives it |
| `UserForm.EditModeOfRecord` | src/presentation/components/molecules/UserForm.tsx:25 | a fetched record opens the form in edit mode iff its ID is not 0 |
| `UserForm.Form.OnChangeText` | src/presentation/components/molecules/UserForm.tsx:119-122 | the field's error becomes its validation result ("" if valid, not removed), the draft takes the text, nothing else changes |
| `UserForm.Form.HandleDateChange` | src/presentation/components/molecules/UserForm.tsx:80-94 | no date chosen: nothing changes; otherwise birth_date becomes the ISO text and its error is the age-18 rule on the chosen date |
| `UserForm.SubmitErrors` | src/presentation/components/molecules/UserForm.tsx:97-103 | every error key is a present, ruled field, mapped to that field's message |
| `UserForm.CollectErrors` | src/presentation/components/molecules/UserForm.tsx:97-103 | the loop over the draft's keys, in any order, builds exactly the map of present keys whose validation is non-empty |
| `UserForm.Form.HandleSubmit` | src/presentation/components/molecules/UserForm.tsx:96-111 | the error map is replaced by the draft's failing keys; onSubmit gets the unchanged draft once iff there are none |
| `UserForm.SubmitGate` | src/presentation/components/molecules/UserForm.tsx:105-110 | there are no errors iff every present key passes its rule |
| `UserForm.EmptyDraftPasses` | src/presentation/components/molecules/UserForm.tsx:21-22 | the empty draft of a new customer has no errors |
| `UserForm.OneFailingField` | src/presentation/components/molecules/UserForm.tsx:96-111 | with one failing field and the rest passing, the error map is that field's message alone |
| `UserForm.EditedRecordChecksFixedFields` | src/presentation/components/molecules/UserForm.tsx:98-103 | submitting a fetched record reports dni iff it is not 8 digits, gender iff it is empty, and birth_date iff it is a date with an age under 18 (never when it is not a date), edit mode or not |
| `UserModel.AsDraft` | src/core/models/User.ts:1-13 | a fetched record as a draft has exactly the record's eleven properties, each holding that property's value of the record |
| `UserDetail.CalculateAge` | src/presentation/screens/UserDetailScreen.tsx:73-81 | the screen's age rule equals the form's for all dates |
| `UserDetail.BirthDateOf` | src/presentation/screens/UserDetailScreen.tsx:84-89 | with no customer there is no date; otherwise the date is the customer's birth date text read as a date |
| `UserDetail.DeleteGate` | src/presentation/screens/UserDetailScreen.tsx:83-99 | an invalid birth date stops the handler; deletion proceeds iff the 80th birthday is on or before today, else it is refused |
| `UserDetail.DeleteBoundary` | src/presentation/screens/UserDetailScreen.tsx:93-98 | age 79 is refused, age 80 proceeds |
| `UserDetail.DeleteEffects` | src/presentation/screens/UserDetailScreen.tsx:56-71 | one delete request, first; refresh and then go-back iff it succeeded; after a failure the request alone |
| `UserDetail.DetailScreen.DeleteUser` | src/presentation/screens/UserDetailScreen.tsx:56-71 | loading ends whatever the outcome; the error is set only on failure (then the error view shows); user and flag unchanged |
| `UserDetail.DetailScreen.HandleDeleteUser` | src/presentation/screens/UserDetailScreen.tsx:83-99 | invalid date: nothing changes; under 80: flag raised, no request; from 80: exactly one delete request and flag cleared |
| `UserDetail.DetailScreen.FetchUser` | src/presentation/screens/UserDetailScreen.tsx:26-39 | one get request; whatever a resolved request returns is stored as the user, an empty body too (then, with no earlier error, the not-found view shows); a failure sets the error and shows the error view; loading ends |
| `UserDetail.DetailScreen.constructor` | src/presentation/screens/UserDetailScreen.tsx:19-24 | no user, loading, no error, flag down: the loading view |
| `UserDetail.Render` | src/presentation/screens/UserDetailScreen.tsx:102-127 | loading first, then a non-empty error, then no customer, then the details |

## Left out

- HTTP transport, the data source, the repository and the use cases are not modelled.
  Each request's outcome is a parameter, and issuing a request is an entry in the
  effect log.
- Navigation: the `beforeRemove` listener, `navigation.goBack`, `dispatch` and the move
  to the edit screen are not modelled. Going back and the refresh callback are effect
  log entries only.
- The list, create/edit, sample and app screens and the text field component are not
  modelled. They hold no rules.
- Asynchrony and React's state updates are not modelled. Each handler runs to
  completion as one step, so batching, stale `formData` closures and the interleaving
  of `deleteUser` with `setShouldNotDelete` are not represented.
- `Dates.ParseIsoDate`: JavaScript's `new Date(text)` is modelled for the date-only
  ISO form `YYYY-MM-DD` only. Any other text, including ISO date-times and
  engine-tolerated days such as 31 February, is treated as an Invalid Date.
- Time zones are not modelled. `toISOString` is UTC while `getFullYear`, `getMonth` and
  `getDate` are local, and the model takes dates as time-zone free.
- `UserForm.Form.HandleDateChange`: requires a chosen date with a four-digit year. The
  six-digit extended years of `toISOString` are not modelled.
- `UserForm.ValidateField`: requires a string value for the fields the rule table
  covers. At run time those fields hold strings: JSON text from the API, and the ISO
  text `handleDateChange` stores (`UserForm.tsx:86`). JavaScript's coercion of a
  non-string value there (or `trim` throwing on one) is not modelled.
- The type of `birth_date`: the draft holds it as text, although `User.ts:11` types it
  as a `Date`. No `Date` object ever reaches that property at run time, so the typing
  difference is not modelled.
- `UserModel.Value`: numbers are integers. JavaScript's floating-point numbers, NaN
  and -0 are not modelled.
- Regular expressions are modelled as the anchored fragment the rules use, over code
  points. JavaScript matches these patterns over UTF-16 code units. The verdicts are
  the same, for two reasons. A character outside the Basic Multilingual Plane fails
  the name and digit classes either way. Inside `[^\s@]+` such a character only
  lengthens a run that must be non-empty anyway.
- `UserDetail.DetailScreen.FetchUser`: a resolved body is a customer or nothing. A truthy
  body that is not a customer record (a non-empty string, say) is not modelled.
- Rendering, styling, `Platform.OS` checks, the picker modal's visibility flag and
  `console` logging are not modelled.

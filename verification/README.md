# Account persistence and validation, modelled in Dafny

This project models the logic core of a small account-management form. The
form lets a user create, edit, delete and list credential records
("accounts"). Each account has a type (LDAP or local), a login, an optional
password and free-text labels. The core has three parts:

- **Label codec** (`labels.dfy`, module `Labels`). `ParseLabels` turns a
  `;`-delimited string into a list of trimmed, non-empty labels.
  `FormatLabels` joins label texts with `"; "`. The JavaScript built-ins
  they rely on (`trim`, `split` on one character, `join`) are modelled in
  `js_string.dfy` (module `JsString`). There `trim` strips exactly the
  ECMAScript WhiteSpace and LineTerminator characters.
- **Field validator** (`validation.dfy`, module `Validation`). It has three
  per-field rules, the name-keyed dispatch table `ValidationMethods`,
  `validateAccount` and `hasValidationErrors`. The error map is a
  `map<Field, Option<string>>`, so "key present with value `undefined`"
  (`Some(None)`) stays distinct from "key absent". Each rule's effect on its
  own key is an `Effect`: `Untouched`, or `Written(message or undefined)`.
- **Account store** (`store.dfy`, module `AccountStore`). It has load, save,
  add, update, remove and find-by-id. These are pure transitions on a
  `Store`: the in-memory `seq<Account>` plus the storage slot. Every change
  of the list ends with a save of the whole list.

The shared records are in `account_types.dfy`: `Label`, `AccountType`,
`Account`, `AccountFormData`, `Field` and `ValidationErrors`. The `Option`
type is in `wrappers.dfy`.

Some behaviours of the code are easy to misread; the model follows the code:

- The labels rule compares the numeric value of the labels string
  (JavaScript unary `+`) with 50. It does not compare the string's length,
  even though its message says "at most 50 characters". A long
  non-numeric string therefore never gets a message.
- The dispatch key for labels is `"label"` (singular). Passing `"labels"`
  or `"type"` runs no rule and returns an empty map. An empty field name
  runs every rule, as an omitted one does.
- `hasValidationErrors` counts keys, not messages. Validating every field
  of a complete form always writes the login and password keys, so it
  always reports errors (`Validation.CompleteFormAlwaysHasErrors`).
  Whether a real message is present is characterised separately
  (`Validation.MessagesIffUnacceptable`).
- The local account type is the string `"Локальная"`. The Russian message
  texts are carried as constants.

## Model

| member | source | states |
|---|---|---|
| JsString.Trim | src/shared/lib/labels.ts:10 | `trim` yields a string with no leading or trailing whitespace, and it is empty exactly when the input is all whitespace |
| JsString.TrimStripsPrefixAndSuffix | src/shared/lib/labels.ts:10 | the result of `trim` is a contiguous piece of the input with only whitespace before and after it; with `Trim`'s own contract this fixes the result uniquely |
| JsString.TrimOfTrimmed | src/shared/lib/labels.ts:10 | an already-trimmed string is unchanged by `trim` |
| JsString.TrimSkipsLeadingSpace | src/shared/lib/labels.ts:10 | a leading space never affects the result of `trim` |
| JsString.Join | src/shared/lib/labels.ts:16 | `join` of no pieces is the empty string and of one piece is that piece; `JsString.JoinSplit` and `JsString.SplitJoin` fix the general case as the inverse of `split` |
| JsString.Split | src/shared/lib/labels.ts:9 | `split(";")` gives one more piece than there are `;` in the input, and no piece contains `;` |
| JsString.JoinSplit | src/shared/lib/labels.ts:9 | joining the pieces of `split` with the separator restores the input |
| JsString.SplitJoin | src/shared/lib/labels.ts:9 | `split` recovers any non-empty list of separator-free pieces from their join, so the pieces of a string are unique |
| JsString.SplitAtSeparator | src/shared/lib/labels.ts:9 | splitting `a;b` gives the pieces of `a` followed by the pieces of `b` |
| Labels.Clean | src/shared/lib/labels.ts:10-12 | the trim, non-empty filter and wrap steps never produce more labels than segments, and every label is non-empty and trimmed; `Labels.CleanOne` and `Labels.CleanAppend` fix which labels come out |
| Labels.CleanOne | src/shared/lib/labels.ts:10-12 | one segment gives exactly one label holding its trimmed text, or no label when the trimmed text is empty |
| Labels.CleanAppend | src/shared/lib/labels.ts:10-12 | the steps work segment by segment: the labels of two runs of segments are the labels of the first followed by those of the second, so order and duplicates are kept |
| Labels.ParseLabels | src/shared/lib/labels.ts:3-13 | every label is non-empty, trimmed and `;`-free; whitespace-only input gives no labels; there are at most (number of `;`) + 1 labels |
| Labels.ParseGuardRedundant | src/shared/lib/labels.ts:4-12 | the blank-input early return is redundant: split, trim and filter alone give the same labels on every input |
| Labels.ParseSegments | src/shared/lib/labels.ts:8-12 | parsing the `;`-join of `;`-free segments gives the cleaned segments; with `Labels.CleanOne` and `Labels.CleanAppend`, the labels are exactly the trimmed, non-empty segments, in input order, with duplicates kept |
| Labels.CleanWellFormed | src/shared/lib/labels.ts:10-12 | trimming and filtering `;`-free segments yields only non-empty, trimmed, `;`-free labels |
| Labels.FormatLabels | src/shared/lib/labels.ts:15-17 | no labels format to the empty string, and one label formats to its own text |
| Labels.SplitFormatCons | src/shared/lib/labels.ts:16 | the separator is `"; "`: splitting two or more formatted labels on `;` gives the first text, then the formatted rest with one space in front |
| Labels.FormatSeparators | src/shared/lib/labels.ts:15-17 | n labels whose texts contain no `;` format with exactly n - 1 `;` separators |
| Labels.RoundTrip | src/shared/lib/labels.ts:3-17 | parsing the formatted form of non-empty, trimmed, `;`-free labels gives the same labels back |
| Labels.ParseFormatParse | src/shared/lib/labels.ts:3-17 | parse, format, parse gives the same labels as one parse, for every string |
| Labels.ParseBlankExamples | src/shared/lib/labels.ts:4-6 | the empty string and a string of spaces parse to no labels |
| Validation.LabelsEffect | src/shared/lib/validation.ts:14-18 | the labels rule writes its message exactly when the numeric value of the string exceeds 50; it never clears the key |
| Validation.LoginEffect | src/shared/lib/validation.ts:20-30 | an undefined login leaves the key absent; an empty login gives "required"; a login over 100 long gives "max 100"; otherwise the key is present and undefined, i.e. exactly when the login meets the account invariant |
| Validation.PasswordEffect | src/shared/lib/validation.ts:32-42 | an undefined password leaves the key absent; an empty password gives "required" exactly for a local account; over 100 long gives "max 100" for either type; otherwise the key is present and undefined, including an empty LDAP password |
| Validation.Run | src/shared/lib/validation.ts:14-42 | a rule that writes sets its own key to its outcome; a rule that does not write leaves the map exactly as it was; no rule changes another key's presence or value |
| Validation.Lookup | src/shared/lib/validation.ts:5-12 | the dispatch table knows exactly `"label"`, `"login"` and `"password"`, and maps each to its own rule |
| Validation.RunAll | src/shared/lib/validation.ts:52 | running the table's rules keeps every existing key, adds only keys owned by the table's rules, and leaves the value of every other key as it was |
| Validation.RunAllInOrder | src/shared/lib/validation.ts:52 | running the whole table applies the labels, login and password rules in insertion order |
| Validation.ValidateAccount | src/shared/lib/validation.ts:44-56 | `"label"` can only produce the `labels` key, present iff the numeric value exceeds 50; `"login"` only `login`, present iff the login is defined; `"password"` only `password`, present iff the password is defined; the value under the key is the rule's outcome; any other non-empty name gives an empty map; the `type` key is never produced |
| Validation.RulesCommute | src/shared/lib/validation.ts:14-42 | any two different rules give the same map whichever runs first |
| Validation.AllFieldsIsDisjointUnion | src/shared/lib/validation.ts:44-56 | validating every field, by omitted or empty name, equals the union of the three single-field results, whose key sets are pairwise disjoint |
| Validation.HasValidationErrors | src/shared/lib/validation.ts:58-60 | the map has errors iff at least one key is present, whatever its value |
| Validation.CompleteFormAlwaysHasErrors | src/shared/lib/validation.ts:20-60 | validating every field of a complete form always sets the login and password keys, so it always reports errors |
| Validation.MessagesIffUnacceptable | src/shared/lib/validation.ts:14-56 | validating every field of a complete form yields some actual message iff some field breaks its rule |
| Validation.EmptyLocalFormExample | src/shared/lib/validation.ts:44-56 | an empty local form gets exactly a login "required" and a password "required" message, and no labels key |
| AccountStore.LoadAccounts | src/entities/account/model/store.ts:18-28 | loading gives the stored list, or the empty list when the slot is missing or unparsable, without failing |
| AccountStore.SaveAccounts | src/entities/account/model/store.ts:30-38 | saving never changes the in-memory list; after a successful save a fresh load returns that list; a failed save changes nothing |
| AccountStore.BuildAccount | src/entities/account/model/store.ts:41-47 | a built record has the parsed labels, the form's type and login, and a password exactly when the type is local, equal to the form's |
| AccountStore.FindIndex | src/entities/account/model/store.ts:55 | the result is the first index holding the id, or none when no record holds it |
| AccountStore.AddAccount | src/entities/account/model/store.ts:40-52 | add appends exactly the built record, leaves earlier records unchanged and returns the appended record; after a successful save the slot holds the new list |
| AccountStore.UpdateAccount | src/entities/account/model/store.ts:54-66 | update keeps the length, replaces only the first matching record by one built from the form under the same id, and is a no-op without saving for an unknown id |
| AccountStore.RemoveAccount | src/entities/account/model/store.ts:68-74 | remove deletes exactly the first matching record and keeps the rest in order; it is a no-op without saving for an unknown id |
| AccountStore.GetAccountById | src/entities/account/model/store.ts:76-78 | the lookup returns the first record with the id, or none iff no record holds it |
| AccountStore.AddFreshIdKeepsIdsUnique | src/entities/account/model/store.ts:40-51 | adding under an id no record holds keeps ids unique |
| AccountStore.UpdateKeepsIds | src/entities/account/model/store.ts:54-66 | update never changes any record's id, so unique ids stay unique |
| AccountStore.RemoveKeepsOthers | src/entities/account/model/store.ts:68-74 | every record left after a removal was in the list before |
| AccountStore.RemoveThenFindNone | src/entities/account/model/store.ts:68-78 | with unique ids, looking up a removed id finds nothing |
| AccountStore.MutationsKeepPasswordsConsistent | src/entities/account/model/store.ts:40-74 | add, update and remove keep every password present exactly for local accounts |
| AccountStore.ReloadAfterAdd | src/entities/account/model/store.ts:18-51 | after a successful add, a store loaded fresh from the same slot holds the same list, including the added record |
| AccountStore.LdapDropsPassword | src/entities/account/model/store.ts:46 | an LDAP account never keeps the form's password |
| AccountStore.AddLdapScenario | src/entities/account/model/store.ts:40-52 | adding LDAP "alice" labelled "vpn; prod" gives labels "vpn" and "prod" and no password |

## Left out

- `generateId` (from `src/shared/lib/id`) is not part of this model. The new id is a parameter of `AddAccount`. Uniqueness is proved only under a "fresh id" precondition.
- `localStorage` and `JSON.stringify`/`JSON.parse` are replaced by one abstract slot, `Option<Blob>`. A blob is either an encoded list or unparsable. A save either succeeds, copying the list into the slot, or fails and leaves the slot as it was. Success is a boolean parameter.
- `loadAccounts` on text that parses as JSON but is not a list of accounts is not modelled. The source would put whatever value it parsed into the list.
- The fixed storage key `"accounts"` is implicit: there is only one slot.
- `console.log` and `console.error` diagnostics are left out. They have no effect on state.
- Pinia reactivity, `defineStore` and the `accountsList` getter are left out. The getter is an identity view of the list.
- JavaScript unary `+` string-to-number coercion (`validateLabels`) is a parameter `toNumber: string -> JsNumber`. Its result is NaN, an infinity or a finite real. Floating-point parsing is not modelled.
- String length is the Dafny sequence length, not the UTF-16 code-unit count of JavaScript's `.length`.
- The labels field of a form is always a defined string in the model. The source would coerce an undefined one to NaN, which gives no message either.
- Cross-tab sharing of the storage slot (last writer wins) is outside this single-process model.
- `src/main.ts` and `vite.config.ts` are left out. They are application bootstrap, theme colours and build configuration, with no logic.

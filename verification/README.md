# GContentProvider contacts app — a Dafny model

GContentProvider is a small Android app that lists the phone contacts of the
system contacts store, edits and deletes them, deletes several at once in a
multi-select mode, and bulk-rewrites Vietnamese mobile numbers from the
retired `0167` prefix (also in international form `84167`) to `037`. This
project models the sequential logic of the app in Dafny:

- the list adapter (`ContactAdapter`) as a pure state machine over a
  name-sorted snapshot, a multi-select flag and a set of selected contacts,
  with the screen's two callbacks returned as events;
- the list screen (`MainActivity`): the phone-prefix rewrite and its
  pre-scan, the reload rule for returning edit screens, opening the editor,
  and the bulk delete;
- the edit screen (`EditContactActivity`): opening, validation, the
  insert/update choice of save, delete, and the first-row raw-contact lookup.

The contacts store is an oracle: every answer it gives (lookup rows, rows
updated or deleted, the id segment of an inserted raw contact's URI, the
list a reload reads) is a parameter. The edit screen's and the bulk
delete's requests come back as `EditScreen.StoreCall` values; the
conversion's updates come back as `PhoneConversion.PhoneUpdate` values; the
queries behind the convert button, the conversion pass and each reload
appear only as the rows passed in. Toasts are modelled as which toast is shown, not
its text: the edit screen's and the bulk delete's toasts are
`EditScreen.Notice` values; the conversion's are `ConvertPrompt.NothingToConvert`
and the `failedIds` and `summary` fields of `ConvertReport`; the delete bar's
"nothing selected" toast is `DeletePrompt.NothingSelected`. Kotlin library behaviour the logic relies on is
modelled explicitly: `String.compareTo` (`StringOrder`), `startsWith`,
`indexOf` and `replaceFirst` (`Text`), `toLongOrNull` and `Long.toString`
(`LongParse`); `sortedBy` is a stable sort (`Contacts.SortByName`).

Modules: `Wrappers`, `StringOrder`, `Text`, `LongParse`, `Contacts`,
`Adapter`, `PhoneConversion`, `EditScreen`, `MainScreen`, one file each.

Behaviour of the code worth knowing:

- the edit screen's delete button is shown whenever a `Contact` extra is
  passed, and the add button passes a placeholder with no id, so the delete
  button is also shown when adding; pressing it only shows "No contact to
  delete" (`EditScreen.AddFlowDeleteDoesNothing`);
- saving a new contact does not always report success: when the inserted
  raw contact's URI has no parseable id, save stops without a result and
  the screen stays open;
- a long press enters multi-select mode and then toggles the pressed
  contact, so it leaves exactly that contact selected when nothing was
  selected before, in either mode (`Adapter.LongPressSelectsOnlyPressed`),
  and a long press on an already selected contact deselects it;
- the conversion's update and the edit screen's phone update address the
  raw contact and the phone mimetype, not the single phone row, so each
  rewrites every phone number of that raw contact, including a second
  number that never had the retired prefix (`PhoneConversion.PhoneUpdate`,
  `EditScreen.StoreCall`); the edit screen's name update does the same for
  name rows.

## Model

| member | source | states |
|---|---|---|
| StringOrder.LexLeReflexive | app/src/main/java/com/example/gcontentprovider/ContactAdapter.kt:25 | every name is `<=` itself in the order `sortedBy` compares names by |
| StringOrder.LexLeAntisymmetric | app/src/main/java/com/example/gcontentprovider/ContactAdapter.kt:25 | two names each `<=` the other are equal |
| StringOrder.LexLeTransitive | app/src/main/java/com/example/gcontentprovider/ContactAdapter.kt:25 | the name order is transitive |
| StringOrder.LexLeTotal | app/src/main/java/com/example/gcontentprovider/ContactAdapter.kt:25 | any two names are comparable, so the name order is total and a sorted list is well defined |
| Contacts.SortByNameOrdered | app/src/main/java/com/example/gcontentprovider/ContactAdapter.kt:25 | the sorted list is ordered by name: case-sensitive lexicographic character order, a proper prefix first |
| Contacts.SortByNamePermutes | app/src/main/java/com/example/gcontentprovider/ContactAdapter.kt:25-27 | the sorted list is a permutation of the input: every contact occurs as often as in the input |
| Contacts.SortByNameStable | app/src/main/java/com/example/gcontentprovider/ContactAdapter.kt:25 | `sortedBy` is stable: for every name, the contacts bearing it appear in the same relative order as in the input |
| Contacts.SortByNameLength | app/src/main/java/com/example/gcontentprovider/ContactAdapter.kt:25-27 | nothing is dropped or duplicated: the displayed list has the input's length |
| Contacts.SortExample | app/src/main/java/com/example/gcontentprovider/ContactAdapter.kt:24-27 | loading Bob then Ann displays Ann then Bob |
| Adapter.SetContacts | app/src/main/java/com/example/gcontentprovider/ContactAdapter.kt:24-29 | the displayed list becomes a name-sorted permutation of the new list, and mode and selection survive the reload |
| Adapter.EnterMultiSelectMode | app/src/main/java/com/example/gcontentprovider/ContactAdapter.kt:31-35 | mode on, selection and list kept, the observer is told `true` |
| Adapter.ExitMultiSelectMode | app/src/main/java/com/example/gcontentprovider/ContactAdapter.kt:37-42 | mode off, selection empty, list kept, the observer is told `false` |
| Adapter.Toggle | app/src/main/java/com/example/gcontentprovider/ContactAdapter.kt:85-90 | the toggled contact's membership flips and every other contact's membership is unchanged |
| Adapter.ToggleTwice | app/src/main/java/com/example/gcontentprovider/ContactAdapter.kt:85-90 | toggling the same contact twice restores the selection |
| Adapter.SelectedContacts | app/src/main/java/com/example/gcontentprovider/ContactAdapter.kt:44 | the list holds exactly the selected contacts, each once, so its size is the selection's size |
| Adapter.BindRow | app/src/main/java/com/example/gcontentprovider/ContactAdapter.kt:51-78 | a row shows its contact's name and phone, its checkbox is visible iff in multi-select mode, and it is checked iff the contact is selected |
| Adapter.Tap | app/src/main/java/com/example/gcontentprovider/ContactAdapter.kt:58-64 | in multi-select mode a tap toggles the contact and fires no click; otherwise it fires `onItemClick(contact)` and changes nothing |
| Adapter.LongPress | app/src/main/java/com/example/gcontentprovider/ContactAdapter.kt:66-70 | afterwards the mode is on, the observer was told `true`, the pressed contact's membership is flipped, and an unselected contact becomes selected |
| Adapter.CheckboxTap | app/src/main/java/com/example/gcontentprovider/ContactAdapter.kt:80-82 | the checkbox toggles its contact whatever the mode, leaving mode and list alone and firing nothing |
| Adapter.ApplyKeepsValid | app/src/main/java/com/example/gcontentprovider/ContactAdapter.kt:58-82 | every action possible on screen keeps "nothing selected outside multi-select mode" |
| Adapter.RunKeepsValid | app/src/main/java/com/example/gcontentprovider/ContactAdapter.kt:24-90 | any sequence of on-screen actions from a valid adapter ends in a valid adapter |
| Adapter.LongPressSelectsOnlyPressed | app/src/main/java/com/example/gcontentprovider/ContactAdapter.kt:66-70 | a long press with nothing selected, in either mode, leaves exactly the pressed contact selected |
| Adapter.HiddenCheckboxTapBreaksValid | app/src/main/java/com/example/gcontentprovider/ContactAdapter.kt:72-82 | the invariant depends on the checkbox being hidden outside multi-select mode: a tap on it there would select a contact in single mode |
| Text.ReplaceFirst | app/src/main/java/com/example/gcontentprovider/MainActivity.kt:158-159 | `replaceFirst` replaces the first occurrence of the target, keeping what precedes and follows it, and leaves a string without the target unchanged |
| Text.ReplaceFirstOfPrefix | app/src/main/java/com/example/gcontentprovider/MainActivity.kt:157-159 | for a string that starts with the target, `replaceFirst` swaps exactly that prefix |
| PhoneConversion.ConvertedNumber | app/src/main/java/com/example/gcontentprovider/MainActivity.kt:157-161 | a rewrite happens iff the number starts with `0167` or `84167`; `0167…` becomes `037` plus the characters after the first 4, `84167…` becomes `037` plus those after the first 5 |
| PhoneConversion.ConvertedIsFixedPoint | app/src/main/java/com/example/gcontentprovider/MainActivity.kt:157-161 | every rewritten number starts with `037`, matches neither prefix and is not rewritten again |
| PhoneConversion.ConvertIdempotent | app/src/main/java/com/example/gcontentprovider/MainActivity.kt:157-163 | running the conversion twice gives the same numbers as running it once |
| PhoneConversion.ConversionExamples | app/src/main/java/com/example/gcontentprovider/MainActivity.kt:157-161 | `0167123456` and `84167123456` both become `037123456`; `090000000` is kept |
| PhoneConversion.Matching | app/src/main/java/com/example/gcontentprovider/MainActivity.kt:152-163 | the rows a pass rewrites are exactly the cursor rows whose number needs conversion |
| PhoneConversion.ScanCandidates | app/src/main/java/com/example/gcontentprovider/MainActivity.kt:81-90 | the pre-scan collects one placeholder contact (id, empty name, number) per row the conversion would rewrite, in cursor order |
| PhoneConversion.ConvertPromptFor | app/src/main/java/com/example/gcontentprovider/MainActivity.kt:70-106 | the confirmation appears iff some number needs conversion, and shows how many; an absent cursor gives the "nothing to convert" notice |
| PhoneConversion.PromptCountsMatching | app/src/main/java/com/example/gcontentprovider/MainActivity.kt:86-95 | the count in the confirmation is the number of rows the conversion pass rewrites |
| PhoneConversion.EveryUpdateAccountedFor | app/src/main/java/com/example/gcontentprovider/MainActivity.kt:178-182 | each rewritten row is either counted as updated or reported as failed, never both or neither |
| PhoneConversion.UpdatesAreFinal | app/src/main/java/com/example/gcontentprovider/MainActivity.kt:157-176 | every number a pass writes starts with `037` and needs no further conversion |
| PhoneConversion.ConvertPhoneNumbers | app/src/main/java/com/example/gcontentprovider/MainActivity.kt:135-194 | one update per candidate row with its rewritten number; the new numbers whose update changed rows are collected in cursor order and "Updated N" counts them and failures are reported by id; the count matches the earlier prompt; an absent cursor sends nothing and shows no summary; the list is always reloaded |
| LongParse.ParseLong | app/src/main/java/com/example/gcontentprovider/EditContactActivity.kt:181 | `toLongOrNull` gives a value exactly for digits, `+digits` or `-digits` whose value fits a 64-bit Long (down to -2^63 for the `-` form); plain and `+` forms read as the digits' value, the `-` form as its negation |
| LongParse.ParseShowLong | app/src/main/java/com/example/gcontentprovider/EditContactActivity.kt:181 | every 64-bit id written in decimal parses back to itself |
| EditScreen.OpenEditor | app/src/main/java/com/example/gcontentprovider/EditContactActivity.kt:40-49 | the delete button is visible iff a `Contact` extra was passed; the extra fills the fields and supplies the id |
| EditScreen.FirstRawContactId | app/src/main/java/com/example/gcontentprovider/EditContactActivity.kt:217-235 | the lookup yields the first row's raw-contact id, and nothing when the cursor is absent or empty |
| EditScreen.SaveContact | app/src/main/java/com/example/gcontentprovider/EditContactActivity.kt:98-215 | empty name and phone: no store call, a validation notice, no result, screen open; with an id: the lookup alone and the "not found" then "saved" notices when it finds nothing, otherwise the lookup, the name update and the phone update, with the failure notice before "saved" iff both updates changed 0 rows, and RESULT_OK plus close regardless; without an id: insert raw contact, then name and phone rows with only the "saved" notice, or stop silently when the URI's id does not parse; the screen closes iff it set RESULT_OK |
| EditScreen.DeleteContact | app/src/main/java/com/example/gcontentprovider/EditContactActivity.kt:60-96 | no id: notice, no store call; raw id not found: notice, screen open; delete removed rows: RESULT_OK and close; otherwise failure notice, screen open |
| EditScreen.AddFlowDeleteDoesNothing | app/src/main/java/com/example/gcontentprovider/EditContactActivity.kt:40-95 | the add flow's placeholder shows the delete button, and pressing it only shows "No contact to delete" |
| EditScreen.SaveCallsNeedValidInput | app/src/main/java/com/example/gcontentprovider/EditContactActivity.kt:104-107 | a save that reaches the store had a non-empty name or phone |
| EditScreen.InsertWithWellFormedUriCompletes | app/src/main/java/com/example/gcontentprovider/EditContactActivity.kt:172-214 | when the store's URI ends in the new id, the insert path adds the raw contact, then the name row, then the phone row, and closes with RESULT_OK |
| MainScreen.ShouldReload | app/src/main/java/com/example/gcontentprovider/MainActivity.kt:196-209 | a returning screen triggers a reload iff it returned RESULT_OK and the request code is 1 (add) or 2 (edit) |
| MainScreen.OnItemClick | app/src/main/java/com/example/gcontentprovider/MainActivity.kt:30-37 | a click opens the editor with request code 2 and the tapped contact iff the adapter is not in multi-select mode |
| MainScreen.ItemClickOpensEditor | app/src/main/java/com/example/gcontentprovider/MainActivity.kt:30-37 | every click the adapter reports leads to the editor being opened on that contact |
| MainScreen.EditorResultDrivesReload | app/src/main/java/com/example/gcontentprovider/MainActivity.kt:196-209 | for both the add and the edit flow, the list reloads iff the edit screen set RESULT_OK |
| MainScreen.SaveReloadsIffClosed | app/src/main/java/com/example/gcontentprovider/MainActivity.kt:196-209 | after a save on an editor opened by either flow, the list reloads iff the editor closed |
| MainScreen.DeleteReloadsIffClosed | app/src/main/java/com/example/gcontentprovider/MainActivity.kt:196-209 | after a delete on an editor opened by either flow, the list reloads iff the editor closed |
| MainScreen.DeletePromptFor | app/src/main/java/com/example/gcontentprovider/MainActivity.kt:50-67 | the delete confirmation appears iff something is selected and shows the selection's size |
| MainScreen.DeleteItem | app/src/main/java/com/example/gcontentprovider/MainActivity.kt:214-256 | a contact without id gives a notice and no store call; otherwise its raw contact is looked up, a missing one gives a notice, a found one is deleted with no notice |
| MainScreen.DeleteItemMatchesEditScreen | app/src/main/java/com/example/gcontentprovider/MainActivity.kt:215-246 | for any contact, the bulk delete sends the store the same lookup-then-delete requests as the edit screen's delete, and shows the same notice when no delete is sent (no id, or raw contact not found) |
| MainScreen.DeleteSelectedContacts | app/src/main/java/com/example/gcontentprovider/MainActivity.kt:211-263 | nothing selected: no store call, one notice, adapter unchanged; otherwise each selected contact is handled once on its own, then multi-select mode is left (observer told `false`) and the list reloaded; the selection always ends empty; the number of contacts handled is the count the delete bar's confirmation showed |

## Left out

- The contacts store's semantics (query, insert, update, delete): only its answers are modelled, as parameters.
- `loadContacts` (MainActivity.kt:265-290) is modelled only through the list it hands to `setContacts`; reading the cursor is store I/O.
- The permission request and its launcher, intents and the `Serializable` handoff, edge-to-edge insets, `onSupportNavigateUp`: platform plumbing. Leaving the edit screen without a result is `EditScreen.ResultCode` giving RESULT_CANCELED.
- View binding, `notifyDataSetChanged` / `notifyItemChanged` and its index lookup, the `Log` line, toast texts, dialog construction and dismissal: UI only.
- The random avatar tint: nondeterministic and cosmetic.
- Null display names or numbers from a cursor: names and phones are plain strings.
- MainScreen.DeleteSelectedContacts: the `setResult(RESULT_OK)` the list screen calls after a successful bulk delete is not modelled, because nothing receives a result from the list screen; the lookup's answer is a fixed function of the data id, so two selected contacts with the same data id get the same answer. The app can reach that case: the selection survives the reload that ends a conversion pass, so a converted contact can be selected again in its new form; the app's second lookup of that id may then find nothing and show "Failed to find RawContactId", where the model sends a second `DeleteRawContact`; the delete's answer changes nothing the list screen does, so it is not an input.
- MainScreen.DeleteSelectedContacts: the app visits the selection in the order the contacts were selected (`mutableSetOf` keeps insertion order); the model leaves that order unspecified, as the selection is a `set`.
- PhoneConversion.ConvertPhoneNumbers: the pre-scan and the conversion each query the store; the model gives both the same rows, so a store change between the confirmation and the pass is not modelled.
- LongParse.ParseLong: accepts only ASCII digits, while Kotlin's `toLongOrNull` also accepts other Unicode decimal digits.
- StringOrder.LexLe: compares characters as Unicode scalar values, while Kotlin compares UTF-16 code units; the two orders differ only between supplementary-plane characters and U+E000–U+FFFF.
- EditScreen.OpenEditor: without a `Contact` extra the fields are taken to start empty; their default text comes from the layout, which is not part of this model.
- Data ids and raw-contact ids are unbounded integers; they only come from the store, so Kotlin's 64-bit `Long` width matters only for parsing, where it is modelled.

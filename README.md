# Contact list: a verified model of the page logic

This project models the logic behind a contact-list page in Dafny:

- the one-edit string matcher used by the search box;
- the sort selector with its four name orders;
- the favorites list that is persisted to key-value storage;
- the debouncer that settles the search term;
- the contact-page controller, which derives the displayed list and handles the create, update, delete and favorite actions;
- the wire-to-domain contact mapper;
- the submit gates of the create and update forms.

Each module other than `ContactTypes` and `Strings` models one source file of the system:

- `EditDistance`: the two-cursor loop of `isEditDistanceOne`, proved against the recursive Levenshtein distance.
- `SortContacts`: `sortContacts`, a function whose result is a sorted permutation of its input.
- `ContactFavorites`: `useContactFavorites`. The toggle update is a pure function `Toggled`. The hook is class `Favorites`, which holds the list and a storage map from key to id list.
- `Debounce`: `useDebounce`, modelled as class `Debouncer` with an explicit virtual clock and a single pending timer slot.
- `ContactPage`: `useContactPage`. The filter-and-sort view is a set of pure functions. Class `ContactPageController` holds the page state, and each handler is a method.
  - An awaited repository call in a handler becomes a parameter of type `Outcome` (`Resolved(value)` or `Rejected`). This makes every try/catch/finally handler one sequential state transition.
- `ContactMapping`: `mapContact`, and the snake_case encoding that the update call builds.
- `CreateContactModal` and `UpdateContactModal`: the forms' `handleChange` and `handleSubmit`. The awaited callback is an `Outcome<()>` parameter.
- `ContactTypes` holds the shared records. `Strings` holds ASCII lower-casing, `includes`, and the decimal rendering of an id in a template string.

Points worth knowing:

- The matcher returns true exactly when the Levenshtein distance is at most 1 (`EditDistance.IsEditDistanceOne`).
- Toggling an id twice restores the favorites list only when the id was absent, or was already the last entry (`ContactFavorites.ToggleTwiceRestoresNonMember`, `ContactFavorites.ToggleTwiceMovesMemberToEnd`).
  - Removing a member and adding it back moves it to the end: `[1, 2]` becomes `[2, 1]` (`ContactFavorites.ToggleTwiceReorders`).
- The controller imports the matcher as `editDistanceOne` from a module that is not part of this model. The model uses the `isEditDistanceOne` loop in its place.
- The controller's test file expects a fetch on mount and a `loading` flag. The hook has neither: it takes the initial contacts as a parameter. The model follows the hook.
- The controller unpacks the favorites hook's result as an object with `favorites` and `toggleFavorite` fields (src/hooks/contacts/useContactPage.ts:53). The favorites hook returns a two-element array (src/hooks/contacts/useContactFavorites.ts:27). As written, both names are therefore undefined, and every `favorites.includes` call in the controller fails. In particular, a successful delete would fall into the catch branch after the list was already filtered, and would show the failure toast. The model uses the intended pair: the controller reads and toggles the favorites store directly.

## Model

| member | source | states |
|---|---|---|
| EditDistance.Levenshtein | src/utils/common/isEditDistanceONe.ts:1-4 | the edit distance the doc comment refers to: insertion, deletion and replacement each cost one |
| EditDistance.IsEditDistanceOne | src/utils/common/isEditDistanceONe.ts:6-44 | the loop, with its length pre-check, early return on a second mismatch and trailing-character check, returns true exactly when the Levenshtein distance is at most 1 |
| EditDistance.LevenshteinSymmetric | src/utils/common/isEditDistanceONe.ts:21-31 | the distance does not depend on argument order |
| EditDistance.WithinOneEditSymmetric | src/utils/common/isEditDistanceONe.ts:21-31 | swapping the two strings never changes the matcher's answer |
| EditDistance.WithinOneEditReflexive | src/utils/common/isEditDistanceONe.ts:16-43 | identical strings, including two empty strings, are accepted |
| EditDistance.LevenshteinSelf | src/utils/common/isEditDistanceONe.ts:16-43 | the distance from a string to itself is 0 |
| EditDistance.LevenshteinZeroMeansEqual | src/utils/common/isEditDistanceONe.ts:41-43 | distance 0 holds only between equal strings |
| EditDistance.LevenshteinLengthGap | src/utils/common/isEditDistanceONe.ts:10 | the distance is at least the difference of the lengths |
| EditDistance.LengthGapRejects | src/utils/common/isEditDistanceONe.ts:10 | lengths more than one apart are never within one edit |
| EditDistance.DropFirstIsOneEdit | src/utils/common/isEditDistanceONe.ts:21-26 | dropping the first character is a single edit, in either direction |
| EditDistance.CommonHead | src/utils/common/isEditDistanceONe.ts:33-37 | after a matching first character, the answer is the answer for the two tails |
| EditDistance.HeadMismatch | src/utils/common/isEditDistanceONe.ts:17-32 | after a first mismatch, the strings are within one edit exactly when the rest after skipping in the longer string (or in both, for equal lengths) is equal |
| EditDistance.SecondMismatchRejects | src/utils/common/isEditDistanceOne.test.ts:23 | "abcd" and "abef" are rejected |
| EditDistance.SkipThenMismatchRejects | src/utils/common/isEditDistanceOne.test.ts:22 | "test" and "toast" are rejected |
| EditDistance.SingleEditsAccepted | src/utils/common/isEditDistanceOne.test.ts:4-19 | one replacement, one insertion and one deletion are each accepted |
| SortContacts.Compare | src/utils/contacts/sortContacts.ts:12 | the name comparison returns -1, 0 or 1 |
| SortContacts.CompareAntisymmetric | src/utils/contacts/sortContacts.ts:12-16 | swapping the arguments negates the comparison, which is what makes the descending cases the reverse order |
| SortContacts.CompareZeroMeansEqual | src/utils/contacts/sortContacts.ts:12 | the comparison is 0 exactly for equal names |
| SortContacts.CompareTransitive | src/utils/contacts/sortContacts.ts:12 | the comparison is transitive, so it is a valid sort order |
| SortContacts.ParseSortOption | src/utils/contacts/sortContacts.ts:7-23 | a null or empty option selects no sort; each of the four labels selects its key; any other string selects none |
| SortContacts.Comparator | src/utils/contacts/sortContacts.ts:10-21 | the comparator of each case: first or last name, with the arguments swapped for the two descending keys; its order properties are InOrderTotal, InOrderTransitive and InOrderBothWays |
| SortContacts.InOrderTotal | src/utils/contacts/sortContacts.ts:10-21 | for every key, any two contacts can be ordered one way or the other |
| SortContacts.InOrderTransitive | src/utils/contacts/sortContacts.ts:10-21 | each of the four comparators is transitive |
| SortContacts.InOrderBothWays | src/utils/contacts/sortContacts.ts:10-21 | two contacts are in order both ways only when they share the sort name |
| SortContacts.Insert | src/utils/contacts/sortContacts.ts:11 | the insertion step adds exactly one copy of the element |
| SortContacts.InsertSorted | src/utils/contacts/sortContacts.ts:11 | inserting into a sorted list keeps it sorted |
| SortContacts.SortBy | src/utils/contacts/sortContacts.ts:11-21 | sorting a copy gives a permutation of the input, with the same length, ordered under the comparator |
| SortContacts.SortContacts | src/utils/contacts/sortContacts.ts:3-25 | with no recognised option the input comes back unchanged; otherwise the result is the input's permutation sorted by the chosen key |
| SortContacts.UnselectedOptionsKeepOrder | src/utils/contacts/sortContacts.ts:7-23 | null, "" and an unknown option return the input as it is |
| SortContacts.SortEmpty | src/utils/contacts/sortContacts.test.ts:147-150 | an empty list sorts to the empty list |
| SortContacts.SortedByName | src/utils/contacts/sortContacts.ts:10-21 | ascending keys give names in non-decreasing order; descending keys give names in non-increasing order |
| SortContacts.SortSortedIsIdentity | src/utils/contacts/sortContacts.ts:11 | a list already in order is returned unchanged |
| SortContacts.SortIdempotent | src/utils/contacts/sortContacts.ts:11-21 | sorting twice gives the same list as sorting once |
| SortContacts.SortedArrangementUnique | src/utils/contacts/sortContacts.ts:11-21 | when the sort name identifies each contact, the list has only one sorted arrangement |
| SortContacts.Reverse | src/utils/contacts/sortContacts.ts:14-17 | the reversal puts the last element first, and so on |
| SortContacts.ReverseMultiset | src/utils/contacts/sortContacts.ts:14-17 | reversal is a permutation |
| SortContacts.ReversedAscIsDesc | src/utils/contacts/sortContacts.ts:10-17 | a list sorted ascending by first name, read backwards, is sorted descending |
| SortContacts.FirstNameDescIsReversedAsc | src/utils/contacts/sortContacts.ts:10-17 | with distinct first names, the descending sort is exactly the ascending sort reversed |
| ContactFavorites.Remove | src/hooks/contacts/useContactFavorites.ts:22 | the filter keeps exactly the ids other than the given one, and never lengthens the list |
| ContactFavorites.Toggled | src/hooks/contacts/useContactFavorites.ts:20-24 | the toggle update: filter a present id out, append an absent one; its properties are the Toggle lemmas below |
| ContactFavorites.RemoveConcat | src/hooks/contacts/useContactFavorites.ts:22 | the filter commutes with concatenation, so the kept ids keep their relative order |
| ContactFavorites.RemoveAbsent | src/hooks/contacts/useContactFavorites.ts:22 | filtering out an absent id changes nothing |
| ContactFavorites.RemoveNoDuplicates | src/hooks/contacts/useContactFavorites.ts:22 | the filter keeps a list free of duplicates |
| ContactFavorites.RemoveOnceFromNoDuplicates | src/hooks/contacts/useContactFavorites.ts:22 | in a duplicate-free list, the filter cuts out exactly the one position holding the id |
| ContactFavorites.ToggleFlipsMembership | src/hooks/contacts/useContactFavorites.ts:19-25 | toggling flips the membership of the toggled id and no other |
| ContactFavorites.ToggleAppendsNonMember | src/hooks/contacts/useContactFavorites.ts:23 | a non-member is appended at the end; the earlier ids are unchanged |
| ContactFavorites.ToggleRemovesMember | src/hooks/contacts/useContactFavorites.ts:22 | a member is taken out; the others stay in order |
| ContactFavorites.ToggleKeepsNoDuplicates | src/hooks/contacts/useContactFavorites.ts:19-25 | toggling keeps the "no id twice" invariant |
| ContactFavorites.ToggleTwiceRestoresNonMember | src/hooks/contacts/useContactFavorites.ts:20-24 | adding an id and toggling it again restores the list |
| ContactFavorites.ToggleTwiceMovesMemberToEnd | src/hooks/contacts/useContactFavorites.ts:20-24 | removing a member and toggling it back moves it to the end; the list is restored only if the id was already last |
| ContactFavorites.ToggleTwiceReorders | src/hooks/contacts/useContactFavorites.ts:20-24 | toggling 1 twice turns [1, 2] into [2, 1] |
| ContactFavorites.Favorites.constructor | src/hooks/contacts/useContactFavorites.ts:6-17 | on mount the list is the stored list, or empty when nothing is stored, and storage under the key then holds that list |
| ContactFavorites.Favorites.Toggle | src/hooks/contacts/useContactFavorites.ts:15-25 | the list becomes its toggled form, and storage under the key is overwritten with it; other keys are untouched |
| ContactFavorites.FavoritesScenario | src/hooks/contacts/useContactFavorites.test.ts:13-30 | nothing stored gives []; toggling 1 and then 2 stores [1] and then [1, 2] |
| ContactFavorites.StoredFavoritesScenario | src/hooks/contacts/useContactFavorites.test.ts:18-41 | a stored [1, 2, 3] is loaded as it is, and toggling 2 out of it stores [1, 3] |
| Debounce.Debouncer.constructor | src/hooks/common/useDebounce.ts:4-17 | the first value is returned at once, and the render's own call arms a timer for it |
| Debounce.Debouncer.Call | src/hooks/common/useDebounce.ts:7-15 | a call cancels the pending timer and schedules the new value one delay from now, so at most one settlement is pending; the settled value does not change |
| Debounce.Debouncer.Advance | src/hooks/common/useDebounce.ts:12-14 | time passes and a timer that falls due fires; less than a delay after the latest call nothing settles; after a full delay the latest value is settled; no superseded value is ever settled; the settled value is always the initial value or one that was passed in |
| Debounce.QuickTypingScenario | src/hooks/common/useDebounce.test.ts:33-62 | with delay 500, an update superseded within the delay never settles, and the last update settles after the full delay |
| ContactMapping.MapContactFields | src/services/contacts/mapContact.ts:3-9 | each field is copied under its camelCase name, values unchanged, empty strings included |
| ContactMapping.MapContact | src/services/contacts/mapContact.ts:3-9 | the field-renaming transform from the wire record to the contact; its properties are the lemmas in this module |
| ContactMapping.EncodeContact | src/services/contacts/updateContact.ts:13-18 | the snake_case renaming of a contact's fields, as the update call builds it (the id travels in the request path); it inverts MapContact |
| ContactMapping.MapContactInvertsEncoding | src/services/contacts/updateContact.ts:13-18 | mapping the snake_case encoding of a contact gives the contact back |
| ContactMapping.EncodingInvertsMapContact | src/services/contacts/mapContact.ts:3-9 | encoding a mapped record gives the record back |
| ContactMapping.MapContactInjective | src/services/contacts/mapContact.ts:3-9 | distinct wire records map to distinct contacts |
| ContactTypes.WithField | src/components/contacts/CreateContactModal.tsx:28 | the spread update sets the named field and keeps the other three |
| ContactTypes.AllFieldsFilledExactly | src/components/contacts/CreateContactModal.tsx:32-37 | the submit guard holds exactly when all four fields are non-empty |
| CreateContactModal.CreateForm.constructor | src/components/contacts/CreateContactModal.tsx:16-22 | the form starts with all four fields empty and loading off |
| CreateContactModal.CreateForm.HandleChange | src/components/contacts/CreateContactModal.tsx:24-29 | only the named field changes, to the new value |
| CreateContactModal.CreateForm.HandleSubmit | src/components/contacts/CreateContactModal.tsx:31-49 | a complete form is passed to the callback once, loading ends off and a rejection is only logged; an incomplete form raises the required-fields alert, calls nothing and leaves loading alone |
| CreateContactModal.CreateFormScenario | src/components/contacts/CreateContactModal.test.tsx:79-132 | filling all four fields submits them; an untouched form alerts |
| UpdateContactModal.UpdateForm.constructor | src/components/contacts/UpdateContactModal.tsx:18-19 | the form starts as the contact being edited, loading off |
| UpdateContactModal.UpdateForm.HandleChange | src/components/contacts/UpdateContactModal.tsx:21-26 | only the named field changes; the id and the other fields are kept |
| UpdateContactModal.UpdateForm.HandleSubmit | src/components/contacts/UpdateContactModal.tsx:28-46 | a complete form, id included, is passed to the callback once, loading ends off and errors are swallowed; an incomplete form alerts and calls nothing |
| UpdateContactModal.UpdateFormScenario | src/components/contacts/UpdateContactModal.test.tsx:77-137 | after all four fields are edited, the new record is submitted once under the original id; a fresh form with a cleared first name alerts |
| Strings.Lower | src/hooks/contacts/useContactPage.ts:167-170 | lower-casing keeps the length and maps each character |
| Strings.Includes | src/hooks/contacts/useContactPage.ts:174 | the substring test of the search: the term is a prefix of the name or of one of its suffixes |
| Strings.IncludesWitness | src/hooks/contacts/useContactPage.ts:174 | a successful search yields the position where the term occurs |
| Strings.OccurrenceIncluded | src/hooks/contacts/useContactPage.ts:174 | an occurrence at any position makes the search succeed |
| Strings.IncludesAt | src/hooks/contacts/useContactPage.ts:174 | `includes` holds exactly when the term occurs at some position |
| Strings.IncludesEmpty | src/hooks/contacts/useContactPage.ts:174 | every string includes the empty term |
| Strings.NatToString | src/hooks/contacts/useContactPage.ts:194-195 | an id renders as a non-empty run of decimal digits without a leading zero |
| Strings.IntToString | src/hooks/contacts/useContactPage.ts:194-195 | the id as interpolated into the toast text: decimal digits, with a minus sign for a negative id (IntToStringSign, IntToStringInjective) |
| Strings.IntToStringSign | src/hooks/contacts/useContactPage.ts:194-195 | the rendering starts with a minus sign exactly for a negative id, followed by the digits of its magnitude |
| Strings.NatToStringInjective | src/hooks/contacts/useContactPage.ts:194-195 | distinct natural numbers render as distinct digit strings |
| Strings.NatToStringRoundTrip | src/hooks/contacts/useContactPage.ts:194-195 | reading the digits back gives the number |
| Strings.IntToStringInjective | src/hooks/contacts/useContactPage.ts:194-195 | distinct ids render as distinct strings |
| ContactPage.FilterContacts | src/hooks/contacts/useContactPage.ts:166-182 | the filter keeps exactly the contacts that meet the search and favorites conditions, every copy of each (per-contact counts), in their original order as a subsequence of the list |
| ContactPage.MatchesSearch | src/hooks/contacts/useContactPage.ts:167-176 | the search condition: an empty lower-cased term, the lower-cased "first last" including the term, or either lower-cased name within one edit of it |
| ContactPage.MatchesFavorite | src/hooks/contacts/useContactPage.ts:178-179 | the favorites condition: favorites-only is off, or the id is a favorite |
| ContactPage.Keep | src/hooks/contacts/useContactPage.ts:181 | a contact is kept when both conditions hold |
| ContactPage.DisplayedContacts | src/hooks/contacts/useContactPage.ts:184-187 | the filtered list sorted by the selected option's value, or by no option when none is selected; its properties are DisplayedContactsSpec |
| ContactPage.ContactPageController.Displayed | src/hooks/contacts/useContactPage.ts:184-201 | what the hook returns as its contacts: DisplayedContacts over the page's contacts, the settled search term, the favorites-only flag, the favorites and the selected sort |
| ContactPage.DisplayedContactsSpec | src/hooks/contacts/useContactPage.ts:166-187 | a contact is displayed exactly when it passes the filter; the displayed list is a permutation of the filtered list; it keeps the filtered order when no sort is recognised and is sorted by the chosen key otherwise |
| ContactPage.UnsortedDisplay | src/hooks/contacts/useContactPage.ts:184-187 | with no sort selected, the displayed list is the filtered list |
| ContactPage.WithoutId | src/hooks/contacts/useContactPage.ts:81-83 | the delete filter keeps exactly the contacts whose id differs from the target, every copy of each (per-contact counts), in their original order as a subsequence of the list |
| ContactPage.ReplaceById | src/hooks/contacts/useContactPage.ts:125-129 | the update map keeps the length and every id, replacing each entry with a matching id and leaving the others alone |
| ContactPage.DeleteUnfavorites | src/hooks/contacts/useContactPage.ts:84-86 | toggling the deleted id only when it is a favorite leaves the favorites filtered by that id: the id is gone and the other favorites keep their order |
| ContactPage.UpdateReplacesMatchingIds | src/hooks/contacts/useContactPage.ts:125-129 | the returned record appears in the list, and every other entry comes from the old list |
| ContactPage.FavoriteMessagesDistinct | src/hooks/contacts/useContactPage.ts:192-196 | the added and removed announcements never coincide, and differ from id to id |
| ContactPage.FavoriteToggledMessage | src/hooks/contacts/useContactPage.ts:193-195 | the toggle announcement: "Removed contact {id} from favorites" for a former favorite, "Added contact {id} to favorites" otherwise; FavoriteMessagesDistinct shows the texts never collide |
| ContactPage.ContactPageController.constructor | src/hooks/contacts/useContactPage.ts:48-70 | the page starts with the initial contacts, the stored favorites, every modal closed, no targets, no sort, an empty search and no toast; storage is the given map with only the favorites key set |
| ContactPage.ContactPageController.HideToast | src/hooks/contacts/useContactPage.ts:72-74 | the toast is cleared and nothing else changes |
| ContactPage.ContactPageController.HandleDeleteContact | src/hooks/contacts/useContactPage.ts:76-101 | with no target nothing changes; success removes every contact with the target id, toggles the id out of favorites only if it was one, and shows the success toast, with storage changed at the favorites key alone; failure shows the error toast and keeps contacts, favorites and storage; either way the modal closes and the target is cleared |
| ContactPage.ContactPageController.HandleCreateContact | src/hooks/contacts/useContactPage.ts:103-120 | success appends the created contact and shows the success toast; failure keeps the list and shows the error toast; the create modal ends closed either way |
| ContactPage.ContactPageController.HandleUpdateContact | src/hooks/contacts/useContactPage.ts:122-144 | success replaces each contact with the returned id and shows the success toast; failure shows the error toast; the modal ends closed and the target cleared either way |
| ContactPage.ContactPageController.OpenConfirmDeleteModal | src/hooks/contacts/useContactPage.ts:146-149 | the target is replaced and the delete modal opens; nothing else changes |
| ContactPage.ContactPageController.CloseConfirmDeleteModal | src/hooks/contacts/useContactPage.ts:151-154 | the target is cleared and the delete modal closes |
| ContactPage.ContactPageController.OpenUpdateModal | src/hooks/contacts/useContactPage.ts:156-159 | the update target is replaced and the update modal opens |
| ContactPage.ContactPageController.CloseUpdateModal | src/hooks/contacts/useContactPage.ts:161-164 | the update modal closes and its target is cleared |
| ContactPage.ContactPageController.SetCreateModalOpen | src/hooks/contacts/useContactPage.ts:56 | only the create-modal flag changes |
| ContactPage.ContactPageController.SetSelectedSort | src/hooks/contacts/useContactPage.ts:60-63 | only the selected sort changes |
| ContactPage.ContactPageController.SetShowFavoritesOnly | src/hooks/contacts/useContactPage.ts:52 | only the favorites-only flag changes |
| ContactPage.ContactPageController.SetSearchTerm | src/hooks/contacts/useContactPage.ts:64-65 | the raw term changes now; the debouncer schedules it 300 units ahead and the settled term stays as it was |
| ContactPage.ContactPageController.Tick | src/hooks/contacts/useContactPage.ts:65 | page state is untouched; once 300 units have passed since the last keystroke the settled term is the typed term, and before that it is unchanged |
| ContactPage.ContactPageController.HandleToggleFavorite | src/hooks/contacts/useContactPage.ts:189-198 | favorites are toggled, and the success toast says "Removed" if the id was a favorite before the toggle and "Added" otherwise; storage changes at the favorites key alone |
| ContactPage.SearchKeepsOnlyJane | src/hooks/contacts/useContactPage.test.ts:139-149 | searching "Jane" among John Doe and Jane Smith keeps Jane only |
| ContactPage.FavoritesOnlyKeepsJohn | src/hooks/contacts/useContactPage.test.ts:167-177 | with favorites [1] and favorites-only on, only John Doe is listed |
| ContactPage.SearchScenario | src/hooks/contacts/useContactPage.test.ts:139-149 | typing "Jane" leaves both contacts listed until the debounce delay passes, then Jane alone |
| ContactPage.CreateScenario | src/hooks/contacts/useContactPage.test.ts:70-92 | a resolved create appends Alice after John and Jane, shows the created toast and ends with the create modal closed |
| ContactPage.UpdateScenario | src/hooks/contacts/useContactPage.test.ts:94-116 | a resolved update replaces John's record with the returned one, keeps Jane, shows the updated toast and closes the update modal |
| ContactPage.DeleteScenario | src/hooks/contacts/useContactPage.test.ts:118-137 | deleting the favorited John leaves [Jane] and no favorites, shows the deleted toast and closes the delete modal |
| ContactPage.ToggleFavoriteScenario | src/hooks/contacts/useContactPage.ts:189-198 | toggling id 5 twice announces "Added contact 5 to favorites" and then "Removed contact 5 from favorites" |

## Left out

- React scheduling is not modelled: effect order, re-render triggering, `setState` batching, and interleaving between handlers that await at the same time. Each handler runs to completion with a given outcome, and there is no concurrency guard, since the source has none.
- The HTTP services (fetch, create, update, delete) are network I/O. Each one is a `Resolved`/`Rejected` parameter of the handler that awaits it. URLs, headers and JSON bodies are not modelled. `HandleCreateContact` and `HandleUpdateContact` take the submitted record only to mirror the hook's signature: the result is the record carried by the outcome.
- Storage holds the decoded id list, not JSON text. So an unparsable stored string (left unhandled by the source) and an empty stored string (skipped by the source's truthiness check) are not represented.
- `Favorites.constructor` merges the load and persist effects. On mount the source first writes `[]`, then writes the loaded list. The model keeps only the final state, in which storage holds the loaded list.
- `String.prototype.toLowerCase` is modelled as ASCII lower-casing only. `localeCompare` is modelled as plain lexicographic order on characters. Unicode and locale rules are not modelled.
- `Array.prototype.sort` is modelled as a stable insertion sort. ECMAScript has required `Array.prototype.sort` to be stable since its 2019 edition, so the model gives exactly the engine's result. `SortContacts.SortSortedIsIdentity` and `SortContacts.SortIdempotent` rely on that stability: two contacts with the same sort name already form a sorted list, and an unstable sort could swap them. Sortedness and the permutation property hold for any sorting algorithm.
- Debounce: the hook calls `setValue(value)` on every render, not only when the term changes. The model re-arms the timer only on `SetSearchTerm` and at mount. So the re-arm caused by other re-renders is not modelled. Neither is the re-arm after a settlement's own re-render: it only re-schedules the already-settled value, so it delays nothing.
- Debounce: there is no cleanup on unmount in the source, and none is claimed.
- `console.error` is a `logged` flag on the forms' submit result, and `window.alert` is an `alert` result. The controller handlers' `console.error` calls are not represented.
- The forms' `handleChange` takes the input's `name` attribute. The model limits it to the four input names the forms render (`Field`); any other name would add a key to the form data.
- The `loading` flag of the forms is true only while the callback is awaited. The model shows it set and cleared within one submit, so its true phase is not observable.
- The rendering components (buttons, dropdowns, modals, cards, toasts with their auto-dismiss timer) and the page composition are not modelled. The page file's own copies of the toggle and delete handlers duplicate the controller's logic, and are left out too.
- Strings.IntToString: contact ids are modelled as unbounded integers, while the source's ids are JavaScript numbers (IEEE-754 doubles). The model agrees with the source only for integral ids with absolute value below 2^53. Beyond that, ids the model keeps apart are one value in the source, so `includes`, `filter` and `===` treat them as equal. The exponent form a template string gives from 1e21 upward, and fractional ids such as 1.5, are not modelled.
- The controller's object destructuring of the favorites hook (src/hooks/contacts/useContactPage.ts:53) is not modelled. The model uses the list-and-toggle pair the hook returns, so the failures that mismatch causes (an exception at every favorites lookup, and the wrong toast after a delete) are not captured.
- Strings are sequences of Unicode scalar values, not of UTF-16 code units as in the source. Lengths, indexing, the one-edit test, substring search and the name comparison therefore differ for characters outside the Basic Multilingual Plane. For example, a single emoji against the empty string is one edit in the model, but two code units, and so rejected, in the source.
- The module the controller imports the matcher from (`editDistanceOne`) is not part of this model. The `isEditDistanceOne` loop stands in for it.
- `ContactFavorites.ToggleTwiceRestoresNonMember` and `ContactFavorites.ToggleTwiceMovesMemberToEnd` together replace the broader claim that toggling twice always restores the list. That claim is false for a member that is not the last entry.

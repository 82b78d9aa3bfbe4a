# Contact book: validators, search and the shared contact list

This project models the logic of a small Android contacts app. The app keeps one
in-memory list of contacts, `sampleContacts`. Its screens search that list, validate
what the user types, and then add, edit or delete contacts in place. The model has
these parts:

- `Text` (text.dfy): the string predicates the app uses. These are `isBlank`,
  `isDigit`, `lowercase` and `contains`.
- `Lists` (lists.dfy): Kotlin's order-preserving `filter`. `removeIf` is the same
  filter with the predicate negated. The module proves that a filter keeps exactly
  the accepted elements, in their original order.
- `Validation` (validation.dfy): `validateName` and `validatePhoneNumber`. The
  error messages are the app's own strings.
- `Contacts` (contacts.dfy): the `Contact` record and the 32-bit `Int` id. It also
  holds the five sample contacts and the list functions the screens use: `find` and
  `indexOfFirst` by id, `maxOfOrNull` over the ids, and `RemoveId`, the list that
  `removeIf` by id leaves behind. The in-place removal itself is
  `Store.ContactStore.DeleteContact`.
- `Search` (search.dfy): `searchContacts`.
- `Store` (store.dfy): the class `ContactStore`. It owns the mutable list. Its
  methods are the save and delete handlers of the add, edit and detail screens, and
  of the list screen's add, edit and detail dialogs. Each dialog does the same thing
  as the matching screen, so one method covers both.

The store's object invariant `Valid()` says two things: ids are pairwise distinct,
and every stored contact passes both validators. Each mutating method promises to
keep `Valid()`. The one exception is adding when the largest id is already
`Int.MAX_VALUE` (see "Left out").

Three behaviours of the code to note:
- The name rule rejects only blank names. No minimum length applies
  (ContactScreen.kt:741-746).
- The phone number is matched against the lower-cased query (ContactScreen.kt:737).
  `Search.PhoneMatchAsTyped` proves that this gives the same answer as the query as
  typed when the phone number is all digits, which every stored contact's number is.
- Update and delete of a missing id do nothing and report nothing
  (EditContactScreen.kt:61, ContactDetailScreen.kt:208). Only the screen-level flows
  `EditScreenSave` and `DetailDelete` tell whether the contact was found.

## Model

| member | source | states |
|---|---|---|
| `Validation.ValidateName` | app/src/main/java/com/example/myapplication/ContactScreen.kt:741-746 | The name is accepted (`None`) exactly when it is not blank. On rejection the message is the blank-name message. |
| `Validation.NameExamples` | app/src/main/java/com/example/myapplication/ContactScreen.kt:741-746 | `""` and `"   "` are rejected. `"A"` and `"Al"` are accepted, because there is no minimum length. |
| `Validation.ValidatePhoneNumber` | app/src/main/java/com/example/myapplication/ContactScreen.kt:748-759 | The phone is accepted exactly when it is all digits with 9 to 11 characters. A blank phone gets the blank message. A non-blank phone with a non-digit gets the digits-only message, whatever its length. The length message is returned exactly for non-empty all-digit input of a bad length. |
| `Validation.PhoneMessagesDistinct` | app/src/main/java/com/example/myapplication/ContactScreen.kt:749-757 | The three phone messages differ from each other, so the message tells which check failed first. |
| `Validation.PhoneExamples` | app/src/main/java/com/example/myapplication/ContactScreen.kt:749-757 | 8 and 12 digits get the length message. 9 and 11 digits are accepted. `"12a456789"` gets the digits-only message even though its length is in range. Empty and spaces-only input get the blank message. |
| `Text.Lowercase` | app/src/main/java/com/example/myapplication/ContactScreen.kt:734-736 | Lower-casing keeps the length and maps each character with the ASCII lower-case map. |
| `Text.DigitsContainLowercase` | app/src/main/java/com/example/myapplication/ContactScreen.kt:737 | For an all-digit string, containing the lower-cased query is the same as containing the query itself. |
| `Lists.Filter` | app/src/main/java/com/example/myapplication/ContactScreen.kt:735-738 | The result is no longer than the input. It holds exactly the input elements the predicate accepts. |
| `Lists.FilterIsSubsequence` | app/src/main/java/com/example/myapplication/ContactScreen.kt:735-738 | The filter's result is a subsequence of its input: same relative order, nothing added. |
| `Lists.FilterMultiset` | app/src/main/java/com/example/myapplication/ContactScreen.kt:735-738 | Every accepted element is kept as many times as it occurs. No rejected element is kept. |
| `Lists.FilterKeepsAll` | app/src/main/java/com/example/myapplication/ContactDetailScreen.kt:208 | A filter that accepts every element returns its input unchanged. |
| `Search.SearchContacts` | app/src/main/java/com/example/myapplication/ContactScreen.kt:730-739 | A blank query returns the list unchanged. Otherwise the result holds exactly the listed contacts whose lower-cased name, or whose phone number, contains the lower-cased query. |
| `Search.SearchIsSubsequence` | app/src/main/java/com/example/myapplication/ContactScreen.kt:735-738 | The search result keeps the list's relative order and adds no contact. |
| `Search.SearchMultiset` | app/src/main/java/com/example/myapplication/ContactScreen.kt:734-738 | For a non-blank query, each matching contact appears as often as in the list, and each non-matching one never. Together with the order lemma, this fixes the result. |
| `Search.SearchIgnoresQueryCase` | app/src/main/java/com/example/myapplication/ContactScreen.kt:731-736 | Searching for the lower-cased query gives the same result as searching for the query as typed. |
| `Search.MatchesIgnoresNameCase` | app/src/main/java/com/example/myapplication/ContactScreen.kt:736 | A contact matches a lower-case query exactly when the same contact with its name lower-cased matches it. |
| `Search.PhoneMatchAsTyped` | app/src/main/java/com/example/myapplication/ContactScreen.kt:737 | For an all-digit phone number, the phone test against the lower-cased query equals a test against the query as typed. |
| `Search.SearchByNameExample` | app/src/main/java/com/example/myapplication/ContactScreen.kt:730-739 | Searching for "van" among "Nguyen Van A" and "Le Thi B" returns only the first. |
| `Contacts.FindById` | app/src/main/java/com/example/myapplication/ContactDetailScreen.kt:49 | `find` returns nothing exactly when no contact has the id. Otherwise it returns a contact with that id that sits before every other contact with that id. |
| `Contacts.FindUnique` | app/src/main/java/com/example/myapplication/EditContactScreen.kt:34 | When ids are distinct, looking up a stored contact's id returns that very contact. |
| `Contacts.IndexOfFirst` | app/src/main/java/com/example/myapplication/EditContactScreen.kt:60 | `indexOfFirst` returns -1 exactly when no contact has the id. Otherwise it returns a position holding the id, with no earlier position holding it. |
| `Contacts.FindAtIndexOfFirst` | app/src/main/java/com/example/myapplication/EditContactScreen.kt:34-62 | The contact `find` returns is the one at the index `indexOfFirst` returns. They agree on "none" and on -1. |
| `Contacts.AddInt32` | app/src/main/java/com/example/myapplication/AddContactScreen.kt:44 | Kotlin `Int` addition: the result equals the true sum modulo 2^32, and equals the sum itself when the sum fits in 32 bits. |
| `Contacts.MaxIdOrZero` | app/src/main/java/com/example/myapplication/AddContactScreen.kt:44 | The result is 0 for an empty list. Otherwise it is the id of some contact, and no contact's id is larger. |
| `Contacts.NextId` | app/src/main/java/com/example/myapplication/AddContactScreen.kt:44 | The next id is 1 for an empty list. While the largest id is below `Int.MAX_VALUE`, it is that id plus 1, which is larger than every existing id. At `Int.MAX_VALUE` it wraps to `Int.MIN_VALUE`. |
| `Contacts.AppendKeepsIdsDistinct` | app/src/main/java/com/example/myapplication/AddContactScreen.kt:43-48 | Appending a contact with the next id keeps ids pairwise distinct, as long as the largest id is below `Int.MAX_VALUE`. |
| `Contacts.NextIdWrapsExample` | app/src/main/java/com/example/myapplication/AddContactScreen.kt:44 | A list holding both `Int.MIN_VALUE` and `Int.MAX_VALUE` as ids gets a duplicate id when a contact is added. |
| `Contacts.ReplaceKeepsIds` | app/src/main/java/com/example/myapplication/EditContactScreen.kt:56-62 | Replacing a contact by one with the same id keeps the length, the id at every position, and id distinctness. |
| `Contacts.RemoveId` | app/src/main/java/com/example/myapplication/ContactDetailScreen.kt:208 | The list `removeIf` by id leaves behind holds exactly the contacts whose id differs, each as many times as before, and no contact with the id. |
| `Contacts.RemoveIdIsSubsequence` | app/src/main/java/com/example/myapplication/ContactDetailScreen.kt:208 | Removal keeps the remaining contacts in their original relative order. |
| `Contacts.RemoveAbsentId` | app/src/main/java/com/example/myapplication/ContactDetailScreen.kt:208 | Removing an id that no contact has leaves the list unchanged. |
| `Contacts.RemovePresentId` | app/src/main/java/com/example/myapplication/ContactDetailScreen.kt:208 | When ids are distinct, removing a present id shrinks the list by exactly one. |
| `Contacts.SubsequenceKeepsIdsDistinct` | app/src/main/java/com/example/myapplication/ContactDetailScreen.kt:208 | Every subsequence of a list with distinct ids has distinct ids. This includes what is left after a removal. |
| `Contacts.RemoveIdKeepsAccepted` | app/src/main/java/com/example/myapplication/ContactDetailScreen.kt:208 | After a removal, every remaining contact still passes both validators. |
| `Contacts.SampleContactsWellFormed` | app/src/main/java/com/example/myapplication/ContactScreen.kt:118-124 | The five sample contacts have distinct ids and pass both validators. |
| `Store.ContactStore.constructor` | app/src/main/java/com/example/myapplication/ContactScreen.kt:118-124 | The store starts with the sample list and satisfies its invariant. |
| `Store.ContactStore.SaveContact` | app/src/main/java/com/example/myapplication/AddContactScreen.kt:38-51 | Both validators run, and both results are returned. When both accept, the list becomes the old list plus one contact at the end, with id `NextId(old)` and the name and phone exactly as typed. Otherwise the list is unchanged. Every stored contact still passes the validators. Ids stay distinct while the old largest id is below `Int.MAX_VALUE`. The add dialog at ContactScreen.kt:570-585 is the same. |
| `Store.ContactStore.SaveChanges` | app/src/main/java/com/example/myapplication/EditContactScreen.kt:51-66 | Both validators run. When both accept and some contact has the edited contact's id, the first such position is overwritten by that id with the new name and phone. Otherwise the list is unchanged. The length and the id at every position stay the same, and the invariant is kept. The edit dialog at ContactScreen.kt:686-702 is the same. |
| `Store.ContactStore.DeleteContact` | app/src/main/java/com/example/myapplication/ContactDetailScreen.kt:208 | The list becomes `RemoveId(old, id)`. No remaining contact has the id, and the others keep their order. A missing id leaves the list unchanged. With distinct ids, a present id shrinks the list by one. The invariant is kept. The detail dialog at ContactScreen.kt:474 is the same. |
| `Store.ContactStore.EditScreenSave` | app/src/main/java/com/example/myapplication/EditContactScreen.kt:34-66 | The screen first looks the id up. If it is absent, the list is unchanged and no error is set. If it is present, the save is SaveChanges at `indexOfFirst` of that id. |
| `Store.ContactStore.DetailDelete` | app/src/main/java/com/example/myapplication/ContactDetailScreen.kt:49-208 | The screen first looks the id up. If it is absent, the not-found branch leaves the list unchanged. If it is present, delete removes that id. With distinct ids this shrinks the list by one. |

## Left out

- Store.ContactStore.SaveContact: id distinctness is proved only while the largest id is below `Int.MAX_VALUE`. At that point Kotlin's `Int` addition wraps the next id to `Int.MIN_VALUE`. The model keeps the wrap, and `Contacts.NextIdWrapsExample` shows it can create a duplicate. Reaching this needs about 2^31 additions.
- Characters are ASCII only. `isWhitespace` covers the ASCII whitespace set, `isDigit` covers '0'..'9', and `lowercase` maps 'A'..'Z'. Kotlin's Unicode-wide versions are not modelled. `String.length` counts characters, not UTF-16 code units.
- The model collapses the edit and detail screens' lookup and their later button handler into one step (`EditScreenSave`, `DetailDelete`). A list changed in between is covered by `SaveChanges` and `DeleteContact`, which take the earlier snapshot's contact or id.
- Compose UI is not modelled. This covers layouts, dialog visibility flags, the form state reset after a save, and the edit dialog's update of `selectedContact`. It also covers navigation (`popBackStack`, `Navigation.kt`, `MainActivity.kt`) and the recomposition of `mutableStateListOf` and `derivedStateOf`. None of these affects the contact list.
- Telephony is not modelled: `makeDirectCall`, `openDialer`, `handleCall`, the permission launcher and Toasts. These are Android intents and OS callbacks.

# Expense tracker client rules in Dafny

This project models the rules that the trip expense tracker's web client decides for itself. The server computes splits, balances and settlements; the client only decides the rules below. Each module corresponds to one source file.

- `AddExpense`: the add/edit expense form (`src/pages/AddExpense.tsx`).
  - Toggling members in and out of the split.
  - The ordered submit checks.
  - The `splits` payload for the Equal, PaidFor and Custom split types.
  - The restrictions on an expense that already has settlements ("locked").
  - The form's state is the class `ExpenseForm`. Its methods update it in place, as the component's state setters do. The checks and the payload are functions on a snapshot of that state.
- `MemberDetail`: recording a settlement with one member (`src/pages/MemberDetail.tsx`).
  - The payment direction, taken from the sign of the net balance.
  - The full/partial note.
  - The limits on a partial payment.
  - The owing / getting back / settled standing.
  - The partial-payment modal is the class `PaymentPanel`.
- `LocalStorageToken`: the session store hook (`src/hooks/useLocalstorageToken.ts`).
  - Browser storage is a map from key to stored record. The `user` and `jwtToken` keys and the in-memory `currentUser` must stay consistent.
  - Each operation has two forms: a transition function on a `Session` value, which the lemmas are about, and a method of the class `TokenStore`. Each method performs the source's writes in order and is proved to reach the state the function describes.
- `DateRange`: `formatDateRange` (`src/utils/date.ts`).
  - Arguments arrive already parsed as absent, invalid, or a valid (year, month, day).
  - A reader for the produced text is proved to recover what the arguments mean, so the formatter never shows two different ranges the same way. Years start at 1, as the `yyyy` pattern prints them.
- `Register`, `EditProfile`, `InviteCode`: the registration checks, the avatar initials with the name check and the session update after a save, and invite-code trimming.
- `Currency`: `getCurrencySymbol` and its table (`src/lib/utils.ts`).
- `JsText`: the JavaScript string built-ins these rely on, written out:
  - `trim`;
  - `toUpperCase`;
  - `split`;
  - decimal rendering of naturals;
  - `toFixed(2)`.
- `Common`: optional values, results, and the contents of a numeric input.

Amounts are exact reals. The source uses JavaScript floating-point numbers, so every comparison the source makes (such as the 0.01 tolerance on custom amounts) is taken over exact values. A numeric input field is either empty or holds a number, as a browser's number input does.

## Model

| member | source | states |
|---|---|---|
| Common.ParseOrZero | src/pages/AddExpense.tsx:79-84 | An empty amount field counts as 0; a filled one counts as its number. |
| JsText.Trim | src/pages/EnterInviteCode.tsx:36-41 | A trimmed string is no longer than the input, and neither starts nor ends with trim whitespace. |
| JsText.TrimBounds | src/pages/EditProfileModal.tsx:62 | Trimming removes exactly a whitespace prefix and a whitespace suffix; the rest is a contiguous slice of the input. |
| JsText.TrimUnique | src/pages/EditProfileModal.tsx:62 | Whitespace, then a core without whitespace at either end, then whitespace, trims to exactly that core. |
| JsText.TrimIdempotent | src/pages/EnterInviteCode.tsx:47 | Trimming a trimmed string changes nothing. |
| JsText.TrimEmptyIff | src/pages/EditProfileModal.tsx:26-29 | A string trims to "" exactly when it is all whitespace. |
| JsText.ToUpper | src/lib/utils.ts:30 | Upper-casing keeps the length and maps each character to its upper-case form. |
| JsText.ToUpperIdempotent | src/lib/utils.ts:30 | Upper-casing an upper-cased code changes nothing. |
| JsText.Split | src/pages/EditProfileModal.tsx:65 | No part contains the separator. There is more than one part exactly when the separator occurs. The first part is the text before the first separator. |
| JsText.JoinSplit | src/pages/EditProfileModal.tsx:65 | Joining the parts with the separator gives back the original string. |
| JsText.NatToString | src/utils/date.ts:52 | The `d` pattern prints a non-empty run of decimal digits with no leading zero. |
| JsText.NatToStringValue | src/utils/date.ts:52 | The printed digits denote the number printed. |
| JsText.ZeroPadValue | src/utils/date.ts:52 | Padding the year to four digits (`yyyy`) never changes the value it denotes. |
| JsText.ZeroPad | src/utils/date.ts:52 | Padding gives exactly `width` digits for a shorter digit string and leaves a longer one at its own length. |
| JsText.RoundCents | src/pages/MemberDetail.tsx:100 | `toFixed(2)` prints the nearest number of hundredths, the larger one on a tie. |
| JsText.Fixed2 | src/pages/MemberDetail.tsx:100 | A two-decimal amount starts with '-' exactly for negative values. Then come the whole part without leading zeros, a point and two digits. Together they spell the magnitude rounded to the nearest hundredth. |
| Currency.GetCurrencySymbol | src/lib/utils.ts:24-34 | The symbol is never empty. A null, undefined or empty code gives "₱". Any other code is upper-cased, then gives its table entry, or itself when it has none. |
| Currency.LookupIgnoresCase | src/lib/utils.ts:30-33 | Codes that differ only in letter case give the same symbol. |
| Currency.KnownCodes | src/lib/utils.ts:8-33 | A code that matches a table code (USD, EUR, GBP, JPY, CAD, AUD, PHP) letter for letter, in any mix of letter cases, gets that code's symbol. |
| Currency.UnknownCodeShownUpperCased | src/lib/utils.ts:33 | A code missing from the table is shown as itself, upper-cased, with no lower-case letter left. |
| Currency.SymbolOrigin | src/lib/utils.ts:25-33 | Every symbol is the default, a table value, or the upper-cased code. |
| DateRange.MonthAbbrev | src/utils/date.ts:35 | The `MMM` month abbreviation has three letters. |
| DateRange.ReadFormatted | src/utils/date.ts:23-62 | Reading back any formatted range gives exactly what the two arguments mean: Ongoing, Until an end, From a start, or Between two dates. |
| DateRange.FormatDateRange | src/utils/date.ts:23-62 | The header's opening tells which kind of range it shows. It is "Ongoing" exactly when the arguments carry no usable date: both absent, or either one invalid. It starts with "Until " exactly for an end alone and with "From " exactly for a start alone, and otherwise starts with the start's month. |
| DateRange.OnlyEnd | src/utils/date.ts:34-36 | A valid end without a start gives "Until " followed by that end date in full. |
| DateRange.OnlyStart | src/utils/date.ts:38-40 | A valid start without an end gives "From " followed by that start date in full. |
| DateRange.ReadUntil | src/utils/date.ts:34-36 | The "Until" text reads back as Until that end date. |
| DateRange.ReadFrom | src/utils/date.ts:38-40 | The "From" text reads back as From that start date. |
| DateRange.ReadSameMonth | src/utils/date.ts:50-53 | The same-month text ("MMM d-d, yyyy") reads back as both dates. |
| DateRange.ReadSameYear | src/utils/date.ts:55-58 | The same-year text ("MMM d - MMM d, yyyy") reads back as both dates. |
| DateRange.ReadDifferentYears | src/utils/date.ts:60-61 | The two-full-dates text reads back as both dates. |
| DateRange.SameMonthExample | src/utils/date.ts:51-52 | Oct 20 to Oct 22, 2025 gives "Oct 20-22, 2025". |
| DateRange.SameYearExample | src/utils/date.ts:56-57 | Sep 30 to Oct 2, 2025 gives "Sep 30 - Oct 2, 2025". |
| DateRange.DifferentYearsExample | src/utils/date.ts:60-61 | Dec 30, 2025 to Jan 2, 2026 gives "Dec 30, 2025 - Jan 2, 2026". |
| LocalStorageToken.KeyName | src/hooks/useLocalstorageToken.ts:4-5 | The hook's two keys are named "user" and "jwtToken". |
| LocalStorageToken.StoredUser | src/hooks/useLocalstorageToken.ts:11-12 | A user is read back exactly when a user record is stored, and it is that record's user. |
| LocalStorageToken.TokenOf | src/hooks/useLocalstorageToken.ts:49 | `token` is the current user's token when there is a user and the token is non-empty, and null otherwise. |
| LocalStorageToken.Init | src/hooks/useLocalstorageToken.ts:9-14 | The initial state keeps storage as it is. Its current user is the stored record's user, present exactly when one is stored, so a well-formed storage starts in step with memory. |
| LocalStorageToken.WithToken | src/hooks/useLocalstorageToken.ts:16-27 | `setToken(t)` always stores t. With a stored user it replaces only that record's token and makes the record current. Without one, the user key and the current user are unchanged. Memory stays in step with storage, the two stored tokens agree afterwards, and other keys are untouched. |
| LocalStorageToken.Cleared | src/hooks/useLocalstorageToken.ts:29-33 | Logging out removes both keys and the current user, leaving `token` null. Memory and storage agree afterwards, and other keys are untouched. |
| LocalStorageToken.WithUser | src/hooks/useLocalstorageToken.ts:35-40 | `setCurrentUser(u)` makes u current, stores u and u's token, and exposes u's token (null when empty). Memory and storage agree afterwards whatever they held before, the two tokens agree, and other keys are untouched. |
| LocalStorageToken.ClearTwice | src/hooks/useLocalstorageToken.ts:29-46 | Logging out twice is the same as logging out once. |
| LocalStorageToken.WithTokenAfterWithUser | src/hooks/useLocalstorageToken.ts:16-40 | Refreshing the token of a just-stored user equals storing the refreshed user. |
| LocalStorageToken.TokenAfterLogin | src/hooks/useLocalstorageToken.ts:16-49 | After login and a token refresh, `token` is the new token; after a logout it is null. |
| LocalStorageToken.WithUpdaterStored | src/hooks/useLocalstorageToken.ts:35-40 | Handed a function instead of a user, `setCurrentUser` stores the text "undefined" under both `user` and `jwtToken`, leaving other keys alone. |
| LocalStorageToken.UpdaterBreaksSync | src/pages/EditProfileModal.tsx:46-50 | After the profile modal's call, the stored `user` is no record, so no in-memory user is in step with storage. |
| LocalStorageToken.TokenStore.constructor | src/hooks/useLocalstorageToken.ts:9-14 | The store starts in the initial state, in step with storage. |
| LocalStorageToken.TokenStore.SetToken | src/hooks/useLocalstorageToken.ts:16-27 | From any state, the writes reach the `setToken` transition and align the two tokens. Memory and storage stay in step if they were. |
| LocalStorageToken.TokenStore.ClearToken | src/hooks/useLocalstorageToken.ts:29-33 | From any state, out of step or not, the removals reach the logout transition and leave memory and storage in step. |
| LocalStorageToken.TokenStore.SetCurrentUser | src/hooks/useLocalstorageToken.ts:35-40 | From any state, the writes reach the `setCurrentUser` transition and leave memory and storage in step. |
| LocalStorageToken.TokenStore.OnClearAll | src/hooks/useLocalstorageToken.ts:42-46 | From any state, `onClearAll`, with its writes in a different order, reaches the same state as `clearToken`. |
| LocalStorageToken.TokenStore.Token | src/hooks/useLocalstorageToken.ts:49 | `token` is non-null exactly for a current user with a non-empty token, and is then that token. |
| AddExpense.RemoveAll | src/pages/AddExpense.tsx:63 | Filtering keeps exactly the ids other than the removed one, and never lengthens the list. |
| AddExpense.RemoveAllCounts | src/pages/AddExpense.tsx:63 | Filtering drops every copy of the id and keeps every other id exactly as many times as it occurred. |
| AddExpense.Toggle | src/pages/AddExpense.tsx:61-64 | Toggling makes the id present exactly when it was absent. An absent id is appended at the end, and every other id keeps its number of occurrences. |
| AddExpense.ToggleKeepsOthersInOrder | src/pages/AddExpense.tsx:61-70 | Apart from the toggled id, the list is unchanged, order included. |
| AddExpense.ToggleTwice | src/pages/AddExpense.tsx:61-70 | Toggling twice restores the set of ids. It restores the exact list when the id was absent, and moves it to the end when it was present. |
| AddExpense.CustomTotal | src/pages/AddExpense.tsx:79-84 | Untouched custom fields total 0; fields holding no negative amount never total less than 0. |
| AddExpense.CustomTotalPermutation | src/pages/AddExpense.tsx:79-84 | Summing the custom fields along any rearrangement of the same members gives the same total, so the order `Object.values` yields them in does not matter. |
| AddExpense.FieldsTotalIsOrderFree | src/pages/AddExpense.tsx:79-84 | When the roster lists each member once and the custom fields are exactly the members', summing along any other once-each listing of the fields gives the roster's total: the total is the sum of the custom fields object. |
| AddExpense.PaidForSplits | src/pages/AddExpense.tsx:159-162 | One entry per paid-for member, in list order, each worth the amount divided by their count. |
| AddExpense.PaidForSplitsSum | src/pages/AddExpense.tsx:159-162 | The PaidFor shares add up to the expense amount. |
| AddExpense.CustomSplits | src/pages/AddExpense.tsx:163-169 | One entry per trip member, in roster order, holding the entered amount or 0. |
| AddExpense.CustomSplitsSum | src/pages/AddExpense.tsx:163-169 | The Custom entries add up to the total `calculateTotal` checked. |
| AddExpense.Submit | src/pages/AddExpense.tsx:117-170 | A request is built exactly when the description, amount and payer are filled and the split type's own check passes: someone selected for Equal, someone paid for for PaidFor, custom amounts within 0.01 for Custom. |
| AddExpense.SubmitChecksInOrder | src/pages/AddExpense.tsx:117-144 | The checks run in order: missing description, amount or payer; Equal with nobody selected; PaidFor with nobody paid for; Custom off by more than 0.01. The first failing check is reported. |
| AddExpense.AcceptedRequest | src/pages/AddExpense.tsx:146-170 | An accepted form sends its amount, description, payer, split type, trip and an empty category. Splits are null for Equal. PaidFor shares sum to the amount. Custom entries are within 0.01 of it. |
| AddExpense.SubmitLabel | src/pages/AddExpense.tsx:602-608 | The button reads "Saving..." while pending. Otherwise it reads "Update Description" exactly for a locked expense, "Update Expense" for an edit with no settlements, and "Add Expense" exactly outside edit mode. |
| AddExpense.DeleteClick | src/pages/AddExpense.tsx:613-627 | Deleting an expense with settlements is refused without a request, whatever the dialog answer. A delete is sent exactly after confirming one without settlements, and cancelled exactly when it is not confirmed. |
| AddExpense.ExpenseForm.constructor | src/pages/AddExpense.tsx:41-57 | Given a roster listing each member once, the form starts as Equal among all members, with nobody paid for, empty custom fields and empty inputs. |
| AddExpense.ExpenseForm.LoadExpense | src/pages/AddExpense.tsx:176-184 | In edit mode the loaded description, amount and payer fill the inputs, and nothing else changes. The roster stays free of repeats and the custom fields stay exactly the members'. |
| AddExpense.ExpenseForm.ToggleMember | src/pages/AddExpense.tsx:59-73 | In PaidFor mode only the paid-for list is toggled; in any other mode only the selection is toggled. The roster stays free of repeats and the custom fields stay exactly the members'. |
| AddExpense.ExpenseForm.UpdateCustomAmount | src/pages/AddExpense.tsx:75-77 | Only that member's custom field changes; the fields remain exactly the members'. |
| AddExpense.ExpenseForm.SelectSplitType | src/pages/AddExpense.tsx:306-332 | The split type changes only while the split panel is shown. The roster stays free of repeats and the custom fields stay exactly the members'. |
| AddExpense.ExpenseForm.SetDescription | src/pages/AddExpense.tsx:242-243 | The description takes the typed text; nothing else changes. The roster stays free of repeats and the custom fields stay exactly the members'. |
| AddExpense.ExpenseForm.SetAmount | src/pages/AddExpense.tsx:259-262 | The amount takes the typed value unless the expense is locked. The roster stays free of repeats and the custom fields stay exactly the members'. |
| AddExpense.ExpenseForm.SetPaidBy | src/pages/AddExpense.tsx:284-287 | The payer takes the chosen member unless the expense is locked. The roster stays free of repeats and the custom fields stay exactly the members'. |
| AddExpense.ExpenseForm.HandleSubmit | src/pages/AddExpense.tsx:117-170 | Submitting the current state gives that state's request or error. An accepted PaidFor request sums to its amount; an accepted Custom request is within 0.01 of it. Because the form keeps its invariant, the custom total it checks is the sum of the custom fields object in any order. |
| MemberDetail.EffectiveBalance | src/pages/MemberDetail.tsx:86 | A missing net balance counts as 0. |
| MemberDetail.SettlementNote | src/pages/MemberDetail.tsx:97-100 | The note is "Full payment settlement" exactly when the amount equals the balance's magnitude; any other amount gives "Partial payment: ₱" followed by the amount with two decimals (`toFixed(2)`). |
| MemberDetail.Settlement | src/pages/MemberDetail.tsx:84-101 | A negative balance makes the member pay the signed-in user. Any other balance, a missing one included, makes the user pay the member. The trip and amount are passed through. The note is the full-payment one exactly when the amount is the balance's magnitude, and otherwise "Partial payment: ₱" followed by the amount with two decimals. |
| MemberDetail.FullPaymentClears | src/pages/MemberDetail.tsx:121-124 | A full payment records exactly the magnitude of the balance, never a negative amount, with the full-payment note. |
| MemberDetail.CheckPartial | src/pages/MemberDetail.tsx:126-138 | A partial payment is accepted exactly for a typed amount with 0 < amount ≤ magnitude of the balance. An empty or non-positive amount is reported first. An excessive one names the magnitude as the limit. |
| MemberDetail.SettledRefusesPartial | src/pages/MemberDetail.tsx:126-138 | With a zero or missing balance, every partial payment is refused. |
| MemberDetail.PartialOfWholeIsFull | src/pages/MemberDetail.tsx:97-100 | A partial payment carries the full-payment note exactly when it equals the full payment. |
| MemberDetail.RecordEnabledIff | src/pages/MemberDetail.tsx:480-482 | The Record Payment button is enabled exactly when the handler would not report an invalid amount. |
| MemberDetail.StandingOf | src/pages/MemberDetail.tsx:201-204 | Owing holds exactly for a negative balance, getting back exactly for a positive one, and settled exactly for zero. |
| MemberDetail.ActionsIffMemberPays | src/pages/MemberDetail.tsx:201-204 | Payment actions are shown exactly when the member owes, which is exactly when the member would be the payer. |
| MemberDetail.StandingLabel | src/pages/MemberDetail.tsx:234 | The header shows "Owes", "Gets back" or "Settled", each for exactly one standing, so the label identifies the standing. |
| MemberDetail.PaymentPanel.constructor | src/pages/MemberDetail.tsx:22-23 | The modal starts closed with an empty amount. |
| MemberDetail.PaymentPanel.OpenModal | src/pages/MemberDetail.tsx:323 | "Record Partial Payment" opens the modal and keeps the typed amount. |
| MemberDetail.PaymentPanel.EnterAmount | src/pages/MemberDetail.tsx:399-400 | Typing sets the amount without closing the modal. |
| MemberDetail.PaymentPanel.Dismiss | src/pages/MemberDetail.tsx:470-474 | Cancel closes the modal and clears the amount. |
| MemberDetail.PaymentPanel.HandleFullPayment | src/pages/MemberDetail.tsx:121-124 | The settlement sent pays the balance's magnitude, with the full-payment note. |
| MemberDetail.PaymentPanel.HandlePartialPayment | src/pages/MemberDetail.tsx:126-143 | A refused amount reports its error and changes nothing. An accepted one sends a settlement with 0 < amount ≤ magnitude, then closes and clears the modal. |
| Register.WithFieldEffect | src/pages/Register.tsx:23-28 | An edit sets the edited field to the typed value and leaves the others alone. |
| Register.HandleRegister | src/pages/Register.tsx:33-95 | A request is sent exactly when all fields are filled, the email contains '@', the password has at least 6 characters and the confirmation repeats it. The request carries the fields and an empty phone number. |
| Register.RegisterFirstFailure | src/pages/Register.tsx:69-92 | Each message is shown exactly when every earlier check passed and its own check failed. |
| Register.MatchingPasswordsNeverMismatch | src/pages/Register.tsx:89-92 | Equal passwords are never reported as mismatched. |
| EditProfile.InitialForm | src/pages/EditProfileModal.tsx:15-19 | The form starts from the user's name, email and avatar, with "" for any that is missing. |
| EditProfile.GenerateAvatar | src/pages/EditProfileModal.tsx:61-70 | Any initials start with the trimmed name's first character, upper-cased. |
| EditProfile.AvatarEmptyIff | src/pages/EditProfileModal.tsx:61-63 | The initials are empty exactly when the name is blank. |
| EditProfile.AvatarTwoWords | src/pages/EditProfileModal.tsx:65-68 | A trimmed name whose first space is followed by a non-space character gives the upper-cased first characters of its first two words. |
| EditProfile.AvatarOneWord | src/pages/EditProfileModal.tsx:69 | A one-word name gives its first two characters (or its only one), upper-cased. |
| EditProfile.AvatarDoubleSpace | src/pages/EditProfileModal.tsx:65-67 | Two spaces after the first word make the initials the first letter followed by "UNDEFINED". |
| EditProfile.AvatarDoubleSpaceExample | src/pages/EditProfileModal.tsx:65-67 | "Ann  Lee" gets the initials "AUNDEFINED". |
| EditProfile.DisplayedAvatar | src/pages/EditProfileModal.tsx:102 | A chosen avatar is shown as is; otherwise the initials generated from the name are shown. The circle is blank exactly when both the avatar and the name are. |
| EditProfile.RegenerateShowsInitials | src/pages/EditProfileModal.tsx:102-108 | After regenerating, the circle shows the initials, exactly as if no avatar were set. |
| EditProfile.SaveProfile | src/pages/EditProfileModal.tsx:23-44 | The update is refused with "Name is required" exactly when the name is blank. Otherwise the name is sent untrimmed, with the email and avatar as typed. |
| EditProfile.SavedProfileHasAvatar | src/pages/EditProfileModal.tsx:26-29 | A profile that passes the name check always has a non-empty avatar to show. |
| EditProfile.SessionAfterSave | src/pages/EditProfileModal.tsx:46-50 | The corrected session update keeps memory and storage in step. The current and stored user carry the new name and avatar and the same id. The access token is unchanged and other keys are untouched. |
| InviteCode.SubmitCode | src/pages/EnterInviteCode.tsx:33-42 | A code is refused with "Please enter an invite code" exactly when it is blank. An accepted code is sent trimmed: what was typed, minus a whitespace prefix and a whitespace suffix, non-empty and with no whitespace at either end. |
| InviteCode.SentCodeIsCore | src/pages/EnterInviteCode.tsx:36-41 | A code made of whitespace, a core with no whitespace at either end, and whitespace is sent as exactly that core, so what is sent is determined by what was typed. |
| InviteCode.Pasted | src/pages/EnterInviteCode.tsx:44-52 | The field receives the clipboard text minus a whitespace prefix and a whitespace suffix, with no whitespace left at either end. It is empty exactly when the clipboard was blank, and trimming it again changes nothing. |
| InviteCode.SubmitEnabled | src/pages/EnterInviteCode.tsx:119 | The button is enabled exactly when no request is in flight and the code is not blank. |
| InviteCode.SubmitIgnoresPadding | src/pages/EnterInviteCode.tsx:36-41 | Surrounding whitespace never changes what is sent. |
| InviteCode.PastedCodeSentUnchanged | src/pages/EnterInviteCode.tsx:44-52 | A pasted code that is not blank is sent exactly as shown. |
| InviteCode.EnabledIffAccepted | src/pages/EnterInviteCode.tsx:119 | The submit button is enabled exactly when no request is in flight and the handler would accept the code. |

## Left out

- The server-side ledger is not part of this model: balances, split arithmetic, settlements, and whether an expense has settlements. The client only sends requests and shows replies (src/pages/AddExpense.tsx:86-115, src/pages/MemberDetail.tsx:30-40, src/pages/Balances.tsx:26-34). The net balance and `hasSettlements` are inputs.
- Floating point is not modelled: amounts are exact reals. The `toFixed` share previews, the "remaining balance" preview and `setQuickAmount` are display arithmetic and are left out.
- AddExpense.CustomSplits: the source sends each filled custom field as the text typed, not as a number; the model sends its numeric value.
- AddExpense.Submit: a payer id or loaded amount of 0 is falsy in JavaScript and would be treated as missing; the model treats only an empty field as missing.
- AddExpense.ExpenseForm.UpdateCustomAmount: requires a trip member's id, since custom inputs exist only for members. The PaidFor list may keep the payer if the payer changes afterwards; the model keeps that behaviour, and the screen's exclusion of the payer from that list is not modelled.
- Request sending, toasts, navigation, query invalidation and the asynchronous loading flags are not modelled. A handler's result is the request it would send or the error it would show.
- MemberDetail: the signed-in user's id is a parameter, though the source reads it from an optional context value.
- The token-refresh middleware (`src/hooks/useApi.ts`) is concurrent and network-bound, and is left out.
- `formatSmartDate` and `formatRelativeDate` depend on the clock and time zone. Parsing date strings and local-time conversion are replaced by already-parsed dates.
- DateRange.FormatDateRange: a day is any of 1 to 31 in every month, so impossible calendar dates such as 31 February are inputs here although no JavaScript `Date` holds one. This only widens the domain; every property holds for them too.
- DateRange.FormatDateRange: years before 1 are not represented. `yyyy` prints the year of the era, so year 0 prints as 0001 like year 1, and the two would share a header.
- JSON serialisation and the browser storage API: storage is a map from key to record or text. A stored `user` that is not a record, such as the text the profile modal's call leaves (see Findings), makes `JSON.parse` throw on the next load or token refresh. `StoredUser` reads it as no user instead.
- The UI shell is not modelled: rendering, routing, context wiring, the `cn` class helper, and the other pages.
- JsText.ToUpper: upper-cases ASCII letters only; Unicode case mapping (for example of accented letters) is not modelled.
- Register.HandleRegister: the password length is counted in characters, whereas JavaScript counts UTF-16 code units. The two differ only for characters outside the Basic Multilingual Plane.
- EditProfile.GenerateAvatar: `words[0][0]` and the two-character slice take UTF-16 code units in JavaScript, and characters here. The two differ only for characters outside the Basic Multilingual Plane.
- EditProfile: the error path of the update request is not modelled. The profile modal's updater also adds a `name` property, which `AuthUser` does not have.
- AddExpense.ExpenseForm.constructor: requires a roster that lists each member once, as the trip's member list does. `calculateTotal` sums the custom fields object, which holds each member id once. `CustomTotal` sums along the roster, so the two agree only when no id repeats.

## Findings

| source | as written | input that shows it | evidently intended | confidence | as-written member | corrected member |
|---|---|---|---|---|---|---|
| src/pages/EditProfileModal.tsx:46-50 | `setSession` is the hook's `setCurrentUser` (src/providers/AuthProvider.tsx:22), which expects a user but is handed an updater function. It stores `JSON.stringify` of the function and the function's `token` property, so the text "undefined" lands under both `user` and `jwtToken`. | any successful profile save by a signed-in user | store the signed-in user's record with the new name and avatar, so memory and storage stay in step and the token is kept | not executed; follows from the hook's writes | LocalStorageToken.UpdaterBreaksSync | EditProfile.SessionAfterSave |

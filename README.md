# WhatsApp number rotation — a Dafny model

The system keeps a pool of WhatsApp numbers that a team uses to send messages.
After each use, a number is in a 24-hour cooldown. A number can be blocked for 1 to 168 hours.
Each use and each block writes a line to a history.
The server offers these procedures:
- list the numbers with their computed status;
- suggest the two best available numbers;
- use, block, unblock, add and delete a number;
- read, prune and clear the history.

The web page adds three things:
- a phone mask for the "add number" dialog and a validator;
- a status-ordered grid and a "next available" hint;
- status counters and a remaining-time label.

The history page shows relative times ("há 2 horas").

The model is organised in modules:

- `Records` (`records.dfy`): the two database tables, the time constants and the error kinds.
- `NumberStatus` (`status.dfy`): how a number's status is derived from its timestamps.
- `Suggestion` (`suggestion.dfy`): the four-level ranking of available numbers, the in-place sort and the top-two cut.
- `Store` (`store.dfy`): the database layer, as the class `WhatsappStore`.
  - Its `numbers` and `history` sequences are the two tables. `connected` says whether a database is configured.
  - Its methods are the query functions, each stated against a function on the table contents.
- `Router` (`router.dfy`): the procedures, as methods on a store.
  - Each procedure keeps one invariant. History lines refer to existing numbers. No two numbers share the same digits.
  - Each procedure states its error cases and its new state.
- `PhoneUtils` (`phone_utils.dfy`): the client's digit, E.164 and display helpers.
  - Its companion module `PhoneUtilsExamples` holds the documented examples.
- `PhoneTest`, `PhoneTestCases` (`phone_test.dfy`): the variants of the helpers defined in the phone test suite, and every expectation of that suite.
- `Home` (`home.dfy`): the page's logic.
  - The helpers: remaining-time label, validator and phone mask.
  - The dialog's state as the class `AddNumberForm`.
  - The grid sort on an array, the "next available" pick and the counters.
- `TimeUtils` (`time_utils.dfy`): the relative-time label, with the current time as a parameter.

Timestamps are integers in milliseconds. Nullable columns are `Option`s.
The clock is a `now` parameter of every operation that reads it.

## Model

| member | source | states |
|---|---|---|
| NumberStatus.GetNumberStatus | server/routers.ts:9-30 | the remaining time is never negative; the status is available exactly when no block and no cooldown is active, and then the remaining time is 0 |
| NumberStatus.BlockedWins | server/routers.ts:12-17 | an active block decides the status, whatever the last use, and reports the whole seconds until `blockedUntil` |
| NumberStatus.CooldownOrAvailable | server/routers.ts:19-29 | without an active block, a use less than 24 h ago gives cooldown with the whole seconds until use + 24 h; otherwise available with 0 |
| NumberStatus.AvailableIffReleased | server/routers.ts:9-30 | a number is available exactly when `now` is at or past both its block end and its cooldown end |
| NumberStatus.AvailableStaysAvailable | server/routers.ts:9-30 | once available, a number stays available at every later time |
| NumberStatus.TimeRemainingBounds | server/routers.ts:12-29 | when not available, the remaining time is the deadline that decided the status (block end or use + 24 h) minus `now`, in whole seconds rounded down |
| NumberStatus.CooldownEndsOnTime | server/routers.ts:19-29 | a cooldown (not hidden by a longer block) is still cooldown 1 ms before use + 24 h and available at exactly use + 24 h |
| Suggestion.Compare | server/routers.ts:84-107 | no contract of its own: the comparator as written, negative when the first number goes first; its order is stated by the lemmas of the next rows |
| Suggestion.CompareIsKeyOrder | server/routers.ts:84-107 | the four-level comparator is the lexicographic order on (never used before used, earlier last use, fewer uses, lower id) |
| Suggestion.KeyLessOnFour | server/routers.ts:84-107 | that lexicographic order spelled out level by level |
| Suggestion.CompareAntisymmetric | server/routers.ts:84-107 | swapping the arguments negates the comparator |
| Suggestion.CompareZeroSameId | server/routers.ts:104-106 | the comparator returns 0 only for numbers with the same id |
| Suggestion.NeverUsedFirst | server/routers.ts:86-89 | a never-used number sorts before any used one |
| Suggestion.CompareTransitive | server/routers.ts:84-107 | the strict order of the comparator is transitive |
| Suggestion.StrictTotalOnDistinctIds | server/routers.ts:84-107 | for distinct ids exactly one of the two comparisons is negative |
| Suggestion.PrecedesTotalPreorder | server/routers.ts:84-107 | "sorts no later than" is a total preorder, so sorting by it is well defined |
| Suggestion.PrecedesAntisymmetricOnUniqueIds | server/routers.ts:84-107 | on rows with distinct ids, two numbers that precede each other are equal |
| Suggestion.Suggest | server/routers.ts:72-110 | the reference ranking has two numbers, or all available ones when fewer, and each is a stored number available at `now` |
| Suggestion.RankedPrefixIsSuggestion | server/routers.ts:84-110 | the first two of any sorted permutation of the available numbers are a valid suggestion: available numbers, each taken at most as often as it is stored (so no row twice), two of them or all when fewer, sorted, no better number left out |
| Suggestion.GetSuggestion | server/routers.ts:72-110 | filter, in-place array sort and slice return a valid suggestion (no row taken twice), and with distinct ids exactly `Suggest` |
| Suggestion.SuggestIsRankedPrefix | server/routers.ts:84-110 | with distinct ids, every sorted permutation of the available numbers is the same sequence |
| Suggestion.SuggestIsSuggestion | server/routers.ts:72-110 | `Suggest` is a valid suggestion (no row taken twice), and it is empty exactly when no number is available |
| Suggestion.SuggestionDistinct | server/routers.ts:72-110 | over a table with distinct ids, any valid suggestion holds two different numbers |
| Suggestion.SuggestOrderIndependent | server/routers.ts:72-110 | the suggestion does not depend on the order in which the database returns the rows |
| Store.ApplyPatch | server/db.ts:111-124 | a field the update sets takes the given value and a field it leaves out keeps its old value; the id, phone, name and creation time never change; `updatedAt` is stamped unless nothing changed |
| Store.UpdateRows | server/db.ts:111-124 | an update by id touches exactly the rows with that id |
| Store.UnblockRows | server/db.ts:155-168 | an unblock touches exactly the rows with that id |
| Store.NewNumber | server/db.ts:183-201 | no contract of its own: the row the insert writes; its meaning is stated by `NewNumberStartsInCooldown` |
| Store.NewNumberStartsInCooldown | server/db.ts:183-201 | a new number is in cooldown for 24 h from its creation and available afterwards; an empty display name is stored as none |
| Store.FindById | server/db.ts:102-109 | the lookup finds a row with that id when there is one, and none exactly when no row has it |
| Store.ByPhoneTotalPreorder | server/db.ts:94-100 | the listing order by phone is a total preorder |
| Store.NewerFirstTotalPreorder | server/db.ts:146-153 | the history order, newest first, is a total preorder |
| Store.UpdateRowsOnlyTarget | server/db.ts:111-124 | rows with another id are unchanged, and repeating the same update changes nothing more |
| Store.PatchIdempotent | server/db.ts:111-124 | applying the same patch twice is applying it once |
| Store.UpdateRowsKeepsKeys | server/db.ts:111-124 | an update keeps ids unique and below the next id, and phones unique |
| Store.UnblockRowsKeepsKeys | server/db.ts:155-168 | an unblock keeps ids unique and below the next id, and phones unique |
| Store.Unblocked | server/db.ts:155-168 | no contract of its own: the fields the unblock writes; its meaning is stated by `UnblockIdempotent` and `Router.UnblockEndsBlock` |
| Store.UnblockIdempotent | server/db.ts:155-168 | an unblocked row has no block and is not sensitive; unblocking twice is unblocking once |
| Store.FilterKeepsNumbersValid | server/db.ts:170-181 | deleting rows keeps the table's keys valid |
| Store.FilterKeepsHistoryValid | server/db.ts:170-181 | deleting history lines keeps the history's keys valid |
| Store.CascadeDeleteEffect | server/db.ts:170-181 | the cascade keeps exactly the rows and lines of other numbers, and removes nothing when the id is absent |
| Store.AppendKeepsNumbersValid | server/db.ts:183-201 | inserting a row with the next id and a new phone keeps the keys valid |
| Store.AppendKeepsHistoryValid | server/db.ts:126-144 | inserting a line with the next id keeps the history's keys valid |
| Store.ListingOrderDetermined | server/db.ts:94-100 | with unique phones, the phone-ordered listing is fully determined by the table's contents |
| Store.WhatsappStore.constructor | drizzle/schema.ts:31-59 | a store starts with empty tables |
| Store.WhatsappStore.GetAllWhatsappNumbers | server/db.ts:94-100 | without a database: nothing; otherwise every row exactly once, ordered by phone |
| Store.WhatsappStore.GetWhatsappNumberById | server/db.ts:102-109 | the row with that id, or none when there is none or no database |
| Store.WhatsappStore.UpdateWhatsappNumber | server/db.ts:111-124 | the table becomes `UpdateRows` of the old one, or stays when there is no database; history unchanged |
| Store.WhatsappStore.InsertUsageHistory | server/db.ts:126-144 | appends one line with the next id and the given fields, or nothing without a database |
| Store.WhatsappStore.GetUsageHistory | server/db.ts:146-153 | returns min(limit, size) lines, newest first, and no omitted line is newer than a returned one |
| Store.WhatsappStore.UnblockWhatsappNumber | server/db.ts:155-168 | clears the block and the sensitive flag of that id; fails without a database |
| Store.WhatsappStore.DeleteWhatsappNumber | server/db.ts:170-181 | removes the number's history lines and then the number; fails without a database |
| Store.WhatsappStore.AddWhatsappNumber | server/db.ts:183-201 | a phone stored verbatim already is a duplicate-entry failure; otherwise a new row with the next id is appended |
| Store.WhatsappStore.DeleteHistoryEntry | server/db.ts:203-210 | removes exactly the lines with that id; fails without a database |
| Store.WhatsappStore.ClearAllHistory | server/db.ts:212-220 | empties the history; fails without a database |
| Router.SameKeysKeepConsistency | server/routers.ts:114-186 | an update that keeps ids and phones keeps history references and distinct digits |
| Router.IdDeterminesIndex | server/db.ts:102-109 | with unique ids a row is found at one position only |
| Router.AppendEntryKeepsReferences | server/routers.ts:137-142 | a history line copied from an existing number keeps every line pointing at an existing number |
| Router.CascadeKeepsConsistency | server/routers.ts:189-197 | after the cascade no row or line carries the id, and the remaining lines still point at remaining numbers |
| Router.DropEntryKeepsReferences | server/routers.ts:239-247 | deleting a history line keeps the references and leaves no line with that id |
| Router.FreshDigitsKeepConsistency | server/routers.ts:216-222 | a number whose digits differ from every stored number keeps the digits distinct and its phone is new |
| Router.ToView | server/routers.ts:53-61 | no contract of its own: one listing row, the record with `getNumberStatus` at `now` and `isSensitive === 1`; `ListNumbers` states what the listing holds |
| Router.ViewedRows | server/routers.ts:48-63 | the listing carries one row per view, in order |
| Router.ListNumbers | server/routers.ts:48-63 | every row once, ordered by phone, each with the status of `getNumberStatus` and `isSensitive` read as 1 |
| Router.ValidIdsUnique | server/routers.ts:66-111 | table rows, and any permutation of them, have distinct ids |
| Router.GetSuggestion | server/routers.ts:66-111 | the procedure returns exactly `Suggest` of the table, a valid suggestion of two different numbers, or nothing without a database |
| Router.UsePatch | server/routers.ts:129-134 | no contract of its own: the fields `useNumber` writes; `UseStartsCooldown` states their effect |
| Router.UseStartsCooldown | server/routers.ts:129-134 | a use stamps the time, records the contact count, adds one use and, unless blocked, starts a cooldown of 86400 s |
| Router.UsedNotSuggested | server/routers.ts:129-134 | a number just used is not suggested again for 24 h |
| Router.UseNumber | server/routers.ts:114-145 | not found (also without a database) leaves everything unchanged; otherwise the number is updated and one history line with its phone, the count (default 45) and the notes is added |
| Router.BlockNote | server/routers.ts:170 | the note of a block's history line is never empty |
| Router.BlockNoteRecordsHours | server/routers.ts:170 | non-empty notes are recorded as given; the default note names the hours, and different hours give different notes |
| Router.BlockPatch | server/routers.ts:159-164 | no contract of its own: the fields `blockNumber` writes; `BlockMakesBlocked` states their effect |
| Router.BlockMakesBlocked | server/routers.ts:159-164 | a block lasts `hours` × 3600 s, the number is blocked for the whole window and not blocked at its end |
| Router.BlockedNotSuggested | server/routers.ts:159-164 | a blocked number is not suggested before its block ends |
| Router.BlockNumber | server/routers.ts:148-175 | hours outside 1..168 are rejected first, then an unknown id; otherwise the block is set and a history line with count 0 and the note is added |
| Router.UnblockEndsBlock | server/db.ts:155-168 | after an unblock the number is never blocked, and its status is its cooldown status |
| Router.UnblockNumber | server/routers.ts:178-186 | the table becomes `UnblockRows` of the old one; the history is unchanged; fails without a database |
| Router.DeleteNumber | server/routers.ts:189-197 | the number and all of its history lines are gone; nothing else is removed |
| Router.ValidPhoneInput | server/routers.ts:202-209 | no contract of its own: the schema's three checks; `Home.ClientValidIsServerValid` relates it to the page's validation |
| Router.AddNumber | server/routers.ts:200-226 | invalid input first, then no database, then a number with the same digits; it passes exactly when none applies, and then a new cooldown row is appended |
| Router.GetHistory | server/routers.ts:229-236 | the newest lines first, at most the limit (100 by default) |
| Router.DeleteHistoryEntry | server/routers.ts:239-247 | removes that line only; numbers unchanged |
| Router.ClearHistory | server/routers.ts:250-255 | empties the history; numbers unchanged |
| PhoneUtils.OnlyDigits | client/src/lib/phoneUtils.ts:9-11 | the result is digits only, no longer than the input, and the input itself when it is all digits |
| PhoneUtils.OnlyDigitsConcat | client/src/lib/phoneUtils.ts:9-11 | removing non-digits distributes over concatenation |
| PhoneUtils.OnlyDigitsNone | client/src/lib/phoneUtils.ts:9-11 | a string without digits gives the empty string |
| PhoneUtils.WithoutCountry | client/src/lib/phoneUtils.ts:38 | drops the leading "55" exactly when present, keeping the rest |
| PhoneUtils.NormalizeE164BR | client/src/lib/phoneUtils.ts:18-26 | the result is digits starting with "55", ending with the input's digits, at most two longer |
| PhoneUtils.NormalizeIdempotent | client/src/lib/phoneUtils.ts:18-26 | normalising twice is normalising once |
| PhoneUtils.NormalizeDependsOnDigits | client/src/lib/phoneUtils.ts:18-26 | inputs with the same digits normalise alike |
| PhoneUtils.IsValidBRPhone | client/src/lib/phoneUtils.ts:75-81 | no contract of its own: ten or eleven digits after a leading "55" is dropped; `ValidityIgnoresNormalizing`, `FormatKeepsNumber` and the suite's cases state its behaviour |
| PhoneUtils.ValidityIgnoresNormalizing | client/src/lib/phoneUtils.ts:75-81 | a phone and its normal form are equally valid |
| PhoneUtils.FormatBRPhone | client/src/lib/phoneUtils.ts:34-69 | the display always begins with "+55 " |
| PhoneUtils.FormatLocal | client/src/lib/phoneUtils.ts:41-68 | the display of the digits after the country code begins with "+55 " |
| PhoneUtils.FormatBRPhoneIntended | client/src/lib/phoneUtils.ts:28-33 | the documented display always begins with "+55 " |
| PhoneUtils.FormatLocalIntended | client/src/lib/phoneUtils.ts:28-33 | the documented grouping (five-four for mobiles, four-four for landlines) begins with "+55 " |
| PhoneUtils.FormatLocalDigits | client/src/lib/phoneUtils.ts:41-68 | the display shows "55" and the first eleven local digits, nothing else |
| PhoneUtils.FormatKeepsDigits | client/src/lib/phoneUtils.ts:34-69 | the display's digits are "55" and the first eleven digits after the country code |
| PhoneUtils.FormatKeepsNumber | client/src/lib/phoneUtils.ts:34-81 | formatting a valid phone keeps its normal form and its validity |
| PhoneUtils.FormatIdempotent | client/src/lib/phoneUtils.ts:34-69 | formatting a display again gives it back |
| PhoneUtils.FormatLocalTruncate | client/src/lib/phoneUtils.ts:54-57 | digits past the eleventh local digit do not change the display |
| PhoneUtils.IntendedGrouping | client/src/lib/phoneUtils.ts:28-33 | the documented display of a valid phone is (DD) then five-four or four-four digits |
| PhoneUtils.IntendedDiffersOnlyOnLandline | client/src/lib/phoneUtils.ts:54-68 | the code and its documentation disagree only when eight digits follow the area code |
| PhoneUtils.FormatOfDigits | client/src/lib/phoneUtils.ts:34-46 | both displays depend only on the digits after the country code |
| PhoneUtilsExamples.LandlineCounterexample | client/src/lib/phoneUtils.ts:32 | the documented landline example is displayed "+55 (14) 99992-039" by the code, against "+55 (14) 9999-2039" as documented |
| PhoneUtilsExamples.LandlineDisplay | client/src/lib/phoneUtils.ts:54-68 | the landline's local digits take the five-digit branch |
| PhoneUtilsExamples.MobileExample | client/src/lib/phoneUtils.ts:30 | the documented mobile example is displayed as documented |
| PhoneUtilsExamples.MobileDisplay | client/src/lib/phoneUtils.ts:54-57 | the mobile's local digits give the documented grouping |
| PhoneUtilsExamples.SecondExampleMismatch | client/src/lib/phoneUtils.ts:31 | the documented second example is displayed "+55 (22) 99992-0399" by the code, and by the intended version too, not "+55 (22) 99999-2039" as documented |
| PhoneUtilsExamples.SecondExampleDisplay | client/src/lib/phoneUtils.ts:54-57 | that example's nine local digits take the five-then-four grouping |
| PhoneUtilsExamples.SecondExampleCorrected | client/src/lib/phoneUtils.ts:31 | the documented display is that of "5522999992039", in both versions |
| PhoneUtilsExamples.CorrectedExampleDisplay | client/src/lib/phoneUtils.ts:54-57 | the local digits of "5522999992039" give the documented grouping |
| PhoneUtilsExamples.NormalizeExamples | client/src/lib/phoneUtils.ts:7-16 | the documented examples of `onlyDigits` and `normalizeE164BR` |
| PhoneUtilsExamples.NormalizeDisplay | client/src/lib/phoneUtils.ts:15 | a formatted phone normalises to its digits |
| PhoneUtilsExamples.NormalizeLocal | client/src/lib/phoneUtils.ts:16 | a bare local phone gains the country code |
| PhoneTest.TestFormatBRPhone | server/phone.test.ts:8-32 | no contract of its own: the suite's variant as written; `TestFormatKeepsDigits`, `TestFormatGrouping` and `TestFormatIdempotent` state its behaviour |
| PhoneTest.Display | server/phone.test.ts:15-31 | no contract of its own: the grouping of up to eleven digits as written; `DisplayKeepsDigits` and `CompleteGrouping` state its behaviour |
| PhoneTest.TestNormalizeE164BR | server/phone.test.ts:34-39 | "+" then "55" then digits, at most fourteen characters |
| PhoneTest.DisplayKeepsDigits | server/phone.test.ts:15-31 | the display shows the country code when seen and exactly the first eleven digits |
| PhoneTest.TestFormatGrouping | server/phone.test.ts:12-31 | a complete number shows (DD) then five-four or four-four digits, with "+55 " when it carried the code |
| PhoneTest.LocalOfValid | server/phone.test.ts:12-13 | on a complete number the suite's country-code test agrees with the client's |
| PhoneTest.CompleteGrouping | server/phone.test.ts:18-29 | ten or eleven digits are grouped four-four or five-four |
| PhoneTest.TestFormatIdempotent | server/phone.test.ts:8-32 | formatting a display again gives it back |
| PhoneTest.DisplayTruncate | server/phone.test.ts:16 | only the first eleven digits matter |
| PhoneTest.TestFormatTruncate | server/phone.test.ts:8-32 | with the country code, digits past the thirteenth are ignored |
| PhoneTest.TestNormalizeIsClientNormalize | server/phone.test.ts:34-39 | the suite's normal form is "+" and the client's, cut at thirteen digits |
| PhoneTest.TestNormalizeIdempotent | server/phone.test.ts:34-39 | normalising twice is normalising once |
| PhoneTest.TestFormatKeepsNumber | server/phone.test.ts:8-39 | a complete number and its display have the same normal form |
| PhoneTest.TestFormatKeepsDigits | server/phone.test.ts:8-32 | a complete number's display carries exactly its digits |
| PhoneTest.DisplayLocalKeepsDigits | server/phone.test.ts:15-31 | up to eleven local digits are all shown |
| PhoneTest.DisplayWithDDIKeepsDigits | server/phone.test.ts:12-31 | twelve or thirteen digits starting "55" are all shown |
| PhoneTest.TestNormalizeDependsOnDigits | server/phone.test.ts:34-39 | inputs with the same digits normalise alike |
| PhoneTestCases.OnlyDigitsRemovesOthers | server/phone.test.ts:43-47 | the three expectations of `onlyDigits` on mixed input |
| PhoneTestCases.OnlyDigitsEmpty | server/phone.test.ts:49-52 | inputs without digits give the empty string |
| PhoneTestCases.TestFormatDependsOnDigits | server/phone.test.ts:83-86 | inputs with the same digits are displayed alike |
| PhoneTestCases.FormatMobileWithDDI1 | server/phone.test.ts:57 | "5511987654321" is shown "+55 (11) 98765-4321" |
| PhoneTestCases.FormatMobileWithDDI2 | server/phone.test.ts:58 | "5522999992039" is shown "+55 (22) 99999-2039" |
| PhoneTestCases.FormatMobileWithoutDDI1 | server/phone.test.ts:62 | "11987654321" is shown "(11) 98765-4321" |
| PhoneTestCases.FormatMobileWithoutDDI2 | server/phone.test.ts:63 | "22999992039" is shown "(22) 99999-2039" |
| PhoneTestCases.FormatLandlineWithDDI1 | server/phone.test.ts:67 | "551199992039" is shown "+55 (11) 9999-2039" |
| PhoneTestCases.FormatLandlineWithDDI2 | server/phone.test.ts:68 | "552299992039" is shown "+55 (22) 9999-2039" |
| PhoneTestCases.FormatLandlineWithoutDDI1 | server/phone.test.ts:72 | "1199992039" is shown "(11) 9999-2039" |
| PhoneTestCases.FormatLandlineWithoutDDI2 | server/phone.test.ts:73 | "2299992039" is shown "(22) 9999-2039" |
| PhoneTestCases.FormatPartialAreaCode | server/phone.test.ts:77 | "11" is shown "(11)" |
| PhoneTestCases.FormatPartialOneDigit | server/phone.test.ts:78 | "119" is shown "(11) 9" |
| PhoneTestCases.FormatPartialFiveDigits | server/phone.test.ts:79-80 | "1198765" is shown "(11) 9876-5" |
| PhoneTestCases.FormatIgnoresFormattingWithDDI | server/phone.test.ts:84 | a formatted mobile with the code is shown unchanged |
| PhoneTestCases.FormatIgnoresFormattingWithoutDDI | server/phone.test.ts:85 | a formatted mobile without the code is shown unchanged |
| PhoneTestCases.FormatLimitsDigits | server/phone.test.ts:88-90 | extra trailing digits are dropped from the display |
| PhoneTestCases.NormalizeAddsDDI1 | server/phone.test.ts:95 | "11987654321" normalises to "+5511987654321" |
| PhoneTestCases.NormalizeAddsDDI2 | server/phone.test.ts:96 | "22999992039" normalises to "+5522999992039" |
| PhoneTestCases.NormalizeKeepsDDI1 | server/phone.test.ts:100 | "5511987654321" normalises to "+5511987654321" |
| PhoneTestCases.NormalizeKeepsDDI2 | server/phone.test.ts:101 | "+5511987654321" normalises to itself |
| PhoneTestCases.NormalizeRemovesFormatting1 | server/phone.test.ts:105 | a formatted mobile with the code normalises to its digits with "+" |
| PhoneTestCases.NormalizeRemovesFormatting2 | server/phone.test.ts:106 | a formatted local mobile gains "+55" |
| PhoneTestCases.NormalizeLimitsDigits | server/phone.test.ts:109-111 | the normal form is cut at thirteen digits |
| PhoneTestCases.ValidMobile1 | server/phone.test.ts:122 | a bare eleven-digit mobile is complete |
| PhoneTestCases.ValidMobile2 | server/phone.test.ts:123 | a mobile with the code is complete |
| PhoneTestCases.ValidMobile3 | server/phone.test.ts:124 | a formatted mobile is complete |
| PhoneTestCases.ValidLandline1 | server/phone.test.ts:134 | a bare ten-digit landline is complete |
| PhoneTestCases.ValidLandline2 | server/phone.test.ts:135 | a landline with the code is complete |
| PhoneTestCases.ValidLandline3 | server/phone.test.ts:136 | a formatted landline is complete |
| PhoneTestCases.IncompleteRejected1 | server/phone.test.ts:146 | "119" is incomplete |
| PhoneTestCases.IncompleteRejected2 | server/phone.test.ts:147 | "11987" is incomplete |
| PhoneTestCases.IncompleteRejected3 | server/phone.test.ts:148 | the empty string is incomplete |
| Home.FormatTimeRemaining | client/src/pages/Home.tsx:15-23 | the label always ends in minutes ("…m") |
| Home.TimeLabelHasHours | client/src/pages/Home.tsx:15-23 | the label shows an hour part exactly when at least one whole hour remains |
| Home.TimeLabelIsWholeMinutes | client/src/pages/Home.tsx:15-23 | two times get the same label exactly when they have the same whole minutes |
| Home.ValidatePhoneNumber | client/src/pages/Home.tsx:145-165 | no message exactly when the field is not blank, matches the allowed characters and has 10 to 15 digits |
| Home.TrimKeepsDigits | client/src/pages/Home.tsx:246 | trimming keeps the digits |
| Home.ClientValidIsServerValid | client/src/pages/Home.tsx:237-249 | a field the page accepts, once trimmed, passes the server's schema |
| Home.TrimKeepsPattern | client/src/pages/Home.tsx:151-153 | trimming keeps the allowed-character pattern |
| Home.MaskedLocal | client/src/pages/Home.tsx:167-185 | the masked digits are digits only, at most thirteen |
| Home.PhoneMask | client/src/pages/Home.tsx:167-218 | the mask always begins with "+55 " |
| Home.FormatPhoneNumber | client/src/pages/Home.tsx:167-218 | the step-by-step mask equals the `PhoneMask` specification |
| Home.MaskKeepsDigits | client/src/pages/Home.tsx:167-218 | the mask shows "55" and the first eleven masked digits |
| Home.MaskLayoutTruncate | client/src/pages/Home.tsx:205-213 | digits past the eleventh do not change the layout |
| Home.MaskIdempotent | client/src/pages/Home.tsx:167-218 | masking a masked field again gives it back |
| Home.MaskLayoutChars | client/src/pages/Home.tsx:186-218 | the layout uses only digits, spaces, "(", ")" and "-" |
| Home.MaskAcceptedIffEightDigits | client/src/pages/Home.tsx:220-235 | a masked field passes validation exactly when it holds at least eight local digits |
| Home.MaskWellFormed | client/src/pages/Home.tsx:186-218 | a masked field is never blank and always matches the allowed-character pattern |
| Home.AddNumberForm.constructor | client/src/pages/Home.tsx:113-115 | the dialog starts with "+55 ", no name and no error |
| Home.AddNumberForm.Reset | client/src/pages/Home.tsx:94-96 | closing the dialog or a successful add restores the initial state |
| Home.AddNumberForm.HandlePhoneChange | client/src/pages/Home.tsx:220-235 | clearing puts back "+55 " without error; otherwise the field is masked and its error is exactly "fewer than eight local digits" |
| Home.AddNumberForm.EditPhone | client/src/pages/Home.tsx:865 | the raw phone field stores what is typed |
| Home.AddNumberForm.EditDisplayName | client/src/pages/Home.tsx:376 | the name field stores what is typed |
| Home.AddNumberForm.HandleAddNumber | client/src/pages/Home.tsx:237-249 | an invalid field reports its message and submits nothing; otherwise the trimmed phone and name are submitted, and the server accepts that phone |
| Home.GridCompare | client/src/pages/Home.tsx:588-600 | no contract of its own: the grid comparator as written; `GridTotalPreorder` and `GridGroupsByStatus` state its order |
| Home.GridTotalPreorder | client/src/pages/Home.tsx:588-600 | the grid comparator is a total preorder |
| Home.GridGroupsByStatus | client/src/pages/Home.tsx:588-600 | the sorted grid lists available, then cooldown, then blocked, each group by remaining time |
| Home.SortGrid | client/src/pages/Home.tsx:588-600 | the grid array is sorted in place by the comparator and is a permutation of what it was |
| Home.ReleasesFirstTotalPreorder | client/src/pages/Home.tsx:562 | ordering by remaining time is a total preorder |
| Home.NextAvailable | client/src/pages/Home.tsx:560-564 | no hint exactly when no number is in cooldown; otherwise a cooldown number with the least remaining time |
| Home.StatusCount | client/src/pages/Home.tsx:251-253 | a counter never exceeds the listing, and is zero exactly when no listed number has that status |
| Home.CountsCoverAll | client/src/pages/Home.tsx:251-253 | the three counters add up to the number of listed numbers |
| TimeUtils.FormatRelativeTime | client/src/lib/timeUtils.ts:5-27 | no timestamp (or 0) reads "Nunca usado"; any other timestamp reads "há …", so the two cases never share a label |
| TimeUtils.ChainedFloors | client/src/lib/timeUtils.ts:12-15 | dividing by 1000, 60, 60 and 24 in turn is dividing by the minute, hour or day at once |
| TimeUtils.RelativeTimeIsLargestUnit | client/src/lib/timeUtils.ts:5-27 | below a minute, future times included: "há poucos segundos"; otherwise the whole count of the largest unit reached, singular exactly for one |
| TimeUtils.PhraseInjective | client/src/lib/timeUtils.ts:18-23 | a label determines its unit and its count |
| TimeUtils.SameLabelSameReading | client/src/lib/timeUtils.ts:5-27 | two times a minute or more ago get the same label exactly when they count the same number of the same unit |

## Left out

- Authentication, the tRPC transport and the connection in `getDb` are not modelled. A missing database is the store's `connected` flag.
- Concurrency is not modelled. Each procedure runs alone. `useNumber` computes the new use count from a read that another request could overtake.
- There is one clock. The database's own timestamps (`defaultNow`, `onUpdateNow`) and MySQL's second precision are the `now` parameter in milliseconds.
- The `updatedAt` column and `createdAt` of history lines are set to `now`. No property depends on them.
- Column widths (`varchar` lengths), collation and case-insensitive uniqueness are not modelled. The phone order compares character codes.
- Router.AddNumber: the schema's regular expression uses JavaScript's Unicode `\s`. The model accepts the ASCII spaces only, and the same holds for `trim`.
- Router.AddNumber: zod's messages are not modelled, only that the input is rejected.
- Router.BlockNumber: ids, hours and contact counts are integers in the model. The schema's `z.number()` also admits fractions, which are not modelled.
- Router.GetHistory: the limit is a natural number in the model. A negative limit, which the schema admits and the database would reject, is not modelled.
- String lengths count characters, not UTF-16 code units. The two agree on the phone characters involved.
- The stored `status` column is written but never read; status is always computed from the timestamps.
- Home.FormatTimeRemaining takes a natural number. The remaining times it receives are never negative (`NumberStatus.GetNumberStatus`).
- A listing that has not loaded yet (`numbers` undefined, `|| 0`) is not modelled. The counters and the hint act on a loaded listing.
- The seed script, the history page's layout, toasts, dialogs and `toLocale*` date formatting are presentation or tooling, outside the model.
- TimeUtils.FormatRelativeTime: `Date.now()` is the parameter `now`. A `NaN` timestamp is not modelled.
- Suggestion.GetSuggestion: its result equals `Suggest` only when ids are distinct, which every store row guarantees.
- Home.NextAvailable: when several cooldown numbers tie, the model promises only one with the least remaining time, not which one the JavaScript sort leaves first.

## Findings

| source | as written | input that shows it | evidently intended | confidence | as-written member | corrected member |
|---|---|---|---|---|---|---|
| client/src/lib/phoneUtils.ts:54-68 | any local number of more than five digits takes the five-then-four branch, so the four-four landline branch can never run | "551499992039" is shown "+55 (14) 99992-039" | "+55 (14) 9999-2039", as the function's own documentation says (line 32) | not executed | PhoneUtilsExamples.LandlineCounterexample | PhoneUtils.FormatBRPhoneIntended |
| client/src/lib/phoneUtils.ts:31 | the documented example pairs the input "5522999920399" with the display "+55 (22) 99999-2039" | "5522999920399" is shown "+55 (22) 99992-0399" by the code and by the intended grouping alike | the display of "5522999992039", as in the test suite (server/phone.test.ts:58); the documentation, not the code, is wrong | not executed | PhoneUtilsExamples.SecondExampleMismatch | PhoneUtilsExamples.SecondExampleCorrected |

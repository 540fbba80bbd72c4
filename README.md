# Monetraq ledger core in Dafny

Monetraq is a personal finance ledger. It records income and expense
entries, keeps them in the browser's local storage, and derives views from
them for display. This project models the ledger state engine of
`app/composables/useLedger.ts`:

- the entry record, and the normaliser that turns whatever storage returned
  into entries;
- category labels: normalisation, registration and the hydration merge;
- the derived views: the newest-first list, the totals, the month
  summaries, the day groups and the list of available categories;
- the mutations `addTransaction`, `updateTransaction`, `removeTransaction`
  and `clearAll`, together with the hydration that runs once the page is
  mounted.

It also models two smaller pieces:

- the install-banner state of `app/composables/usePwaInstall.ts`
  (`createInstallState`);
- `parseAcceptLanguage` from `app/composables/useLocale.ts`.

## Modules

- **Wrappers**: `Option` and `Result`.
- **JsonValue**: the untyped values storage can hand back. Numbers can be
  finite, `NaN`, or an infinity.
- **JsText**: string operations of JavaScript.
  - `String.prototype.trim`, over the JavaScript white-space set.
  - The `/\s+/g` → `' '` replacement (`Collapse`).
  - The string `<` comparison (`LexLess`).
- **Sorting**: `Array.prototype.sort`. It is modelled as a stable insertion
  sort under a comparator that is a total preorder.
- **Categories**: the default labels, `normaliseCategory`,
  `registerCategory`, and the label merge of hydration.
- **LedgerEntries**: the `LedgerEntry` record and `normaliseLedgerEntries`.
  The normaliser is a loop method proved equal to a specification function.
  That function's properties are proved as lemmas: which items are
  accepted, the first exception, the normalised shape, and the
  storage round trip.
- **LedgerAggregates**: `sortedTransactions`, and the loops behind `totals`,
  `monthlySummaries` and `groupedByDay`, written as methods with
  invariants. `availableCategories` is a function.
- **LedgerStore**: the `Ledger` class, which holds the transaction list and
  the user's categories, with one method per mutation and one for
  hydration. Each method is stated by a function of the old state, and the
  lemmas beside those functions prove what they preserve.
- **PwaInstall**: the `InstallPrompt` class and `Number.parseInt`.
- **Locale**: `parseAcceptLanguage`.

### What the environment supplies

Time, identifiers and collation come from the environment, so the model
takes them as parameters:

- **Time.** `Calendar` supplies `new Date(v)` (`parse`, `None` for an
  Invalid Date), `toISOString` (`iso`) and the local `toMonthKey` and
  `toDayKey` (`monthKey`, `dayKey`). Instants are integers of
  milliseconds. The clock reading (`Date.now()`, `new Date()`) is a
  parameter of each operation that reads it.
- **Identifiers.** `generateId()` is a parameter: `freshId`, or
  `ids(i)` for the i-th stored item.
- **Collation.** `localeCompare` is a comparator `collate`. Lemmas that
  need an order require it to be a total preorder.

### Where the model follows the code

In these places the model follows what the code does:

- **Fallback category.** `"Misc"` replaces a stored category only when the
  category is `null` or absent (`??`). A whitespace-only category
  normalises to the empty string and is stored as that. This holds both
  in the normaliser and in `addTransaction`/`updateTransaction`
  (`Categories.NormaliseCategoryEmpty`).
- **The normaliser can throw.** `toISOString` on an Invalid Date and
  `trim` on a category that is not a string throw, and the exception
  escapes the loop. The model returns `Err` with the first such item's
  error. At start-up the exception escapes `useLedger`; in the mounted
  hook it ends the hook before anything changes.
- **Expenses.** Every entry whose `type` is not `'income'` counts as an
  expense, whatever its `type`.
- **Non-finite numbers on the way out.** `JSON.stringify` writes `NaN`
  and the infinities as `null`. An entry whose `type` holds one (read as
  `1e400`, say) is accepted, but what the watcher writes back reads as
  `"type": null`, so the next load drops it
  (`LedgerEntries.InfiniteTypeLostOnReload`).
- **Install failures.** When `prompt()` or `userChoice` fails, the
  `finally` block still clears the prompt and hides the banner. The
  exception then propagates; this is `PromptResult.Failed`.

## Model

| member | source | states |
|---|---|---|
| JsText.Trim | app/composables/useLedger.ts:75 | the result starts and ends with a non-white-space character (or is empty) and is the input with only white space cut from its two ends |
| JsText.Collapse | app/composables/useLedger.ts:75 | the `/\s+/g` replacement never lengthens the text |
| JsText.TrimKeepsText | app/composables/useLedger.ts:75 | trimming removes no character other than white space |
| JsText.TrimEmpty | app/composables/useLedger.ts:75 | trimming gives the empty string exactly when the input is all white space |
| JsText.CollapseSpacing | app/composables/useLedger.ts:75 | after the `/\s+/g` replacement no two white-space characters are adjacent and every white-space character left is a plain space |
| JsText.CollapseKeepsText | app/composables/useLedger.ts:75 | the replacement removes no character other than white space |
| JsText.CollapseOfCollapsed | app/composables/useLedger.ts:75 | the replacement leaves single-spaced text unchanged |
| JsText.LexLessTransitive | app/composables/useLedger.ts:216 | the string `<` used by the month and day sorts is transitive |
| JsText.LexLessTotal | app/composables/useLedger.ts:216 | of two different strings one is `<` the other, so the sorts see no ties on distinct keys |
| Sorting.SortBy | app/composables/useLedger.ts:173-175 | `sort` returns a permutation of its input, of the same length |
| Sorting.SortBySorted | app/composables/useLedger.ts:173-175 | under a total-preorder comparator the result of `sort` is ordered by it |
| Sorting.SortByOfSorted | app/composables/useLedger.ts:241-243 | sorting an already ordered list leaves it unchanged |
| Categories.NormaliseCategory | app/composables/useLedger.ts:74-76 | `normaliseCategory` never lengthens a label |
| Categories.NormaliseCategoryShape | app/composables/useLedger.ts:74-76 | a normalised label has no white space at either end, and it is single-spaced with plain spaces |
| Categories.NormaliseCategoryKeepsText | app/composables/useLedger.ts:74-76 | normalising keeps every non-white-space character, in order |
| Categories.NormaliseCategoryEmpty | app/composables/useLedger.ts:74-76 | a label normalises to the empty string exactly when it is all white space |
| Categories.NormalLabelIsFixedPoint | app/composables/useLedger.ts:74-76 | a label is left unchanged by normalising exactly when it has the normal shape |
| Categories.NormaliseCategoryIdempotent | app/composables/useLedger.ts:74-76 | normalising twice is normalising once |
| Categories.DiningOutExample | app/composables/useLedger.ts:74-76 | `"  Dining   Out "` normalises to `"Dining Out"` |
| Categories.TwoWords | app/composables/useLedger.ts:74-76 | two words with white space before, between and after them normalise to the words joined by one space |
| Categories.Words | app/composables/useLedger.ts:74-76 | any number of words, with non-empty white space between them and any white space around them, normalise to the words joined by single spaces |
| Categories.Registered | app/composables/useLedger.ts:248-257 | `registerCategory` adds the normalised label once when it is non-empty and not yet present, and otherwise returns the list itself, untouched |
| Categories.RegisteredKeepsSortedDistinct | app/composables/useLedger.ts:248-257 | registering keeps a sorted, duplicate-free user list sorted and duplicate-free |
| Categories.SortedLabelSet | app/composables/useLedger.ts:225 | `Array.from(set).filter(Boolean)` gives the distinct non-empty labels, each once |
| Categories.SortedLabelSetSorted | app/composables/useLedger.ts:225 | those labels come out in collation order |
| Categories.MergeCategories | app/composables/useLedger.ts:149-150 | the merge holds each label of the current list and each normalised stored label, once, without the empty label, and nothing else |
| LedgerEntries.NormaliseItem | app/composables/useLedger.ts:86-106 | the loop body skips an item that is not an object; an accepted entry keeps the item's `type` and always has a `note` |
| LedgerEntries.Collect | app/composables/useLedger.ts:85-107 | the loop never pushes more entries than it sees items |
| LedgerEntries.NormaliseSpec | app/composables/useLedger.ts:78-110 | a non-array yields no entries, and an array never yields more entries than it has items |
| LedgerEntries.NormaliseLedgerEntries | app/composables/useLedger.ts:78-110 | the loop returns exactly what the specification of the normaliser gives: no entries for a non-array, otherwise the accepted items' entries or the first exception |
| LedgerEntries.ItemAcceptance | app/composables/useLedger.ts:86-106 | an item is accepted exactly when it is an object with a truthy `timestamp` and `type`, a numeric `amount`, a valid date and a missing or string category. The entry keeps `type`, `id`, `note` and `createdAt`. A non-finite amount becomes 0, a missing category becomes `"Misc"` and a present one is normalised. `note` defaults to `""` and `createdAt` to the canonical timestamp |
| LedgerEntries.CollectCharacterised | app/composables/useLedger.ts:85-107 | the loop fails exactly when some item throws, and then with the first thrower's error. Otherwise it yields the accepted items' entries in their original order |
| LedgerEntries.KeptIndices | app/composables/useLedger.ts:85-107 | the positions of the accepted items, ascending, and every accepted position is among them |
| LedgerEntries.ItemWellFormed | app/composables/useLedger.ts:95-106 | an accepted entry has a non-null `id`, a truthy `type`, a present non-null `note` and `createdAt`, and a category of normal shape |
| LedgerEntries.NormaliseWellFormed | app/composables/useLedger.ts:78-110 | every entry the normaliser returns is well formed |
| JsonValue.Stringified | app/composables/useLedger.ts:60 | what `JSON.parse` reads back of `JSON.stringify(v)` holds no non-finite number, and is `v` itself when `v` holds none |
| LedgerEntries.ToJson | app/composables/useLedger.ts:60 | an entry's stored record is an object, carries `note` exactly when the entry has one, and holds no non-finite number |
| LedgerEntries.Serialise | app/composables/useLedger.ts:157 | the stored list has one record per entry and holds no non-finite number |
| LedgerEntries.ItemRoundTrip | app/composables/useLedger.ts:86-106 | a well-formed entry with no non-finite number in it, stored as its record and read back, is accepted unchanged |
| LedgerEntries.NormaliseRoundTrip | app/composables/useLedger.ts:78-110 | storing a list of such entries and normalising it gives the same list back |
| LedgerEntries.NormaliseStorable | app/composables/useLedger.ts:78-110 | normalising data with no non-finite number gives entries with none |
| LedgerEntries.NormaliseIdempotent | app/composables/useLedger.ts:78-110 | for data with no non-finite number (everything the ledger wrote itself), normalising the stored form of a normalised list gives the same list, whatever identifiers are on offer |
| LedgerEntries.StoredInfiniteTypeSkipped | app/composables/useLedger.ts:60 | an entry whose `type` is a non-finite number is stored as `"type": null` and is skipped when read back |
| LedgerEntries.InfiniteTypeLostOnReload | app/composables/useLedger.ts:86-106 | an accepted item whose `type` is an infinity does not survive being stored and read back |
| LedgerAggregates.NewerFirstIsPreorder | app/composables/useLedger.ts:174 | the comparator `b - a` on the instants is a total preorder |
| LedgerAggregates.SortedTransactions | app/composables/useLedger.ts:172-176 | the sorted view is a permutation of the entries with non-increasing instants |
| LedgerAggregates.ComputeTotals | app/composables/useLedger.ts:178-191 | the accumulator ends with income equal to the sum of the income entries, expenses equal to the sum of all other entries, and net equal to their difference; an empty ledger totals (0, 0, 0) |
| LedgerAggregates.SumsOfSorted | app/composables/useLedger.ts:178-179 | summing the sorted view gives the sums of the entries themselves |
| LedgerAggregates.SidesCoverAll | app/composables/useLedger.ts:180-185 | income plus expenses is the sum of all amounts: every entry counts on exactly one side |
| LedgerAggregates.RoundCents | app/composables/useLedger.ts:212-214 | `Number(x.toFixed(2))` keeps the sign of the amount |
| LedgerAggregates.RoundCentsClose | app/composables/useLedger.ts:212-214 | `Number(x.toFixed(2))` moves an amount by at most half a hundredth |
| LedgerAggregates.RoundCentsOfCents | app/composables/useLedger.ts:212-214 | an amount in whole hundredths is not changed by the rounding |
| LedgerAggregates.KeyOrderFacts | app/composables/useLedger.ts:209 | the keys of the bucket map, in insertion order, are the keys that occur, each once |
| LedgerAggregates.MonthBucketsFacts | app/composables/useLedger.ts:194-207 | after the loop the bucket has an entry for a month exactly when that month occurs, and it holds that month's income and expense sums |
| LedgerAggregates.MonthlySummaries | app/composables/useLedger.ts:193-217 | each row is the rounded summary of its month, the rows' months are exactly those that occur, and the months are strictly ascending |
| LedgerAggregates.MonthsAscending | app/composables/useLedger.ts:216 | the comparator `a < b ? -1 : 1` sorts the rows so that no later month precedes an earlier one |
| LedgerAggregates.FilterSorted | app/composables/useLedger.ts:231-236 | a group taken from the newest-first view is itself newest first |
| LedgerAggregates.DayBucketsFacts | app/composables/useLedger.ts:229-236 | after the loop the bucket has a group for a day exactly when that day occurs, and it holds that day's entries in the order seen |
| LedgerAggregates.GroupedByDay | app/composables/useLedger.ts:228-246 | there is one group per day that occurs, with the days strictly descending. Each group holds exactly that day's entries, newest first, and together the groups hold every entry exactly once |
| LedgerAggregates.DaysDescending | app/composables/useLedger.ts:245 | the comparator `a < b ? 1 : -1` sorts the groups so that no earlier day precedes a later one |
| LedgerAggregates.FlattenCountAll | app/composables/useLedger.ts:228-246 | groups that filter the list by distinct keys covering every entry hold each entry as often as the list does |
| LedgerAggregates.AvailableCategories | app/composables/useLedger.ts:219-226 | the list holds each default label, each user label and each entry's normalised category once, without the empty label, and nothing else |
| LedgerAggregates.AvailableCategoriesSorted | app/composables/useLedger.ts:225 | the available categories are in collation order |
| LedgerStore.NewEntry | app/composables/useLedger.ts:259-265 | the new entry has the payload's fields, the fresh id, the creation time and the normalised category |
| LedgerStore.ApplyPatch | app/composables/useLedger.ts:279-280 | `{ ...item, ...patch }` takes each field the patch carries and keeps the others and the id. The category is then normalised again |
| LedgerStore.ApplyPatchNormal | app/composables/useLedger.ts:279-280 | a patched entry's category has the normal shape |
| LedgerStore.ApplyEmptyPatch | app/composables/useLedger.ts:279-280 | a patch carrying nothing leaves a stored entry unchanged |
| LedgerStore.ApplyPatchTwice | app/composables/useLedger.ts:279-280 | applying a patch twice is applying it once |
| LedgerStore.PrependNewEntry | app/composables/useLedger.ts:267 | putting the new entry first keeps every category in the list normalised |
| LedgerStore.AddRegistersCategory | app/composables/useLedger.ts:268 | after adding, the user list holds its old labels and the new entry's category (unless empty), and nothing else |
| LedgerStore.Patched | app/composables/useLedger.ts:275-282 | the `map` callback keeps the id and leaves an entry with another id as it is |
| LedgerStore.UpdatedList | app/composables/useLedger.ts:274-283 | the updated list is as long as the old one |
| LedgerStore.UpdatedListFacts | app/composables/useLedger.ts:274-283 | updating keeps every id, leaves entries with another id untouched, and patches the entries with the id |
| LedgerStore.UpdatedListNormal | app/composables/useLedger.ts:274-283 | updating keeps every category in the list normalised |
| LedgerStore.UpdateAbsentId | app/composables/useLedger.ts:274-283 | an id no entry carries leaves the list unchanged |
| LedgerStore.UpdateTwice | app/composables/useLedger.ts:273-284 | sending the same patch twice leaves the list where sending it once does |
| LedgerStore.RegisterMatchesTwice | app/composables/useLedger.ts:273-284 | sending the same patch twice leaves the user categories where sending it once does |
| LedgerStore.RegisterMatches | app/composables/useLedger.ts:274-283 | the categories registered by the update keep every label the user list had |
| LedgerStore.RegisterMatchesAsFold | app/composables/useLedger.ts:274-283 | the categories registered by the update are the patched categories of the matching entries, in list order |
| LedgerStore.MatchedLabelsComplete | app/composables/useLedger.ts:274-283 | every entry the update patches contributes its patched category to the labels registered |
| LedgerStore.RegisterMatchesLabels | app/composables/useLedger.ts:273-284 | after updating, the user list holds its old labels and the non-empty patched categories, and nothing else |
| LedgerStore.RegisterMatchesSortedDistinct | app/composables/useLedger.ts:273-284 | updating keeps a sorted, duplicate-free user list sorted and duplicate-free |
| LedgerStore.RegisterMatchesAbsentId | app/composables/useLedger.ts:273-284 | an id no entry carries leaves the user list unchanged |
| LedgerStore.Without | app/composables/useLedger.ts:286-288 | the list after removal holds exactly the entries whose id differs |
| LedgerStore.Survivors | app/composables/useLedger.ts:286-288 | the positions `filter` keeps, ascending: exactly those whose id differs |
| LedgerStore.WithoutKeepsOrder | app/composables/useLedger.ts:286-288 | the list after removal is the entries at those positions, in their order and each once |
| LedgerStore.WithoutAbsentId | app/composables/useLedger.ts:286-288 | removal changes the list exactly when some entry carries the id |
| LedgerStore.RemoveTwice | app/composables/useLedger.ts:286-288 | removing twice is removing once |
| LedgerStore.RemoveAfterUpdate | app/composables/useLedger.ts:273-288 | removing after an update with the same id removes the same entries as removing straight away |
| LedgerStore.RemoveAfterAdd | app/composables/useLedger.ts:259-288 | removing the entry just added, under a fresh id, restores the list as it was |
| LedgerStore.InitialCategories | app/composables/useLedger.ts:128-131 | the initial user list is the stored list when that is non-empty, and the defaults otherwise |
| LedgerStore.HydratedList | app/composables/useLedger.ts:139-145 | a non-empty list read back replaces the current one, and an empty one keeps it |
| LedgerStore.HydratedCategories | app/composables/useLedger.ts:147-151 | with stored labels the user list becomes the merge of the current and the normalised stored labels, each once and none empty; without stored labels it is unchanged |
| LedgerStore.HydratedCategoriesSorted | app/composables/useLedger.ts:150 | the merged list is in collation order |
| LedgerStore.Ledger.constructor | app/composables/useLedger.ts:123-131 | the store starts with the normalised stored entries and the initial user list, with every category normalised |
| LedgerStore.Ledger.RegisterCategory | app/composables/useLedger.ts:248-257 | the user list becomes the registered list |
| LedgerStore.Ledger.AddTransaction | app/composables/useLedger.ts:259-271 | the new entry is returned and put in front of the list, its category is registered, and every category stays normalised |
| LedgerStore.Ledger.UpdateTransaction | app/composables/useLedger.ts:273-284 | the list becomes the updated list, the patched categories are registered in list order, and every category stays normalised |
| LedgerStore.Ledger.MapPatched | app/composables/useLedger.ts:274-283 | the loop returns the updated list and registers each patched category on the way |
| LedgerStore.Ledger.RemoveTransaction | app/composables/useLedger.ts:286-288 | the list loses exactly the entries with the id |
| LedgerStore.Ledger.ClearAll | app/composables/useLedger.ts:290-292 | the list becomes empty |
| LedgerStore.Ledger.Hydrate | app/composables/useLedger.ts:138-151 | if the normaliser throws, the hook stops with nothing changed. Otherwise the list and the user categories take their hydrated values |
| LedgerStore.OpenLedger | app/composables/useLedger.ts:122-131 | start-up fails with the normaliser's exception, or builds a store holding the normalised entries and the initial categories |
| PwaInstall.Digits | app/composables/usePwaInstall.ts:38 | `String(n)` gives a non-empty run of decimal digits with no leading zero |
| PwaInstall.DigitsRoundTrip | app/composables/usePwaInstall.ts:38 | reading the digits of `n` back gives `n` |
| PwaInstall.DecimalString | app/composables/usePwaInstall.ts:38 | `String(n)` is non-empty and starts with a sign or a digit |
| PwaInstall.ParseInt | app/composables/usePwaInstall.ts:48 | blank text has no number |
| PwaInstall.LeadingDigits | app/composables/usePwaInstall.ts:48 | `parseInt` reads the longest prefix of digits |
| PwaInstall.ParseIntOfDecimal | app/composables/usePwaInstall.ts:48 | `Number.parseInt(String(n), 10)` gives `n` back |
| PwaInstall.ParseIntStopsAtNonDigit | app/composables/usePwaInstall.ts:48 | `parseInt` ignores everything from the first non-digit on |
| PwaInstall.ParseIntSkipsWhitespace | app/composables/usePwaInstall.ts:48 | `parseInt` skips leading white space |
| PwaInstall.ParseIntNoDigits | app/composables/usePwaInstall.ts:48-49 | text without a digit parses to `NaN` |
| PwaInstall.HydratedUntil | app/composables/usePwaInstall.ts:44-56 | a missing or empty stored value, or one that does not parse, keeps the deadline. Otherwise the parsed value replaces it |
| PwaInstall.DismissalSurvivesReload | app/composables/usePwaInstall.ts:35-56 | a deadline written by `setDismissedUntil` is the deadline `hydrateDismissal` reads back |
| PwaInstall.InstallPrompt.constructor | app/composables/usePwaInstall.ts:20-24 | the state starts with no prompt, nothing installed or installing, and a zero deadline |
| PwaInstall.InstallPrompt.ShowsLater | app/composables/usePwaInstall.ts:26-33 | once `shouldShow` holds, it keeps holding as time goes on while the state is unchanged |
| PwaInstall.InstallPrompt.SetDismissedUntil | app/composables/usePwaInstall.ts:35-42 | the deadline is set and written to storage as its decimal string |
| PwaInstall.InstallPrompt.HydrateDismissal | app/composables/usePwaInstall.ts:44-56 | the deadline becomes the hydrated deadline read from storage |
| PwaInstall.InstallPrompt.Install | app/composables/usePwaInstall.ts:58-77 | without a prompt nothing changes. Otherwise the prompt is used up and the banner hidden whatever the answer. Acceptance marks the app installed, a dismissal snoozes for a week, a failure raises, and the banner shows at no instant afterwards |
| PwaInstall.InstallPrompt.Dismiss | app/composables/usePwaInstall.ts:79-81 | the banner is hidden until a week from now, and shows again then if it is otherwise allowed |
| PwaInstall.InstallPrompt.MarkInstalled | app/composables/usePwaInstall.ts:83-87 | the app is installed, the prompt is gone, and the banner never shows |
| PwaInstall.InstallPrompt.SetInstallAvailable | app/composables/usePwaInstall.ts:97-100 | a prompt is held, and the banner shows exactly at instants past the deadline while the app is neither installed nor installing |
| Locale.FirstField | app/composables/useLocale.ts:10 | `split(',')[0]` is the longest comma-free prefix of the header |
| Locale.ParseAcceptLanguage | app/composables/useLocale.ts:5-12 | a missing or empty header gives `undefined`. Any tag returned is non-empty, trimmed and comma-free |
| Locale.FirstTagWins | app/composables/useLocale.ts:10-11 | the result is the trimmed text before the first comma, or `undefined` when that is blank, whatever follows |
| Locale.SingleTag | app/composables/useLocale.ts:10-11 | a header without a comma gives itself trimmed, or `undefined` when blank |
| Locale.BrowserHeaderExample | app/composables/useLocale.ts:5-12 | `"en-GB,en;q=0.9"` gives `"en-GB"` |

## Left out

- Local storage itself and the exceptions of `JSON.parse`, `JSON.stringify`
  and `setItem` are left out. What the ledger reads is an input. What it
  writes is modelled by its value as read back (`LedgerEntries.Serialise`,
  which writes non-finite numbers as `null`), but not the act of writing.
  In the install state the dismissal slot is a field.
- Vue reactivity is left out: `useState`, `computed`, `watch`,
  `onMounted`, and the `lastSyncedAt` time stamp. Each derived view is a
  function or method over the current entries.
- `generateId`, `Date` and `localeCompare` are environment services and
  are taken as parameters (`ids`/`freshId`, `Calendar`, `collate`). The
  local time zone lives inside `Calendar`.
- Floating point is left out: amounts are exact reals. `toFixed(2)` is
  modelled as rounding half away from zero, with no rounding from 10^21
  on.
- LedgerStore.Ledger.Hydrate: it compares the two lists by value rather
  than by their `JSON.stringify` text. Assigning an equal list changes
  nothing, so the state reached is the same.
- A stored category blob that is not an array is left out. The categories
  read back are a list of strings.
- Patch fields set explicitly to `undefined` are left out. A patch either
  carries a field or does not.
- `updateTransaction`'s patch may not carry `id`. The model's `Patch` has
  no `id` field, as the type declares.
- PwaInstall.DecimalString: it is `String(n)` for integers below 10^21 in
  magnitude. Exponent notation, and `parseInt`'s loss of precision on
  long digit runs, are left out.
- `ensureListeners`, the window events and the display-mode query are left
  out, as are the module-level `sharedState` and `listenersBound`, and the
  server-side stub. The events are the methods `SetInstallAvailable` and
  `MarkInstalled`. `deferredPrompt` is the field `hasPrompt`.
- PwaInstall.InstallPrompt.Install: the `await`s are left out. The user's
  answer and the instant it arrives are parameters, and the method runs in
  one step, so the model does not state that `isInstalling` shows `true`
  while the prompt is open.
- `usePreferredLocale` is left out. It reads request headers or
  `navigator.language`, which are environment inputs.
- LedgerEntries.ItemRoundTrip: it holds only for entries with no
  non-finite number in `id`, `type`, `note` or `createdAt`, because
  `JSON.stringify` writes those as `null`. `InfiniteTypeLostOnReload`
  shows an entry lost that way.
- LedgerEntries.NormaliseRoundTrip: it holds only for such entries, for
  the same reason.
- LedgerEntries.NormaliseIdempotent: it holds only for stored data with no
  non-finite number. Everything the ledger writes itself is such data
  (`Serialise`).
- Sorting.SortBy: the model does not state stability. It proves that the
  result is a permutation and is ordered, which is all the ledger relies
  on.
- LedgerEntries.NormaliseLedgerEntries: the method computes every item's
  outcome before its loop pushes the entries. Each outcome depends only on
  its own item, so the result is the same as interleaving the two.

# FIFA tracker web: match ledger, edit session and standings, in Dafny

This project models the state layer of the tracker's home page and its two views:

- **Match history** (`src/components/MatchHistory.tsx`, module `MatchHistory`): the
  ordinal suffix of a day of the month; the grouping of the loaded page of matches
  by calendar day and the newest-first order in which the days are shown; the toast
  list (shown, dismissed, expired); the single-match edit session (start, the goal
  steppers and the half-length input, save, cancel); and the confirmed delete.
  The component's state (`editingMatch`, `editForm`, `toasts`) is the class
  `MatchHistoryView`; its handlers are methods that take the collaborator's outcome,
  the confirmation answer and the toast id as parameters and return the calls they
  make (`updateMatch`, `deleteMatch`, `onMatchUpdated`).
- **Home page controller** (`src/app/page.tsx`, module `Home`): the class `HomePage`
  holds `activeTab`, `selectedTournament`, `tournament`, `table`, `players`,
  `tournaments`, `userCreatedTournaments`, `matches`, `matchesPagination`,
  `currentPage` and `pageSize`. Each event handler is a method that takes the
  outcome of every read it awaits, returns the reads it issued in order, and states
  which fields the outcomes overwrite and which stay as they were.
- **Standings table** (`src/components/TournamentStandings.tsx`, module
  `TournamentStandings`): a pure projection of the delivered standings list into
  rows (position, leader mark, name fallback, signed goal difference, the other
  columns verbatim).
- Module `Api` holds the records the three files read from the backend collaborator
  (`MatchResult`, `PlayerStats`, `Tournament`, `User`, `PaginatedResponse`) with
  the fields they use, and the outcome shapes of awaited calls.

Inputs that the source takes from the outside world are parameters here: the
outcome of each awaited collaborator call (`Fetch` / `Outcome`), the answer of
`confirm` (a boolean), the toast id `Date.now()` would give (a string), the firing of
the three-second timer (the method `ExpireToast`), and the calendar day of a match
(an integer `DayKey`, larger meaning later).

Points where the model follows the code rather than the intended behaviour:

- Switching tournament does not reset `currentPage` (`SelectTournament` keeps it),
  and it does not update the `tournament` record, which only `initializeData`
  writes.
- There is no lock against a second mutation while one is in flight, and no
  tagging of responses: a late response overwrites whatever is shown.
- A failed save keeps the edit session open with its form; nothing is retried.
- Toast ids are not unique; removal drops every toast with the id, so the expiry of
  one toast can remove another created in the same millisecond
  (`SharedIdExpiryRemovesBoth`).
- `getOrdinalSuffix` gives "th" for 4..20 and otherwise decides by the last digit.
  On the days 1..31 this is the English rule of 11th/12th/13th
  (`OrdinalSuffixOfCalendarDay`); beyond 110 (which no calendar day reaches) the two
  rules part.
- `if (!editingMatch) return` also returns for an empty match id, which is falsy.
- `matchesPagination?.total_pages || 1` is 1 also when the server reports 0 pages.
- `parseInt(value) || 4` falls back to 4 when the input reads as NaN and when it
  reads as 0; other values, including ones outside 3..6, are kept.

## Model

| member | source | states |
|---|---|---|
| `MatchHistory.OrdinalSuffix` | src/components/MatchHistory.tsx:37-49 | "st" exactly for day 1 and days over 20 ending in 1, "nd" and "rd" likewise for 2 and 3, "th" otherwise (so 11, 12, 13 and every day 4..20 give "th") |
| `MatchHistory.OrdinalSuffixOfCalendarDay` | src/components/MatchHistory.tsx:37-49 | on every calendar day 1..31 the suffix is the English ordinal suffix (11th-13th, else by last digit) |
| `MatchHistory.OnDay` | src/components/MatchHistory.tsx:57-63 | the matches pushed onto one day's list form a sub-list of the input, all of that day |
| `MatchHistory.GroupMatchesByDate` | src/components/MatchHistory.tsx:52-66 | the dictionary's keys are exactly the input's days, each listed once in the key order; each key holds exactly that day's matches in input order |
| `MatchHistory.OnDayEmptyIff` | src/components/MatchHistory.tsx:52-66 | a day's list is empty exactly when no input match has that day, so no group is empty |
| `MatchHistory.OnDayPlacesEachMatch` | src/components/MatchHistory.tsx:52-66 | a match is in the group of day k exactly when it is an input match of day k: each match lands in one group, its own |
| `MatchHistory.InsertDescending` | src/components/MatchHistory.tsx:155-157 | inserting a key into a newest-first list keeps it newest-first (strictly, for a new key) and adds exactly that key |
| `MatchHistory.SortDates` | src/components/MatchHistory.tsx:155-157 | the sorted keys are a permutation of the keys in descending date order, strictly descending when the keys are distinct |
| `MatchHistory.DescendingPermutationUnique` | src/components/MatchHistory.tsx:155-157 | any two descending arrangements of the same keys are equal, so the order does not depend on the sort algorithm |
| `MatchHistory.SortedDatesOfGrouping` | src/components/MatchHistory.tsx:155-157 | `sortedDates` holds each group key exactly once, in strictly descending date order |
| `MatchHistory.SortedDatesAlongGroups` | src/components/MatchHistory.tsx:164-165 | every key of `sortedDates` looks up its own day's group |
| `MatchHistory.DisplayOrderIsPermutation` | src/components/MatchHistory.tsx:152-174 | listing the groups in `sortedDates` order shows every input match exactly as often as the input holds it; the count is preserved |
| `MatchHistory.DisplayOrderIsNewestFirst` | src/components/MatchHistory.tsx:152-174 | the listed matches go newest day first |
| `MatchHistory.DisplayOrderKeepsDayOrder` | src/components/MatchHistory.tsx:152-174 | the matches of each day are listed in their input order; with the two rows above, the view is the stable sort by day, newest first |
| `MatchHistory.WithoutId` | src/components/MatchHistory.tsx:93-95 | removal by id keeps exactly the toasts with another id |
| `MatchHistory.WithoutIdAppend` | src/components/MatchHistory.tsx:88-95 | removal works toast by toast, so the kept toasts stay in their order |
| `MatchHistory.WithoutAbsentId` | src/components/MatchHistory.tsx:93-95 | removing an id no toast carries changes nothing |
| `MatchHistory.RemovalIdempotent` | src/components/MatchHistory.tsx:88-95 | removing the same id twice (dismiss, then expiry) is removing it once |
| `MatchHistory.ShowThenExpire` | src/components/MatchHistory.tsx:82-91 | a toast with an id no other toast carries leaves on expiry exactly the list it was appended to |
| `MatchHistory.SharedIdExpiryRemovesBoth` | src/components/MatchHistory.tsx:83-90 | two toasts with the same id both disappear when that id expires |
| `MatchHistory.StepDown` | src/components/MatchHistory.tsx:189-196 | the "-" stepper gives max(0, g-1): never negative, g-1 whenever that is not negative |
| `MatchHistory.HalfLengthFromInput` | src/components/MatchHistory.tsx:266-270 | the half length is the parsed integer, or 4 when parsing gives NaN or 0; never 0 |
| `MatchHistory.ApplyStep` | src/components/MatchHistory.tsx:189-270 | each control changes only its own field: "-" clamps at 0, "+" adds one with no bound, the input sets the half length |
| `MatchHistory.StepsKeepGoalsNonNegative` | src/components/MatchHistory.tsx:189-246 | no sequence of control uses takes a goal count below zero from a non-negative form |
| `MatchHistory.StepDownUndoesStepUp` | src/components/MatchHistory.tsx:189-213 | "-" after "+" restores a non-negative count; at 0, "-" then "+" gives 1 |
| `MatchHistory.MatchHistoryView.constructor` | src/components/MatchHistory.tsx:73-79 | no match edited, form (0, 0, 4), no toasts |
| `MatchHistory.MatchHistoryView.ShowToast` | src/components/MatchHistory.tsx:82-86 | appends the new toast at the end, existing toasts and the edit session unchanged |
| `MatchHistory.MatchHistoryView.RemoveToast` | src/components/MatchHistory.tsx:93-95 | dismissal removes exactly the toasts with that id |
| `MatchHistory.MatchHistoryView.ExpireToast` | src/components/MatchHistory.tsx:88-90 | expiry removes exactly the toasts with that id |
| `MatchHistory.MatchHistoryView.EditClick` | src/components/MatchHistory.tsx:97-104 | the clicked match becomes the only match edited, replacing any other; the form is that match's goals and half length; toasts unchanged |
| `MatchHistory.MatchHistoryView.AdjustForm` | src/components/MatchHistory.tsx:189-270 | the form is updated by the control's updater; the session and toasts unchanged; non-negative goals stay non-negative |
| `MatchHistory.MatchHistoryView.SaveEdit` | src/components/MatchHistory.tsx:106-125 | without a (truthy) edited id nothing happens; otherwise one update request with the form's values; success ends the session, appends one success toast and calls onMatchUpdated when given; failure appends one error toast, makes no callback and keeps session and form |
| `MatchHistory.MatchHistoryView.CancelEdit` | src/components/MatchHistory.tsx:127-129 | no match is edited; form and toasts unchanged |
| `MatchHistory.MatchHistoryView.DeleteMatch` | src/components/MatchHistory.tsx:131-150 | declined: no delete request, no toast, no callback; confirmed: one delete request, then one success toast and the callback, or one error toast and no callback |
| `Home.TotalPagesShown` | src/app/page.tsx:323 | the page count shown is the server's total_pages, or 1 when nothing is loaded or it is 0 |
| `Home.IsCreator` | src/app/page.tsx:316-318 | holds exactly when some listed tournament has the selected id |
| `Home.HomePage.IsTournamentCreator` | src/app/page.tsx:316-318 | holds exactly when the selected id is among the user-created tournaments |
| `Home.HomePage.constructor` | src/app/page.tsx:35-48 | tab "tournament", no selection, empty lists, nothing loaded, page 1, page size 20 |
| `Home.HomePage.InitializeData` | src/app/page.tsx:68-86 | one tournaments read; on success both tournament lists are the fetched list and the first tournament is selected (and recorded) iff the list is non-empty; on failure nothing changes |
| `Home.HomePage.SelectTournament` | src/app/page.tsx:262-263 | only the selection changes; the change effect is due iff the id differs; page number and tournament record are kept |
| `Home.HomePage.TournamentChangeEffect` | src/app/page.tsx:89-111 | without a selection nothing; otherwise a players read then a standings read, each outcome writing only its own field, a failure leaving that field; matches and page untouched |
| `Home.HomePage.StorePage` | src/app/page.tsx:139-140 | pagination and matches are replaced together from one delivered page |
| `Home.HomePage.HandleTabClick` | src/app/page.tsx:120-145 | the tab is always set; only "tournament" reads standings and only "history" reads matches at (currentPage, pageSize), both only with a selection; a failed read keeps the previous data |
| `Home.HomePage.RefreshMatches` | src/app/page.tsx:147-165 | reads the current page then standings; a failed page read skips the standings read and changes nothing; a failed standings read keeps the new page |
| `Home.HomePage.HandlePageChange` | src/app/page.tsx:167-182 | no-op without a selection; otherwise the page is set before the read, and a delivered page replaces pagination and matches together |
| `Home.HomePage.OnMatchLogged` | src/app/page.tsx:332 | behaves as handleTabClick("history") |
| `TournamentStandings.StandingsRows` | src/components/TournamentStandings.tsx:67-115 | one row per entry in delivered order: position i+1, leader mark only at index 0, name fallback, signed goal difference that reads back as the value, other columns verbatim |
| `TournamentStandings.DisplayName` | src/components/TournamentStandings.tsx:85 | first_name when non-empty, otherwise username |
| `TournamentStandings.GoalDifferenceText` | src/components/TournamentStandings.tsx:106-109 | the cell starts with "+" iff the goal difference is at least 0, and with "-" iff it is negative |
| `TournamentStandings.GoalDifferenceRoundTrip` | src/components/TournamentStandings.tsx:108-109 | reading the goal-difference cell back gives exactly the goal difference |
| `TournamentStandings.NatTextRoundTrip` | src/components/TournamentStandings.tsx:109 | the decimal text of a number reads back as that number |
| `TournamentStandings.ZeroGoalDifferenceText` | src/components/TournamentStandings.tsx:108-109 | a goal difference of 0 shows as "+0" |
| `TournamentStandings.ExactlyOneLeader` | src/components/TournamentStandings.tsx:70-79 | a non-empty table marks exactly one leader row, an empty one none |
| `TournamentStandings.NoLocalResorting` | src/components/TournamentStandings.tsx:67-80 | an entry keeps its delivered place even when a later entry has more points |

## Left out

- Locale date formatting (`formatDate`, `toLocaleDateString`) and date parsing
  (`new Date(...)`, `toDateString`, `getTime`): foreign library calls; a match's day
  is an abstract integer key whose order is the date order. Invalid dates are not
  modelled.
- Wall-clock time: the three-second timer of `showToast` is the explicit
  `ExpireToast` event; `Date.now()` ids are a parameter.
- The backend calls of the API client, `window.confirm` and `console.error`: outcome
  parameters, a boolean, and nothing. The API client itself is not part of this
  model.
- Asynchrony: each handler runs to completion with the outcomes of its awaits given
  up front; the interleaving of two handlers, and the values React closures capture
  at render time, are not modelled.
- The click-outside menu listener and `isMenuOpen`, the tabs' labels and icons, all
  markup and styling, and the components not shown (`ProtectedRoute`, `LogMatch`,
  `Settings`, `CustomDropdown`).
- The `isTournamentCreator` gate on the edit and delete buttons and the props the
  match history does not read (`isTournamentCompleted`, `onPageChange`,
  `currentPage`, `totalPages`): presentation.
- The string parsing of `parseInt` on the half-length input: the parsed value (or
  NaN) is the input of `HalfLengthFromInput`.
- The auth page (`src/app/auth/page.tsx`): a form shell over the auth provider.

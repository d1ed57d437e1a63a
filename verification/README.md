# Verified model of the club's scheduling, transfer and checkout screens

This Dafny project models the algorithms and client protocols behind the
browser screens of a sports-club system and proves what they promise for all
inputs and all runs. `dafny verify dfyconfig.toml` checks it.

| file | models |
|---|---|
| `Calendar.dfy` | the proleptic Gregorian calendar and the `Date` constructor |
| `ScheduleDates.dfy` | date presets, grouping, keys and month arithmetic of the schedule |
| `MemberSchedule.dfy` | the member calendar's cells against its list |
| `Age.dfy` | ages, and the three other places that decide who is an adult |
| `LocationLayout.dfy` | the lanes and cards of one location's day |
| `Csv.dfy` | the CSV export against a reader of RFC 4180, section 2 |
| `RegistrationTransfer.dfy` | the transfer dialog, its server and the network |
| `PublicStore.dfy` | checkout and its recovery after crashes and lost replies |
| `ExampleSchema.dfy` | the schema-driven example generator |
| `LoadSeed.dfy` | the load seed's counts and person mapping |
| `Installments.dfy` | the two computations of an instalment plan's total |
| `DataTable.dfy`, `StableSort.dfy` | ordering, grouping and paging of tables |
| `Text.dfy`, `Stamps.dfy`, `Wrappers.dfy` | decimal text, text order, shared types |

## How the model reads the code

- A local midnight is a day number. A time zone is any function from instants
  to local days for which "day n has started" means "the clock shows day n or
  later". The local clock of one day is any function into minutes 0 to 1439, so
  repeated and skipped hours are included.
- `new Date(y, m, d)` and `Date.UTC` move years 0 to 99 to the 1900s. The model
  does so too. `Plain` says that the constructor keeps the year of a day, and
  where a property depends on it, the lemma says that the property holds exactly
  when the years concerned are kept. Only day keys, which are compared as text,
  are asked to be of years with four digits.
- Handlers that update a component's state are methods of a class. Each is
  proved to produce the state that a function of the old state gives. The two
  protocols are step relations over those functions, and their properties hold
  in every state of every run.
- Requests may be lost, delayed and delivered repeatedly. The server's choice
  to accept, refuse or fail an unknown key is arbitrary.
- Reals stand for floating-point card positions and heights; a constant number
  of rounding steps is not modelled.

## What turned out to depend on more than the code

- **Years 0 to 99.** The two-digit year rule moves days of these years to the
  1900s, by days that are never whole weeks. It also splits the fortnight of the
  first days of year 100, whose week starts in year 99 (`FortnightExact`).
- **Checkout recovery.** "Continue previous checkout" works while the first
  submission still waits for its answer. Its own late answer can then remove the
  record of the next checkout, whose order the browser no longer knows
  (`StaleRecovery`). A run keeps its records exactly when no receipt removes, and
  no new order replaces, the record of another checkout that is still open
  (`RecordsKeptInRun`); comparing keys in `placed` would prevent the first. It
  also keeps them when the buyer does not continue while a submission waits
  (`PatientBuyerLosesNothing`).
- **Rejected checkouts.** A discarded checkout can still become an order if the
  server accepts a delayed copy of a request it rejected before. No order is
  ever lost exactly when recovery waits and the server stands by its rejections
  (`NeverLostExactly`, and step by step `NeverLostInRun`).
- **Transfers reported as not saved.** The server in
  `legacy/server/registration-lifecycle.mjs` keeps no record of a refusal. It
  still commits at most one transfer of a registration, because the source is
  canceled with the first. A delayed copy of a refused request can be that one
  (`ServersJudged`). For any server, whatever its rule, the dialog is safe exactly
  when the rule never commits two (`AtMostOneExactly`), and "not saved" stands
  exactly when it never goes back on a refusal (`NotSavedStandsExactly`).
- **Unlucky examples.** The example generator looks at one lower bound only and
  never writes null or the empty text (`ExamplesRefused`); `ExampleExactly` says
  for which schemas its example is valid.
- **Events that end before they start.** The list and the calendar disagree only
  about events whose last day comes before their first (`RowsAgreeWithCells`). The
  server stores none of these (legacy/server/domain.mjs:690), so they agree on
  every stored event (`RowsAreCells`).

## Model

| member | source | states |
|---|---|---|
| Calendar.DaysBeforeMonthClosed | legacy/web/schedule-dates.ts:16-19 | the days before each month are those of the usual closed formula: months have the Gregorian lengths |
| Calendar.ValidExact | legacy/web/schedule-dates.ts:14-19 | a date exists exactly when that formula leaves room for its day before the next month |
| Calendar.CivilExact | legacy/web/schedule-dates.ts:14-19 | each real date has the number of the usual formula, and is the one date read from that number |
| Calendar.DayNumberOfCivil | legacy/web/schedule-dates.ts:14-19 | every day number is the number of a real date, with months as `DaysBeforeMonthClosed` has them |
| Calendar.CivilOfDayNumber | legacy/web/schedule-dates.ts:14-19 | and of no other: the fields of a real date's number are that date's |
| Calendar.DayNumberOrders | shared/src/dates.ts:37-52 | day numbers order dates as year, month and day do |
| Calendar.AddDaysExact | legacy/web/schedule-dates.ts:18-19 | adding days adds days exactly when the year is not 0 to 99, and otherwise overshoots by a century or more |
| Calendar.DayMoved | legacy/web/schedule-dates.ts:16-19 | a day of years 0 to 99 is moved by 693960 or 693961 days, any other by none |
| ScheduleDates.KeyParts | legacy/web/schedule-dates.ts:14-15 | a key is the year, a dash, two digits of the month, a dash and two digits of the day |
| ScheduleDates.KeyInjective | legacy/web/schedule-dates.ts:14-15 | no two days have the same key and none has the key of the unscheduled group |
| ScheduleDates.ParseDayExact | legacy/web/schedule-dates.ts:34-40 | a text parses to a day exactly when it is that day's key and the year has four digits, however the engine treats dates that do not exist |
| ScheduleDates.WeekExact | legacy/web/schedule-dates.ts:20-21 | a day lies in the seven days from its week's start, a `weekStart` day, exactly when its year is kept |
| ScheduleDates.SameWeek | legacy/web/schedule-dates.ts:20-21 | two days have one week start exactly when the one, as moved, lies in the other's seven days and both are moved alike up to whole weeks |
| ScheduleDates.WeekMoves | legacy/web/schedule-dates.ts:20-21 | a week starts on the last `weekStart` day, moved as far as its day is |
| ScheduleDates.GroupsNamed | legacy/web/schedule-dates.ts:97-130 | groups are named by the first of the month or by the week's start, and events without a readable start by "unscheduled" |
| ScheduleDates.FortnightExact | legacy/web/schedule-dates.ts:109-120 | a day lies in the fourteen days from its group's start exactly when its year and its week's are kept, with an anchor whose years are kept; for any other anchor the exact overrun is given too |
| ScheduleDates.FortnightsTile | legacy/web/schedule-dates.ts:112-120 | groups start whole fortnights before or after the anchor's, and two days share one exactly when the one is placed in the other's fourteen days |
| ScheduleDates.AnchorsAgree | legacy/web/schedule-dates.ts:112-120 | two anchors group a day, and so every day, alike exactly when they are placed whole fortnights apart |
| ScheduleDates.FortnightsKeepWeeks | legacy/web/schedule-dates.ts:110-120 | days of one week that are moved alike are never split over two fortnights; in a week whose start is kept, exactly the days that are not kept are split off |
| ScheduleDates.FortnightMissesYear100 | legacy/web/schedule-dates.ts:112-120 | an instance of the exception: 1 January of year 100 is grouped into a later year with every anchor |
| ScheduleDates.AddMonthsLands | legacy/web/schedule-dates.ts:22-33 | month addition lands in the month that many later, on the same day or that month's last |
| ScheduleDates.AddMonthsMonotone | legacy/web/schedule-dates.ts:22-33 | it orders any two days as the months counted from and the clipped days do, and so keeps their order unless the earlier alone is moved |
| ScheduleDates.AddMonthsAscends | legacy/web/schedule-dates.ts:22-33 | more months never land earlier |
| ScheduleDates.AddMonthsTwice | legacy/web/schedule-dates.ts:22-33 | two hops never land later than one, and in the same month, exactly when the stop's year is kept; and exactly when they land together |
| ScheduleDates.MatchesDays | legacy/web/schedule-dates.ts:82-90 | a dated preset accepts exactly the instants whose local day is within its bounds |
| ScheduleDates.TodayIsToday | legacy/web/schedule-dates.ts:50-53 | the first two presets accept exactly the present day, and it and the next, exactly when its year is kept |
| ScheduleDates.ThisWeekIsWeekGroup | legacy/web/schedule-dates.ts:54-57 | "This Week" accepts, of all events, exactly what the Week grouping puts with the present, exactly when the years of this week are kept |
| ScheduleDates.ThisMonthIsMonthGroup | legacy/web/schedule-dates.ts:62-66 | "This Month" accepts, of all events, exactly what the Month grouping puts with the present, exactly when the present is in none of the years 0 to 99 and 1900 to 1999 |
| ScheduleDates.NextWeekFollows | legacy/web/schedule-dates.ts:58-61 | "Next Week" accepts exactly the days whose week starts seven days after the present one, exactly when the years of both weeks are kept |
| ScheduleDates.WeeksAdjacent | legacy/web/schedule-dates.ts:54-61 | the two weeks always adjoin without sharing an event, and are seven days each exactly when their starts' years are kept; an undated event is in no dated preset |
| ScheduleDates.SixMonthsWithinTwelve | legacy/web/schedule-dates.ts:67-70 | whatever the six-month preset accepts, the twelve-month preset accepts |
| ScheduleDates.NextMonthsExact | legacy/web/schedule-dates.ts:67-70 | the two presets accept exactly the days from the present one up to the day six, or twelve, months later |
| ScheduleDates.MonthsLaterOnce | legacy/web/schedule-dates.ts:22-33 | there is exactly one day so many months later, clipped to its month |
| ScheduleDates.UnscheduledExact | legacy/web/schedule-dates.ts:82-90 | an event without a start is in "Unscheduled" alone, one with an unreadable start in no preset |
| ScheduleDates.CustomRangeDays | legacy/web/schedule-dates.ts:71-77 | from the two texts to the events shown: first and last day included, real four-digit-year dates only |
| MemberSchedule.PeriodExact | legacy/web/member-schedule.tsx:67-80 | the period is the anchor's month from first to last, the seven days from the last `weekStart` day, or the day |
| MemberSchedule.GridExact | legacy/web/member-schedule.tsx:97-104 | 42, 7 or 1 consecutive cells starting less than a week before the period, a month's on a `weekStart` day |
| MemberSchedule.CellsCoverPeriod | legacy/web/member-schedule.tsx:67-104 | the cells hold each day of the period exactly once, exactly when the grid's first year is kept |
| MemberSchedule.KeyOrder | legacy/web/member-schedule.tsx:33-34 | comparing day keys as text orders the days |
| MemberSchedule.CellExact | legacy/web/member-schedule.tsx:87-92 | a stored event is drawn on exactly the days on which it is on at some instant |
| MemberSchedule.RowsExact | legacy/web/member-schedule.tsx:81-96 | the list holds exactly the stored events that pass the filters set and are on at some instant of the period |
| MemberSchedule.ListsInOrder | legacy/web/member-schedule.tsx:81-96 | list and cells keep the given order and repetitions |
| MemberSchedule.RowsAgreeWithCells | legacy/web/member-schedule.tsx:87-104 | list and calendar agree on an event exactly unless its last day comes before its first and both reach into the period |
| MemberSchedule.RowsAreCells | legacy/web/member-schedule.tsx:87-104 | an event the server stores, without an end or ending after its start, is listed exactly when it is drawn in the period |
| MemberSchedule.EmptyEventOnlyListed | legacy/web/member-schedule.tsx:87-96 | why only stored events: one of no length at a midnight inside the month would be listed but drawn nowhere |
| MemberSchedule.ListIsCalendar | legacy/web/member-schedule.tsx:81-104 | with the filters, the list holds exactly what the period's cells hold together, for stored events |
| MemberSchedule.PeriodsTile | legacy/web/member-schedule.tsx:125-138 | the next period starts the day after this one ends, and the previous one ends the day before, each exactly when the years on the way are kept |
| MemberSchedule.ScheduleView.Shift | legacy/web/member-schedule.tsx:125-138 | moves the anchor as `Shifted` says and nothing else |
| MemberSchedule.ScheduleView.ClearFilters | legacy/web/member-schedule.tsx:178-182 | afterwards every event passes the filters |
| Age.AgeExact | shared/src/dates.ts:34-53 | the age is the unique number of years whose anniversary has come and whose next has not |
| Age.AgeMonotone | shared/src/dates.ts:34-53 | the age never falls as time passes and never rises with a later birth |
| Age.PlatformStaffCheck | scripts/create-platform-admin.ts:32-35 | the script accepts exactly those whom `ageOnDate` makes 18 on the UTC day |
| Age.AdultExact | shared/src/dates.ts:34-53 | at least 18 means that the eighteenth anniversary has come |
| Age.AdultFormulasAgree | legacy/web/forms.tsx:206-212 | the questionnaire decides as `ageOnDate`; the profile form does exactly unless a minor was born in year 0, and always from year 19 on |
| Age.AdultWithoutDates | legacy/web/forms.tsx:208-212 | without a birthdate the kind decides; the profile form takes a new person for a child and a person without a birthdate for an adult |
| Age.UtcDayExact | scripts/create-platform-admin.ts:32-35 | the UTC day of an instant is the one whose midnight has come and whose end has not, in days of 24 hours from 1970 |
| LocationLayout.LaidOutExact | legacy/web/location-layout.ts:10-19 | an event is laid out exactly when it is at the location and shares an instant with the day or, without an end, starts in it |
| LocationLayout.ClipBounds | legacy/web/location-layout.ts:20-36 | every card is at least 24 minutes or reaches midnight, and stays within the day, whatever the clock does |
| LocationLayout.ClipExact | legacy/web/location-layout.ts:20-36 | where every card starts and ends, for any clock: cut to the day, at least 24 minutes, and by the minutes that pass when the clock goes back |
| LocationLayout.ClipEven | legacy/web/location-layout.ts:20-36 | on an evenly running clock a card spans the clipped event, or 24 minutes if that is less |
| LocationLayout.FindFreeLane | legacy/web/location-layout.ts:45-46 | the first lane that has ended, or the next new one |
| LocationLayout.AssignLanes | legacy/web/location-layout.ts:43-50 | the in-place loop writes the first-fit lanes and changes nothing else |
| LocationLayout.LayoutLocationDay | legacy/web/location-layout.ts:3-51 | the whole function computes `Layout` and `LaneCount` |
| LocationLayout.LayoutOrder | legacy/web/location-layout.ts:37-42 | cards come by start, then the taller, then by id |
| LocationLayout.LayoutContents | legacy/web/location-layout.ts:10-36 | each event that takes place at the location on the day is in the layout as often as it is given, no other is, and each interval is its event clipped |
| LocationLayout.FirstFitExact | legacy/web/location-layout.ts:43-50 | a card is in the first lane whose earlier cards have all ended: every lane before it holds one that has not |
| LocationLayout.LanesOptimal | legacy/web/location-layout.ts:43-50 | for sorted intervals the lane count is the greatest number at one instant and no valid assignment has fewer lanes |
| LocationLayout.LayoutOptimal | legacy/web/location-layout.ts:37-51 | the same for the layout of any events: no overlap in a lane, exact and optimal lane count |
| LocationLayout.LayoutDeterministic | legacy/web/location-layout.ts:37-50 | with ids the collation tells apart, any order of the events gives the same layout |
| LocationLayout.CardExact | legacy/web/location-schedule.tsx:159-168 | time runs down from a card's start to its end, and the lanes lie side by side from the left edge to the right |
| LocationLayout.CardsFit | legacy/web/location-schedule.tsx:154-168 | every card is within 0..100% and 0..1440 minutes with positive size |
| LocationLayout.CardsNeverCollide | legacy/web/location-schedule.tsx:159-168 | any two cards of a column are disjoint rectangles |
| Csv.GuardExact | legacy/web/api.ts:46-47 | the guard catches exactly a tab, CR or LF in front and `=`, `+`, `@` or `-` behind white space, and puts an apostrophe before such cells only |
| Csv.SpaceExact | legacy/web/api.ts:47 | white space is that of ECMAScript, by code point |
| Csv.GuardIdempotent | legacy/web/api.ts:45-47 | a guarded cell never matches the guard, so guarding twice changes nothing |
| Csv.GuardCollisions | legacy/web/api.ts:45-47 | exactly which two cells become one under the guard |
| Csv.ReadBareText | legacy/web/api.ts:53 | the reader also takes the unquoted fields of RFC 4180, section 2 |
| Csv.CsvRoundTrip | legacy/web/api.ts:45-55 | a reader of RFC 4180 section 2 gets back exactly the guarded cells of any table of nonempty rows |
| Csv.ExportsNoFormula | legacy/web/api.ts:45-55 | no cell read from an export starts with a tab, CR or LF, or with `=`, `+`, `@` or `-` behind white space |
| Csv.CsvTextInjective | legacy/web/api.ts:45-55 | two tables export alike exactly when their guarded cells are the same |
| RegistrationTransfer.TransferDialog.Submit | legacy/web/registration-transfer.tsx:22-35 | sends the reviewed confirmation again or a preview under a new key, and nothing while busy or not ready |
| RegistrationTransfer.TransferDialog.OnPreview | legacy/web/registration-transfer.tsx:33-34 | a preview's outcome is reviewed together with the payload that was sent |
| RegistrationTransfer.TransferDialog.OnSubmitError | legacy/web/registration-transfer.tsx:36-40 | only the not-saved flag ends the attempt and resets the form |
| RegistrationTransfer.TransferDialog.Check | legacy/web/registration-transfer.tsx:46-49 | asks for the result of the key under review |
| RegistrationTransfer.TransferDialog.OnChecked | legacy/web/registration-transfer.tsx:49-53 | a completed result finishes, any other keeps the attempt |
| RegistrationTransfer.TransferDialog.EditDetails | legacy/web/registration-transfer.tsx:73 | drops the review and nothing else |
| RegistrationTransfer.TransferDialog.Refresh | legacy/web/registration-transfer.tsx:45 | drops the review and the answers before any attempt |
| RegistrationTransfer.ControlsExact | legacy/web/registration-transfer.tsx:22-75 | no control works while a request is under way, and an attempt can only be confirmed again, checked or closed |
| RegistrationTransfer.OverIsOver | legacy/web/registration-transfer.tsx:21-29 | a closed or finished dialog sends nothing more |
| RegistrationTransfer.OneBodyPerKey | legacy/web/registration-transfer.tsx:26-34 | in every run all requests under one key are the same, so the server never finds a key used with other details |
| RegistrationTransfer.OnlyTheSameRequest | legacy/web/registration-transfer.tsx:22-54 | while an attempt is uncertain, only the reviewed payload and key can be sent |
| RegistrationTransfer.ConfirmsTheForm | legacy/web/registration-transfer.tsx:30-34 | what is reviewed and confirmed is what the form holds |
| RegistrationTransfer.StartsOver | legacy/web/registration-transfer.tsx:37-39 | after "not saved" nothing can be sent until the answers are given again in a questionnaire mounted anew; the rest of the form stays |
| RegistrationTransfer.AttemptEnds | legacy/web/registration-transfer.tsx:36-40 | only the server's "not saved" for the reviewed request ends an attempt |
| RegistrationTransfer.DoneMeansCommitted | legacy/web/registration-transfer.tsx:27-29 | success means the server holds the reviewed payload with the reviewed outcome |
| RegistrationTransfer.UncertainCanBeSettled | legacy/web/registration-transfer.tsx:46-54 | if the transfer committed, checking its result can always report success |
| RegistrationTransfer.AtMostOneTransfer | legacy/web/registration-transfer.tsx:22-54 | with a server whose rule never commits two, a dialog commits at most one transfer in every run |
| RegistrationTransfer.AtMostOneExactly | legacy/server/registration-lifecycle.mjs:33-65 | for any rule of a server, that holds in all runs exactly when the rule does not commit a key after another that either was refused before |
| RegistrationTransfer.NotSavedStandsExactly | legacy/server/registration-lifecycle.mjs:61-64 | for any rule of a server, "not saved" stands in all runs exactly when the rule never goes back on a refusal |
| RegistrationTransfer.ServersJudged | legacy/server/registration-lifecycle.mjs:33-65 | the repository's server commits at most one but can go back on "not saved"; one that remembers refusals does neither, a forgetful one both |
| PublicStore.StorePage.OpenReview | legacy/web/public-store.tsx:335-396 | opens the review with nobody chosen, nothing to ship and no quote |
| PublicStore.StorePage.ChoosePerson | legacy/web/public-store.tsx:480-484 | changes the person, drops the quote and takes a new key |
| PublicStore.StorePage.ToggleShipping | legacy/web/public-store.tsx:506-510 | changes shipping, drops the quote and takes a new key |
| PublicStore.StorePage.EditAddress | legacy/web/public-store.tsx:558-561 | changes the address and the key and keeps the quote |
| PublicStore.StorePage.Submit | legacy/web/public-store.tsx:413-466 | asks for a quote, or records the order and then sends it; a storage failure sends nothing |
| PublicStore.StorePage.OnQuote | legacy/web/public-store.tsx:450-472 | a quote reaches only the form that asked for it |
| PublicStore.StorePage.OnPlaced | legacy/web/public-store.tsx:110-121 | a receipt empties the cart and removes the record unless storage fails |
| PublicStore.StorePage.Continue | legacy/web/public-store.tsx:676-681 | starts a recovery attempt and withdraws the discard button |
| PublicStore.StorePage.OnRecoverEnd | legacy/web/public-store.tsx:700-710 | only the attempt's own screen is released |
| PublicStore.StorePage.Discard | legacy/web/public-store.tsx:128-131 | removes the record and leaves recovery, or does nothing when storage refuses |
| PublicStore.RecordedBeforePosted | legacy/web/public-store.tsx:433-446 | every checkout sent was in session storage before it was sent |
| PublicStore.OneFreshBodyPerKey | legacy/web/public-store.tsx:420-448 | all checkouts under one key are identical, and the digest belongs to their person, lines and shipping |
| PublicStore.ControlsExact | legacy/web/public-store.tsx:122-140 | cart and review work only outside recovery and while nothing is under way; a quote needs a member, an order a quote, a discard a rejection |
| PublicStore.ReloadRecovers | legacy/web/public-store.tsx:38-52 | the page can be reloaded at any moment, and a stored record is then up for recovery, which can start at once |
| PublicStore.OrderIsTheCart | legacy/web/public-store.tsx:418-438 | the order recorded has one line per cart line, in order, with its product, variant and quantity, shipped exactly when ticked |
| PublicStore.ShippingAsChosen | legacy/web/public-store.tsx:500-512 | from ticking or unticking a product's shipping to ordering it, the order asks as last chosen |
| PublicStore.QuoteFreshWhenOrdered | legacy/web/public-store.tsx:305-315 | the order recorded is the form and cart on the screen with the quote computed for them |
| PublicStore.OrdersAndReceipts | legacy/web/public-store.tsx:676-706 | an order stands under its own key with the body sent, and receipts are shown only for orders |
| PublicStore.OrdersStand | legacy/server/member-store.mjs:131-145 | from any state of a run to any later one, the order under a key stays the same |
| PublicStore.RecordKeptStep | legacy/web/public-store.tsx:110-133 | a step of the page as it is fails to keep a record exactly when another checkout's receipt or order displaces it while its own is open |
| PublicStore.RecordsKeptInRun | legacy/web/public-store.tsx:110-133 | a run of the page as it is keeps its records exactly when it has no such step |
| PublicStore.NeverLostInRun | legacy/web/public-store.tsx:676-711 | a run loses no order exactly when no step displaces or discards the record of one, or accepts one that is recorded no more |
| PublicStore.PatientBuyerLosesNothing | legacy/web/public-store.tsx:676-681 | a run of the page as it is keeps its records when the buyer never continues while a submission waits, and loses no order if rejections stand |
| PublicStore.RecordsKeptWhenGuarded | legacy/web/public-store.tsx:110-133 | when recovery waits for the submission, a record leaves only on its own receipt or a definitive rejection |
| PublicStore.NeverLostWhenGuarded | legacy/web/public-store.tsx:676-711 | if the server also stands by rejections, every order is acknowledged or recoverable, through crashes and lost replies |
| PublicStore.StaleRecovery | legacy/web/public-store.tsx:676-688 | a run in which an old recovery removes the record of a newer order |
| PublicStore.LateAcceptance | legacy/server/member-store.mjs:131-154 | a run in which a rejected and discarded checkout becomes an order |
| PublicStore.RecordsKeptExactly | legacy/web/public-store.tsx:122-133 | records are kept in all runs exactly when recovery waits for the submission |
| PublicStore.NeverLostExactly | legacy/web/public-store.tsx:676-711 | no order is lost in any run exactly under both conditions |
| ExampleSchema.FirstChoices | scripts/openapi.ts:585-591 | constants, enumerations and unions come first and give their only or first value |
| ExampleSchema.NumberExample | scripts/openapi.ts:614-622 | a number is the minimum, else one above the exclusive minimum, else one; an integer the least from there |
| ExampleSchema.TextExample | scripts/openapi.ts:632-634 | a text without a known format is the letter x as often as its least length asks, and at least once |
| ExampleSchema.FormatsExact | scripts/openapi.ts:624-631 | the formats known and their texts; those of `uuid`, `email` and the dates have the format |
| ExampleSchema.ArrayExample | scripts/openapi.ts:609-613 | an array has its least number of items, each the example of the items' schema |
| ExampleSchema.ObjectExample | scripts/openapi.ts:593-607 | an object has exactly the declared and required properties, each with its schema's example |
| ExampleSchema.ExampleExactly | scripts/openapi.ts:582-637 | for every schema, the example is valid exactly when the schema fits, which without unions is told from the schema alone |
| ExampleSchema.UnionFits | scripts/openapi.ts:587-591 | a union alone fits when its first variant does, for `oneOf` if the variants are disjoint |
| ExampleSchema.NumberSatisfiable | scripts/openapi.ts:614-622 | a number schema whose lower bound the generator hits has a valid example exactly when it has any valid value |
| ExampleSchema.ExamplesRefused | scripts/openapi.ts:612-636 | satisfiable schemas that do not fit: null, a narrow open range, the empty text |
| ExampleSchema.LuckyUnion | scripts/openapi.ts:587-591 | a union whose example is invalid for the first variant and valid for the union: why unions depend on the other variants |
| LoadSeed.CountsAddUp | db/seeds/demo.ts:82-104 | the counts of all programs add up to the total, for any constants that divide as required |
| LoadSeed.CountsExact | db/seeds/demo.ts:82-104 | counts exist exactly within range, families are spread evenly, and earlier programs never get fewer |
| LoadSeed.CountsDifferByOne | db/seeds/demo.ts:98-103 | outside the first organization counts differ by at most one |
| LoadSeed.EachPersonOnce | db/seeds/demo.ts:2338-2399 | in the first organization every person has a registration, the one `SeatOf` names |
| LoadSeed.EachSeatOnce | db/seeds/demo.ts:2338-2399 | and no person has two |
| LoadSeed.InjectiveExactly | db/seeds/demo.ts:2394-2399 | a program of any size registers different people exactly when there are enough and those past the base number fall between the base ones, counted round |
| LoadSeed.LoadTotal | db/seeds/demo.ts:73-80 | with the file's constants the rows add up to 400000 |
| LoadSeed.PeopleTotal | db/seeds/demo.ts:1830 | the load's organizations hold 150000 people |
| LoadSeed.FirstOrganization | db/seeds/demo.ts:2338-2399 | the first organization's programs take a thousand people each in turn, then four thousand more each |
| LoadSeed.LoadIsInjective | db/seeds/demo.ts:1814-1829 | with the file's constants no program registers a person twice |
| Installments.TotalsAgree | legacy/web/invoice-installments.tsx:117-143 | editor and converter show the same total: amounts, own fees and plan fees |
| Installments.FixedFees | legacy/web/payment-plans.tsx:50-61 | a fixed fee is charged once for each instalment |
| Installments.PreviewExact | legacy/web/invoice-installments.tsx:117-138 | planned instalments are numbered from 1 and unpaid, and owe the amount and both fees |
| Installments.FeeRounding | legacy/web/payment-plans.tsx:50-61 | rounded percentage fees differ from the exact fee on the sum by at most half a cent an instalment |
| Installments.FeeRoundingReached | legacy/web/payment-plans.tsx:50-61 | that bound is reached for every number of instalments |
| DataTable.OrderedExact | legacy/web/components.tsx:250-263 | the rows shown are the given ones by group, ascending, and then by the column in its direction; as they are without either |
| DataTable.GroupsKeepOrder | legacy/web/components.tsx:262-263 | without a sorted column the rows of a group stay in order |
| DataTable.GroupedOrder | legacy/web/components.tsx:250-263 | the two sorts are one stable sort by group, then column, ties in the given order |
| DataTable.PagesPartition | legacy/web/components.tsx:264-268 | the pages show every row once and in order; a page past the end shows the last |
| DataTable.OneHeadingPerGroup | legacy/web/components.tsx:298-300 | on a page each row's group has exactly one heading, not below the row |
| DataTable.TurnedRound | legacy/web/components.tsx:250-284 | the other direction shows the rows in reverse when the column tells them apart, and leaves rows that tie as they were |
| DataTable.TableState.Next | legacy/web/components.tsx:341-345 | the rows shown follow on those shown before, a full page, and are never none |
| DataTable.TableState.Previous | legacy/web/components.tsx:330-334 | the rows shown, a full page, come right before those shown before |
| DataTable.TableState.Resize | legacy/web/components.tsx:352-356 | the first rows are shown, as many as the new size lets |
| StableSort.TwoPasses | legacy/web/components.tsx:262-263 | a stable sort after another is one sort by both orders |
| StableSort.SortUnique | legacy/web/location-layout.ts:37-42 | a sorted arrangement that keeps ties in order is the only one |

## Left out

- Rendering, routing, modals, styles and focus: only state and layout arithmetic are modelled.
- Time-zone data: a zone is any function with the property stated above; `toOrgDate`, `orgToday`, `startOfOrgDay` and `orgLocalToInstant` are not part of this model.
- Group labels and other locale text; `localeCompare` is a ranking of texts by whole numbers.
- Days outside the range of `Date` (about 270000 years either way), where the constructor gives an invalid date.
- MemberSchedule.KeyOrder: asks for years 1000 to 9999, because in other years the two kinds of key compared, an ISO text cut after ten characters and a text of the locale, have different forms.
- MemberSchedule.RowsAgreeWithCells: asks the same of the days it compares.
- MemberSchedule.RowsAreCells: asks the same.
- MemberSchedule.ListIsCalendar: asks the same.
- RegistrationTransfer.AtMostOneExactly: is about one dialog; a user who closes an uncertain dialog and opens another relies on the server's canceled source.
- The transfer form's loads: whether programs, teams and the source are loaded and the reason is filled is one flag of the environment, and the questionnaire reports no answers while a request is under way.
- The store's catalog, subtotals and quantities, the 100-line limit when a cart is restored (a reload may restore any cart), and sign-in as another member during recovery.
- Session storage ends with the tab: runs are reloads of one tab.
- Schema keywords the generator does not read, except the upper bounds and closed objects; `$ref`, patterns and lists of types; formats are not asserted.
- Floating-point cents: money is whole cents, and products stay exact.
- The seed's SQL, `insertChunks` and the jersey numbers: they would only add easy members.
- `useData`, the location picker, roles of the route classifiers in `scripts/openapi.ts`, and the questionnaire's field filter.
- The servers' pricing, inventory and permission checks: they are the server's free choice to accept or refuse.

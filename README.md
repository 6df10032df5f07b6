# Ticket queue rules of the TURNORD panels

TURNORD is a browser client for a hosted database that hands out numbered tickets
("turnos") to the customers of a small business and lets the staff serve them in order.
Two panel scripts carry the ticket rules:

- the customer panel (`usuario/usuario.js`) gives out codes made of the day's letter and a
  running number. It formats dates and times, converts `HH:MM` to minutes, and decides
  whether a date is an operating day. It also reports the customer's position in the
  waiting list, caches the business configuration and the service catalog, and lets a
  customer cancel their ticket;
- the staff panel (`admin/turno.js`) attends the next waiting ticket with a
  compare-and-set update and keeps its own configuration and catalog caches. It orders the
  waiting list, shows minute counters clamped at zero, and coalesces bursts of change
  notifications into one pending refresh.

The model treats every query result as an input: a datatype with a failure variant. Store
updates become functions on the ticket table, a `seq<Ticket>`. The module-level state of
each panel is a class: `UserPanel.UserSession` and `AdminPanel.AdminSession`. Its methods
update the fields the scripts reassign.

Modules:

| module | file | content |
|---|---|---|
| `Wrappers` | wrappers.dfy | `Option`, `Result` |
| `JsText` | js_text.dfy | `String(n)`, `padStart(2, '0')`, `Number`, `parseInt(_, 10)`, `split(':')` on digit strings |
| `JsArray` | js_array.dfy | `findIndex`, `includes` |
| `DateTime` | date_time.dfy | date and time strings, `hhmmToMinutes` |
| `DayLetter` | day_letter.dfy | day count and letter of the day |
| `TicketCode` | ticket_code.dfy | next ticket code |
| `OperatingDay` | operating_day.dfy | weekday-name check |
| `QueuePosition` | queue_position.dfy | position in the waiting list |
| `Catalog` | catalog.dfy | service catalog rebuild |
| `Tickets` | tickets.dfy | ticket table, attend and cancel updates, waiting-list order |
| `UserPanel` | user_panel.dfy | customer panel state |
| `AdminPanel` | admin_panel.dfy | staff panel state, minute counters, refresh coalescing |

Behaviour of the code worth noting:

- the customer's position is computed over every waiting ticket, oldest first, with no
  date filter and no manual order (`usuario/usuario.js:240-244`);
- the cancel update has no state guard, so it also cancels served tickets with the same
  code and phone (`usuario/usuario.js:299-303`);
- the staff panel's built-in operating days are weekday numbers
  (`admin/turno.js:15`), while the customer panel reads the same column as weekday names
  (`usuario/usuario.js:171-173`), so a list of numbers opens no day there;
- two-digit padding never truncates, so the hundredth code of a day has three digits.

## Model

| member | source | states |
|---|---|---|
| `DayLetter.JsRem` | usuario/usuario.js:189 | JavaScript's `%`: dividend = divisor × truncated quotient + remainder, the remainder is smaller than the divisor in magnitude and takes the dividend's sign |
| `DayLetter.DaysSince` | usuario/usuario.js:188 | the whole days between the base and the instant, rounded down: days × msPerDay ≤ now − base < (days + 1) × msPerDay |
| `DayLetter.LetterIndex` | usuario/usuario.js:189 | the guarded index lies in [0, 25] for every day count, negative ones included |
| `DayLetter.LetterOfDay` | usuario/usuario.js:190 | the letter is between 'A' and 'Z' |
| `DayLetter.LetterOfInstant` | usuario/usuario.js:185-191 | the letter of an instant is between 'A' and 'Z' |
| `DayLetter.LetterIndexIsModulo` | usuario/usuario.js:189 | the double remainder equals the mathematical remainder mod 26 |
| `DayLetter.LetterOfDayOffset` | usuario/usuario.js:189-190 | the letter is 'A' plus the day count mod 26 |
| `DayLetter.LetterPeriod` | usuario/usuario.js:185-191 | two day counts get the same letter exactly when they differ by a multiple of 26 |
| `DayLetter.LetterExamples` | usuario/usuario.js:187-190 | day 0 is A, day 1 B, day 25 Z, day 26 A again, day −1 Z |
| `TicketCode.NextCode` | usuario/usuario.js:207-211 | the next code is at least three characters long and starts with the day's letter |
| `TicketCode.GenerateCode` | usuario/usuario.js:194-211 | the code's letter is 'A' plus the days since 2024-08-23 mod 26 |
| `TicketCode.NextCodeWithoutPrevious` | usuario/usuario.js:207 | a failed lookup, no data or no rows give `<L>01`, whose number is 1 |
| `TicketCode.NextCodeAfterEmptyCode` | usuario/usuario.js:209 | an empty or null stored code counts as `<L>00`, so the next code is `<L>01` |
| `TicketCode.NextCodeIncrements` | usuario/usuario.js:209-211 | after `<c><digits of n>` the next code is the letter and n + 1 padded to two digits; parsing its number gives n + 1; it has three characters exactly when n + 1 < 100 |
| `TicketCode.NextAfterStored` | usuario/usuario.js:209-211 | the number of the next code is the stored code's number plus one |
| `TicketCode.NthCode` | usuario/usuario.js:207-211 | the n-th code of a day is the letter followed by the digits of n, so a day's codes never repeat |
| `TicketCode.PaddedCodeParsesBack` | usuario/usuario.js:210-211 | the letter followed by the padded number reads back as that number, in three characters exactly when it is below 100 |
| `JsText.NatToString` | usuario/usuario.js:54 | `String(n)` is a non-empty digit string without leading zeros that reads back as n |
| `JsText.NatToStringLength` | usuario/usuario.js:53 | `String(n)` has at most k digits exactly when n < 10^k |
| `JsText.PadStart2` | usuario/usuario.js:54-55 | `padStart(2, '0')` keeps the string as a suffix, adds only zeros in front, and gives at least two characters |
| `JsText.Pad2` | usuario/usuario.js:54-55 | the padded number is a digit string of at least two characters that reads back as n; it has exactly two when n < 100 |
| `JsText.ParseIntDigits` | usuario/usuario.js:210 | `parseInt` of digits followed by a non-digit gives the value of the digits |
| `JsText.NumberOf` | usuario/usuario.js:73 | `Number` on text: a number exactly for digit strings, the empty one giving 0, and then their decimal value; NaN for any other text. `Pad2` and `FormatTime` build strings it reads back |
| `JsText.ParseInt` | usuario/usuario.js:210 | `parseInt(_, 10)`: NaN exactly when the text does not start with a digit, otherwise the value of its leading digits; `ParseIntDigits` gives its value on a digit suffix |
| `JsText.SplitColon` | usuario/usuario.js:73 | `split(':')` gives at least one piece, and no piece contains ':' |
| `JsText.SplitThenJoin` | usuario/usuario.js:73 | joining the pieces with ':' gives the string back |
| `JsText.SplitWithoutColon` | usuario/usuario.js:73 | a string without ':' splits into itself alone |
| `JsText.SplitAroundColon` | usuario/usuario.js:73 | two colon-free strings joined by ':' split back into the two |
| `DateTime.FormatDate` | usuario/usuario.js:51-57 | `YYYY-MM-DD`: dashes in place, and year, month (0-based index + 1) and day each read back from their slice; ten characters exactly for four-digit years |
| `DateTime.FormatTime` | usuario/usuario.js:59-64 | `HH:MM`: five characters, a colon in the middle, and hours and minutes read back from their two-digit slices |
| `DateTime.HhmmToMinutes` | usuario/usuario.js:72-75 | `hhmmToMinutes`: split on ':' and combine the first two pieces as h × 60 + m, never negative; `HhmmToMinutesOfDigits`, `HhmmToMinutesWithoutColon` and `TimeToMinutesRoundTrip` give its value |
| `DateTime.MinutesOfPieces` | usuario/usuario.js:73-74 | a number exactly when the first two pieces are digit strings, then h × 60 + m; a third piece (as in `09:30:00`) is ignored |
| `DateTime.HhmmToMinutesOfDigits` | usuario/usuario.js:72-75 | two digit strings around ':' convert to h × 60 + m, which lies in [0, 1440) for h < 24 and m < 60 |
| `DateTime.HhmmToMinutesWithoutColon` | usuario/usuario.js:73-74 | text without ':' has no minutes piece and converts to NaN |
| `DateTime.TimeToMinutesRoundTrip` | usuario/usuario.js:59-75 | converting the panel's own time string gives back the minute of the day |
| `OperatingDay.IsOperatingDay` | usuario/usuario.js:165-178 | open exactly when the weekday's name (0 = Domingo) is in the configured list; a value whose membership test throws is let through |
| `OperatingDay.ClosedWithoutDays` | usuario/usuario.js:167-169 | a missing or empty list closes every day |
| `OperatingDay.DefaultWeek` | usuario/usuario.js:15 | the built-in list opens Monday to Saturday and closes Sunday |
| `OperatingDay.NumberedDaysCloseEveryDay` | usuario/usuario.js:171-173 | a list of weekday numbers holds no weekday name, so every day is closed |
| `JsArray.FindIndex` | usuario/usuario.js:248 | the index of the first match, or −1 exactly when the value is absent |
| `JsArray.Includes` | usuario/usuario.js:173 | true exactly when the value is in the list |
| `QueuePosition.PositionInQueue` | usuario/usuario.js:238-250 | the first index holding the code, −1 exactly when absent, and 0 when the query fails or returns no data |
| `QueuePosition.PositionCountsAhead` | usuario/usuario.js:248 | with unique codes the position is the number of tickets ahead |
| `QueuePosition.FailureLooksLikeHead` | usuario/usuario.js:246 | a failed query gives the same answer as being at the head of the queue |
| `QueuePosition.PositionExample` | usuario/usuario.js:248-249 | in A01, A03, A02 the code A03 is at 1 and A04 at −1 |
| `Catalog.CatalogKeys` | usuario/usuario.js:37-38 | the rebuilt catalog has exactly the names of the returned rows |
| `Catalog.CatalogLastWins` | usuario/usuario.js:38 | each name maps to the minutes of its last row |
| `Catalog.CatalogOf` | usuario/usuario.js:37-38 | the catalog that assigning the rows in order gives, with at most one entry per row; `CatalogKeys` and `CatalogLastWins` give its keys and values |
| `Catalog.BuildCatalog` | admin/turno.js:99-100 | the loop over the rows builds the catalog the fold specifies |
| `Catalog.ReloadedCatalog` | admin/turno.js:98-100 | a failed query keeps the catalog; a successful one holds at most one entry per returned row, none for null data; `ReloadKeepsOrReplaces` gives its keys |
| `Catalog.ReloadKeepsOrReplaces` | admin/turno.js:98-100 | a failed load keeps the previous catalog; a successful one forgets it and holds the rows only (none for null data) |
| `Tickets.AttendRows` | admin/turno.js:230-234 | the table after the conditioned "attend now" update, row for row; `AttendRowEffect` gives each row and `FirstAttendWins` the effect of repeated attempts |
| `Tickets.AttendRowEffect` | admin/turno.js:230-234 | the row with this id in state `En espera` becomes `En atención` with the start instant; every other row is unchanged |
| `Tickets.AttendWithoutMatchIsNoOp` | admin/turno.js:233-234 | when no row matches, the table is unchanged |
| `Tickets.AttendLeavesNoMatch` | admin/turno.js:233-234 | after the update no row matches the condition any more |
| `Tickets.SecondAttendIsNoOp` | admin/turno.js:233-234 | attending the same ticket again changes nothing |
| `Tickets.NoIdNoMatch` | admin/turno.js:233 | a table without the id is not touched |
| `Tickets.AttendAffectsAtMostOne` | admin/turno.js:233 | with unique ids at most one row changes, and exactly one when a waiting row has the id |
| `Tickets.FirstAttendWins` | admin/turno.js:230-234 | of several attempts on one ticket only the first changes the table; with unique ids and the ticket waiting, exactly one attempt succeeds |
| `Tickets.LaterAttendsChangeNothing` | admin/turno.js:233-234 | attempts after the ticket has left `En espera` change nothing and succeed on no row |
| `Tickets.AttendKeepsStartStamps` | admin/turno.js:232 | every ticket in service has a start instant, before and after the update |
| `Tickets.CancelRows` | usuario/usuario.js:299-303 | the table after the cancel update, row for row; `CancelRowEffect` gives each row |
| `Tickets.CancelRowEffect` | usuario/usuario.js:299-303 | every row with this code and phone becomes `Cancelado`, whatever its state; every other row is unchanged |
| `Tickets.CancelIsBlind` | usuario/usuario.js:301-303 | a served ticket of an earlier day with the same code and phone is cancelled along with today's |
| `Tickets.CancelWithoutPhoneIsNoOp` | usuario/usuario.js:303 | without a phone no row matches |
| `Tickets.InsertInQueue` | admin/turno.js:128-129 | insertion keeps the list ordered by `orden`, then `created_at`, and adds exactly the one ticket |
| `Tickets.SortQueue` | admin/turno.js:128-129 | the ordered list is a permutation of its input, sorted by `orden` then `created_at` |
| `Tickets.WaitingOn` | admin/turno.js:123-127 | the rows the waiting-list query selects: each is waiting and dated today, and there are no more than the table holds; `WaitingOnMembers` and `WaitingOnCounts` give exactly which |
| `Tickets.WaitingOnMembers` | admin/turno.js:126-127 | a ticket is selected exactly when it is waiting and dated today |
| `Tickets.WaitingOnCounts` | admin/turno.js:126-127 | each of today's waiting tickets is selected as often as it occurs in the table, and no other ticket is selected |
| `Tickets.WaitingQueue` | admin/turno.js:123-129 | the waiting list: the selection sorted by `orden` then `created_at`, as a permutation; `WaitingQueueIsOrderedSelection` ties it to the table |
| `Tickets.WaitingQueueIsOrderedSelection` | admin/turno.js:123-129 | the waiting list is sorted by `orden` then `created_at` and holds exactly today's waiting tickets, each as often as in the table |
| `UserPanel.MergeConfig` | usuario/usuario.js:88-90 | every column the row carries overrides the cache; every other field keeps its cached value |
| `UserPanel.MergeProperties` | usuario/usuario.js:89 | merging twice is merging once; a full row decides the configuration whatever was cached; an empty row changes nothing |
| `UserPanel.UserSession.constructor` | usuario/usuario.js:6-16 | no assigned code, the stored phone (an empty one becomes null), the built-in configuration and an empty catalog |
| `UserPanel.UserSession.LoadActiveServices` | usuario/usuario.js:26-48 | the catalog is replaced by the returned rows on success and kept on failure |
| `UserPanel.UserSession.LoadConfig` | usuario/usuario.js:78-92 | a failure is raised with its message and keeps the cache; a returned row is merged over the cache and handed back |
| `UserPanel.UserSession.IsOperatingDayOn` | usuario/usuario.js:165-173 | the operating-day answer for the cached configuration |
| `UserPanel.UserSession.CheckActiveTicket` | usuario/usuario.js:214-236 | the phone is re-read; active exactly when there is a phone and the query returns a waiting ticket, whose newest code becomes the assigned one |
| `UserPanel.UserSession.CancelTicket` | usuario/usuario.js:297-305 | the table after the cancel update for this code and the session's phone |
| `AdminPanel.ElapsedMinutes` | admin/turno.js:44 | the whole minutes elapsed, rounded down, and 0 exactly when less than a minute has passed or the start is in the future |
| `AdminPanel.ElapsedMinutesMonotone` | admin/turno.js:44 | the counters never run backwards as time passes |
| `AdminPanel.WaitingMinutes` | admin/turno.js:41-46 | each counter with a creation instant shows the minutes elapsed since it; the others are left alone |
| `AdminPanel.SingleFlight` | admin/turno.js:21-27 | timers scheduled, plus one if a timer was already pending, equal reloads run plus one if a timer is still pending |
| `AdminPanel.BurstSchedulesOne` | admin/turno.js:22-23 | a burst of requests schedules exactly one timer when none is pending and none when one is |
| `AdminPanel.AdminSession.constructor` | admin/turno.js:5-16 | no current ticket, an empty catalog, the built-in configuration and no pending timer |
| `AdminPanel.AdminSession.LoadConfig` | admin/turno.js:73-89 | a returned row replaces the configuration whole; a failure keeps it and warns; no row keeps it silently |
| `AdminPanel.AdminSession.LoadServices` | admin/turno.js:91-110 | the catalog is replaced by the returned rows on success and kept on failure |
| `AdminPanel.AdminSession.RequestRefresh` | admin/turno.js:21-24 | a timer is scheduled exactly when none was pending, and afterwards one is pending |
| `AdminPanel.AdminSession.RefreshTimerFires` | admin/turno.js:23-25 | the pending flag is cleared; when the list queries answer, the waiting-list query returns today's waiting tickets sorted by `orden` then `created_at`, each as often as in the table; when either fails nothing is returned |
| `AdminPanel.AdminSession.OnConfigChanged` | admin/turno.js:215-218 | the configuration is reloaded, then a refresh is requested |
| `AdminPanel.AdminSession.AttendNow` | admin/turno.js:224-242 | with no current ticket nothing changes; a store error is reported and changes nothing; otherwise the compare-and-set runs and success is announced, even when no row matched |

## Left out

- Queries, inserts, realtime subscriptions, DOM rendering, notifications and browser storage
  are not modelled. Query results and the stored phone are inputs; the ticket table is a
  value passed to and returned by the updates.
- Clocks and timers are not modelled. Instants are integer milliseconds given as
  parameters, and the debounce keeps only its pending flag; the 350 ms delay and the
  30-second counter interval are not modelled.
- Timezones are not modelled. The day letter counts days from 2024-08-23 at midnight UTC
  over the instant given. The date string takes its calendar fields (year, 0-based month,
  day) as parameters. Negative years are not modelled.
- `Number` and `parseInt` are modelled on digit strings only. A piece of `HH:MM` that is
  not all digits converts to NaN, so whitespace, signs, decimals, exponents and hex forms
  are not modelled; `parseInt` reads the leading digits.
- Null values in the configuration's hour and limit columns are not modelled; a `None`
  column is a column the row does not carry. An operating-days value that is a non-empty
  string (whose `includes` tests substrings) is not modelled. Falsy values (null, 0,
  false, "") close every day like a missing list; other truthy values without `includes`
  throw, and the error handler opens the day.
- A missing phone is modelled as matching no row in the cancel update.
- How the staff panel sets the ticket next in line, the in-service list, the statistics
  and the chart are not modelled; their code is elided in the source.
- The estimated waiting time and the daily ticket limit are not modelled; their bodies
  are elided in the source.
- The break check is a constant stub, and the hardcoded public business id is an insert
  detail; neither is modelled.
- Ticket creation forms and the confirmation screen are not modelled; their code is
  elided in the source.
- admin/login.js and auth-guard.js (sign-in and redirects) are not part of this model.
- `AdminPanel.AdminSession.RefreshTimerFires`: returns the waiting list the query gives
  and does not model the `dataRender` cache. The code that would assign that cache is
  elided in the source. The list is `WaitingQueue`, which places tickets equal in both
  `orden` and `created_at` in table order; the store leaves the order of such ties
  unspecified; only the sortedness and multiset clauses of its ensures hold for every
  tie order.
- `TicketCode.NextCode`, `JsText.Pad2`, `JsText.ParseInt`, `JsText.NatToString`: numbers
  are unbounded naturals. JavaScript numbers are doubles, so a suffix too long for exact
  integer precision parses to a rounded value, and `String(n)` switches to exponent form
  from 1e21. Neither is modelled.

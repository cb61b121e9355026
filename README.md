# Flight-alert scheduler, modelled in Dafny

This project models `src/lib/flightScheduler.ts`. That file is a background job that
re-checks saved flight-price alerts and mails their owners when cheap flights turn up.
It has two parts, one module each:

- `Scheduler` (`scheduler.dfy`) models the job controller. `FlightScheduler` is a class
  with the process-wide `running` flag and a ghost sequence of the cron expressions
  registered with the cron library. `Start` registers the two cadences `*/30 * * * *`
  and `0 */2 * * *` and raises the flag. A second `Start` does nothing. `Stop` only
  lowers the flag and leaves the schedules registered. `GetStatus` reports the flag and
  the cadence text. The pure `Step` and `Replay` functions give the state after any
  sequence of start and stop calls. The lemmas about them cover idempotence, what
  re-registration costs, and the invariant that registrations come in pairs.
- `AlertCheck` (`alert_check.dfy`) models one evaluation pass (`checkFlightAlerts`, also
  reached through `runManualSearch`). `CheckFlightAlerts` is a loop over the fetched
  alerts with `continue` for the skipped ones. It returns the positions it searched and
  the mails it sent. Its contract ties them to `SearchedIn` and `SentIn`, which are
  recursive definitions over a range of list positions. The lemmas cover ordering, at
  most one mail per alert, skipped alerts having no effect, and failure isolation.

The collaborators are inputs:

- The preferences store is `fetched: Option<seq<Alert>>`. `None` stands for a failed
  fetch or a missing list.
- The clock, the flight search and the mailer are the fields of `Collaborators`. Each is
  a total function of the position of the alert being handled. The source reads
  `new Date()` afresh inside the loop, once per active alert, so `clock(k)` is the time
  read for the alert at position k. An inactive alert is skipped before the clock is
  read, and `ShouldSearch` tests `active` first, so `clock(k)` never matters for an
  inactive k. `search(k)` is `SearchFailed` or `Found(prices)`. `delivered(k)` says
  whether formatting the body and sending the mail both succeeded. A failure of either
  one is caught by the same per-alert handler.
- Dates are integer instants and are compared with strict `<`. A stored departure date
  that does not parse is `None`. In JavaScript such a date compares false with every
  instant, so that alert is never treated as expired.

Two details of the code's behaviour that the model keeps:

- The code compares the departure date with the current instant (`new Date()`), not with
  the current calendar date.
- The code reads that instant once per active alert, not once per pass.

## Model

| member | source | states |
|---|---|---|
| `Scheduler.Step` | src/lib/flightScheduler.ts:8-33 | start while running changes nothing; start while stopped raises the flag and appends exactly `*/30 * * * *` then `0 */2 * * *`; stop lowers the flag and keeps every registration; each call preserves the pairing invariant `Consistent` |
| `Scheduler.FlightScheduler.constructor` | src/lib/flightScheduler.ts:6 | a fresh controller is stopped and has registered nothing |
| `Scheduler.FlightScheduler.Start` | src/lib/flightScheduler.ts:8-28 | the flag is up afterwards; the registrations are unchanged if it was already up, otherwise the two cadences are appended in order; the new state is `Step(old state, StartCall)` |
| `Scheduler.FlightScheduler.Stop` | src/lib/flightScheduler.ts:30-33 | the flag is down and the registrations are unchanged |
| `Scheduler.FlightScheduler.GetStatus` | src/lib/flightScheduler.ts:103-108 | `running` equals the flag; `nextRun` is "Detenido" exactly when the flag is down, and the cadence text otherwise |
| `Scheduler.ReplayKeepsConsistent` | src/lib/flightScheduler.ts:8-33 | after any sequence of calls, the registrations are still alternating half-hourly / two-hourly pairs, and a running scheduler has at least one pair |
| `Scheduler.ReplayFlag` | src/lib/flightScheduler.ts:8-33 | after any non-empty sequence of calls, the flag (so the status's `running`) is up exactly when the last call was a start |
| `Scheduler.ReplayNeverDeregisters` | src/lib/flightScheduler.ts:30-33 | no sequence of calls removes or reorders an existing registration |
| `Scheduler.ReplayRegistrationCount` | src/lib/flightScheduler.ts:8-26 | the number of new registrations is twice the number of starts made while the flag was down (a start at the beginning from a stopped state, or right after a stop), and no other call registers anything |
| `Scheduler.StartStopStartRegistersTwice` | src/lib/flightScheduler.ts:8-33 | start, stop, start from a stopped state leaves the flag up with both cadences registered twice |
| `AlertCheck.MinPrice` | src/lib/flightScheduler.ts:73 | the subject's price is one of the prices found and is at most every one of them |
| `AlertCheck.AlertEmails` | src/lib/flightScheduler.ts:49-82 | one alert yields at most one mail. It yields a mail exactly when the alert is active, not expired, its search returned a non-empty list and delivery succeeded. That mail goes to the alert's address, names its destination and carries the minimum price |
| `AlertCheck.SearchedIn` | src/lib/flightScheduler.ts:48-67 | a position is searched exactly when its alert is active and its departure is not strictly before the clock; positions are searched in strictly increasing list order, so each at most once |
| `AlertCheck.SentIn` | src/lib/flightScheduler.ts:48-87 | a range of alerts sends at most one mail per alert |
| `AlertCheck.SentSplit` | src/lib/flightScheduler.ts:48 | the mails of a range are the mails of its first part followed by those of its second part, so mails go out in alert-list order |
| `AlertCheck.SentAround` | src/lib/flightScheduler.ts:48-87 | the pass's mails are those of the alerts before k, then alert k's own (zero or one), then those of the alerts after k |
| `AlertCheck.SentMembership` | src/lib/flightScheduler.ts:69-78 | a mail is sent by the pass if and only if some alert in the range produces exactly that mail |
| `AlertCheck.SentAtMostSearched` | src/lib/flightScheduler.ts:67-78 | the pass never sends more mails than it makes searches |
| `AlertCheck.SkippedAlertIsInert` | src/lib/flightScheduler.ts:49-64 | an inactive or expired alert is not searched, and the mails sent are exactly those of the other alerts |
| `AlertCheck.SentFrame` | src/lib/flightScheduler.ts:54-86 | what a range of alerts sends depends only on the collaborators' answers for those alerts |
| `AlertCheck.SearchedFrame` | src/lib/flightScheduler.ts:58-64 | what is searched depends only on the alerts and the clock, never on search or mail outcomes |
| `AlertCheck.FailureIsolation` | src/lib/flightScheduler.ts:54-86 | if the search or the mail of alert j fails, the pass still searches the same alerts and sends every other alert's mail, in order, as it would have anyway, given the same clock readings |
| `AlertCheck.CheckFlightAlerts` | src/lib/flightScheduler.ts:35-94 | a missing or empty alert list gives no searches and no mails; otherwise the positions searched are `SearchedIn` and the mails sent are `SentIn` over the whole list |
| `AlertCheck.RunManualSearch` | src/lib/flightScheduler.ts:97-100 | a manual run is one full pass with the same outcome as `CheckFlightAlerts` |

## Left out

- Cron timing: when the registered schedules fire, and two overlapping passes running at once, belong to the cron library and the event loop. The model records only which expressions were registered, not their callbacks' scheduling.
- `await` suspension points: each pass is modelled as running to completion on its own.
- Console output is not modelled. That covers every log line, the emoji and the Spanish wording of the subject, and the status's `timestamp`. The subject is modelled only by the destination and minimum price it carries.
- `getUserPreferences`, `searchFlights` (including its `priceThreshold` filtering), `formatFlightAlert` and `sendAlertEmail` are not part of this model. Their answers are inputs.
- Parsing of `alert.departureDate` into an instant is not modelled; the parsed instant (or its absence) is an input.
- The outer `catch` is modelled only as a failed fetch (no searches, no mails). The loop reads `alert.active` outside the per-alert `try`, so a null entry in the list would end the pass there. The model's alerts are always well-formed records, so that case is not represented.
- `MinPrice`: prices are integers. A missing or non-numeric price, which makes `Math.min` return NaN, is not represented.

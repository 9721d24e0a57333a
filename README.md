# Appointment manager: store and dashboard views

This project models the logic of a small appointment manager written in
TypeScript and React. The model has two parts.

The appointment store is a `Store` class that holds:
- the collection of appointments;
- a loading flag;
- the last load error.

It has five operations:
- load the collection from the server;
- update one record by `_id`;
- create a record;
- delete a record, which changes only the local collection;
- cancel a record, which sets its status to cancelled.

Every remote call is a parameter: the reply it settles to (`Remote`:
answered with a payload, or failed). The load, update, create and cancel
also return the request they send (`GET /appointments`, a `PUT` or a
`POST`); delete sends none.

The views the dashboard derives from the collection are pure functions:
- the overview figures: total, completed, total and average duration, and
  the five most recent appointments;
- the calendar's index of appointments by day and the lookup for the selected
  day;
- the chart's histogram of start times over morning, afternoon and evening;
- the initials and status badge of each recent appointment.

## Modules

- `Appointments` (appointment.dfy): the `Appointment` record, its optional
  status and JavaScript truthiness of optional strings.
- `Text` (text.dfy): `split` on one character, `join`, and the first
  piece before a separator.
- `Buckets` (buckets.dfy): grouping a sequence by a key. It covers the
  group of one key in order, keys in order of first occurrence, and the
  fact that groups of distinct keys account for every element exactly once.
- `AppointmentStore` (store.dfy): the load transform, the collection
  updates, and the `Store` class with its five operations.
- `Dashboard` (dashboard.dfy): the overview figures and the recent list.
- `Calendar` (calendar.dfy): the by-day index, built by a loop that
  creates a bucket and then pushes, and the selected-day lookup.
- `OverviewChart` (overview.dfy): `parseInt` of the hour, the slot
  classification, and the find-or-push reduce. The reduce is written as a
  loop that updates the accumulator.
- `RecentAppointments` (recent.dfy): initials and badge variant.

## Model

| member | source | states |
|---|---|---|
| AppointmentStore.Normalize | hooks/useAppointmentData.ts:31-35 | The result exists exactly when the date can be formatted. The date becomes the ISO text before the first 'T': a 'T'-free prefix of it, followed in the ISO text by 'T' whenever it is shorter. A missing status becomes scheduled and an existing one is kept. Every other field is copied unchanged. |
| AppointmentStore.NormalizeAll | hooks/useAppointmentData.ts:31-35 | The transform succeeds exactly when every date can be formatted (one throw aborts the whole load). It then has the same length as the server list and normalises each record at its own position. |
| AppointmentStore.Store.constructor | hooks/useAppointmentData.ts:20-22 | Initial state: empty collection, loading, no error, and the given `userId`. |
| AppointmentStore.Store.FetchAppointments | hooks/useAppointmentData.ts:25-46 | The call sends `GET /appointments`. After the call loading is false. On an answer whose list can be normalised, the collection is replaced outright by the normalised list and the error is cleared. On a failure or a date that throws, the collection is empty and the error is "Failed to fetch appointments". |
| AppointmentStore.ReplaceById | hooks/useAppointmentData.ts:62-66 | Length is preserved. Exactly the records whose `_id` is the id become the confirmed record; all others are unchanged. |
| AppointmentStore.ReplaceByIdIdempotent | hooks/useAppointmentData.ts:62-66 | Applying the same confirmed record twice gives the collection that applying it once gives. |
| AppointmentStore.Store.UpdateAppointment | hooks/useAppointmentData.ts:49-73 | A missing or empty `_id` fails with nothing sent and nothing changed. Otherwise the PUT carries the record. A failed reply changes nothing. An answered reply replaces by id in the collection and returns the server's record. |
| AppointmentStore.Store.CreateAppointment | hooks/useAppointmentData.ts:76-99 | Without a truthy `userId` it fails with nothing sent or changed. Otherwise the POST carries the draft with the `userId` set. A failed reply changes nothing. An answered reply is appended after the unchanged prior records and returned. |
| AppointmentStore.RemoveById | hooks/useAppointmentData.ts:105-107 | The result holds exactly the records with a different `_id` and is no longer than the input. |
| AppointmentStore.RemoveAbsentIsNoop | hooks/useAppointmentData.ts:105-107 | Deleting an id no record has leaves the collection as it was. |
| AppointmentStore.RemoveByIdIdempotent | hooks/useAppointmentData.ts:105-107 | Deleting twice is deleting once. |
| AppointmentStore.RemoveByIdKeepsOrder | hooks/useAppointmentData.ts:105-107 | Deleting from a concatenation deletes from each part and keeps the parts in order. |
| AppointmentStore.Store.DeleteAppointment | hooks/useAppointmentData.ts:102-112 | Only the collection changes, to the filtered collection. No request is sent, and the error and loading flag are untouched. |
| AppointmentStore.FindById | hooks/useAppointmentData.ts:122-125 | `None` exactly when no record has the id. Otherwise the result is the first record with the id. |
| AppointmentStore.CancelById | hooks/useAppointmentData.ts:133-139 | Length is preserved. Each record equals its original except for the status. The records with the id get status cancelled, and the others are unchanged. |
| AppointmentStore.CancelByIdIdempotent | hooks/useAppointmentData.ts:133-139 | Cancelling twice is cancelling once. |
| AppointmentStore.CancelAbsentIsNoop | hooks/useAppointmentData.ts:133-139 | Cancelling an id no record has changes nothing. |
| AppointmentStore.Store.CancelAppointment | hooks/useAppointmentData.ts:115-146 | It fails without a truthy `userId`, and then when no current record has the id; in both cases nothing is sent or changed. Otherwise the PUT carries the current record with status cancelled. A failed reply changes nothing. An answered reply cancels the local records with the id; the server's reply is only returned. |
| AppointmentStore.DashboardCancel | components/Dashboard.tsx:15 | The store that the dashboard creates has no `userId`, so every cancel fails with the missing-user error and sends nothing. |
| AppointmentStore.DashboardCancelWithUser | hooks/useAppointmentData.ts:115-139 | With a non-empty `userId` and a loaded record with the id, an answered cancel succeeds and cancels that record locally. |
| Dashboard.CompletedCount | components/Dashboard.tsx:29 | The count is at most the total. It is zero exactly when no appointment is completed and equals the total exactly when all are. |
| Dashboard.CompletedIsFilterLength | components/Dashboard.tsx:29 | The count is the length of the filter on status completed. |
| Dashboard.TotalDurationBounds | components/Dashboard.tsx:30 | With no negative duration the sum is non-negative and at least each single duration. |
| Dashboard.TotalDurationAppend | components/Dashboard.tsx:30 | The duration sum of a concatenation is the sum of the parts' sums. |
| Dashboard.TotalDurationIgnoresStatus | components/Dashboard.tsx:30 | The sum depends only on the durations, not on statuses or any other field. |
| Dashboard.CancelKeepsTotalDuration | components/Dashboard.tsx:30 | Cancelling appointments does not change the total duration; no status filter is applied. |
| Dashboard.AverageDuration | components/Dashboard.tsx:31 | The average is defined exactly when the collection is non-empty, and it times the count is the total duration. |
| Dashboard.Summarize | components/Dashboard.tsx:28-31 | The total is the collection length. Completed is the completed count, at most the total. The total duration is the duration sum over every appointment. The average is defined exactly when the total is positive, and then average × total = total duration. |
| Dashboard.Recent | components/Dashboard.tsx:97 | The recent list is a prefix of the collection of length min(5, n), with nothing sorted. |
| Dashboard.RecentIgnoresAppended | components/Dashboard.tsx:97 | With five or more appointments, appending one leaves the recent list unchanged. |
| Calendar.DateKey | components/AppointmentCalendar.tsx:16-18 | An empty date is keyed "unknown"; any other date is keyed by itself. |
| Calendar.ByDate | components/AppointmentCalendar.tsx:14-25 | Every appointment is in the bucket of its own key. No bucket is empty, and no bucket holds an appointment of another key. |
| Calendar.ByDateIsPartition | components/AppointmentCalendar.tsx:14-25 | The index's keys are exactly the keys that occur. Each bucket is exactly the appointments with that key, in input order. |
| Calendar.ByDateSnocBuckets | components/AppointmentCalendar.tsx:20-23 | If every bucket is the group of its key before a push, the same holds after one more appointment is pushed onto its bucket. |
| Calendar.IndexByDate | components/AppointmentCalendar.tsx:13-26 | The loop that creates a missing bucket and then pushes computes the index. The index is the partition by key described above. |
| Calendar.BucketsNonEmpty | components/AppointmentCalendar.tsx:20-23 | No bucket of the index is empty. |
| Calendar.InExactlyOneBucket | components/AppointmentCalendar.tsx:14-25 | Every appointment is in the bucket of its own key and in no other bucket. |
| Calendar.EmptyDateIsUnknown | components/AppointmentCalendar.tsx:16-18 | An appointment with an empty date is in the "unknown" bucket. |
| Calendar.BucketSizesAreSelectSizes | components/AppointmentCalendar.tsx:14-25 | The bucket sizes of existing keys are the sizes of the groups of those keys. |
| Calendar.BucketSizesSum | components/AppointmentCalendar.tsx:14-25 | The bucket sizes over the keys, each counted once, sum to the number of appointments. |
| Calendar.SelectedDateAppointments | components/AppointmentCalendar.tsx:29-34 | With no selected day the result is empty. A non-empty result means a day is selected and has a bucket. |
| Calendar.SelectedAreThoseOfTheDay | components/AppointmentCalendar.tsx:32-33 | The selected day shows exactly the appointments keyed by that day, in input order; a day without a bucket shows none. |
| Calendar.MarkedDaysHaveAppointments | components/AppointmentCalendar.tsx:45-46 | A day cell is marked exactly when some appointment has that day as its key. |
| OverviewChart.LeadingDigits | components/OverviewChart.tsx:6 | The result is the longest prefix made of decimal digits. |
| OverviewChart.ParseInt | components/OverviewChart.tsx:6 | The result is NaN exactly when no digit follows the optional sign. Without a minus sign the number is non-negative. |
| OverviewChart.Classify | components/OverviewChart.tsx:7 | Morning exactly when the hour is below 12. Afternoon exactly when it is in [12, 17). Evening exactly when it is NaN or at least 17. |
| OverviewChart.SlotOfTime | components/OverviewChart.tsx:6-7 | A start time is morning exactly when the text before its first ':' parses to an hour below 12, afternoon exactly for 12 to 16, and evening exactly for 17 and over or no number. |
| OverviewChart.ClockHour | components/OverviewChart.tsx:6 | For a time made of one or more digits, then ':', the parsed hour is the number those digits spell. |
| OverviewChart.SingleDigitHourExample | components/OverviewChart.tsx:6-7 | "9:30" is at hour 9, in the morning. |
| OverviewChart.NonNumericIsEvening | components/OverviewChart.tsx:6-7 | A start time not beginning with a digit or sign parses to NaN and is counted as evening. |
| OverviewChart.Tally | components/OverviewChart.tsx:8-13 | One step keeps every existing entry's name in place and adds at most one entry, which is the slot with total 1. The totals grow by exactly one. |
| OverviewChart.TallyFound | components/OverviewChart.tsx:8-10 | When the first entry named by the slot is at j, the step increments exactly that entry. |
| OverviewChart.TallyMissing | components/OverviewChart.tsx:11-12 | When no entry has the slot's name, the step pushes a new entry with total 1. |
| OverviewChart.Histogram | components/OverviewChart.tsx:5-15 | The result has no more entries than there are appointments, is empty exactly for no appointments, and its totals add up to the number of appointments. |
| OverviewChart.CountSlot | components/OverviewChart.tsx:8-13 | The find loop followed by the in-place increment or push computes one step of the reduce. |
| OverviewChart.OverviewData | components/OverviewChart.tsx:5-15 | The loop over the appointments computes the reduce's result. |
| OverviewChart.TallyStep | components/OverviewChart.tsx:8-13 | One step keeps the accumulator describing what it has consumed. Its names are the slots in order of first occurrence, and each total counts that slot's appointments. |
| OverviewChart.HistogramShape | components/OverviewChart.tsx:5-15 | The reduce's result describes its whole input in this sense. |
| OverviewChart.DistinctSlotsAtMostThree | components/OverviewChart.tsx:7-13 | Distinct slot names number at most three. |
| OverviewChart.HistogramProperties | components/OverviewChart.tsx:5-15 | The chart data has distinct names and at most three entries. An empty input gives no entries. Every total is at least 1. The totals sum to the number of appointments. Entries appear in the order their slots first occur, not in a fixed order. |
| RecentAppointments.Head | components/RecentAppointments.tsx:11 | `n[0]` as `join` prints it: the first character of a piece, or nothing for an empty piece. |
| RecentAppointments.WordStarts | components/RecentAppointments.tsx:11 | The reference definition of the initials (the non-space characters that start the name or follow a space) contains no space. It has at most one character more than the name has spaces. |
| RecentAppointments.HeadsOfSplit | components/RecentAppointments.tsx:11 | The heads of all pieces join to the word starts of the name. The heads of the pieces after the first join to the word starts that follow a space. |
| RecentAppointments.Initials | components/RecentAppointments.tsx:11 | The initials are exactly the first characters of the non-empty space-separated words, in order. They contain no space, and their length is at most the number of spaces plus one. |
| RecentAppointments.EmptyNameHasNoInitials | components/RecentAppointments.tsx:11 | An empty name gives empty initials. |
| RecentAppointments.OneWordInitial | components/RecentAppointments.tsx:11 | A non-empty name without spaces gives its first character. |
| RecentAppointments.TwoWordsExample | components/RecentAppointments.tsx:11 | "Jane Doe" gives "JD". |
| RecentAppointments.Badge | components/RecentAppointments.tsx:21-24 | The mapping is total: completed gives default, scheduled gives secondary, and cancelled or a missing status gives destructive, each in both directions. |
| Text.Split | hooks/useAppointmentData.ts:33 | `split` on one character gives one more piece than there are separators, and no piece contains the separator. |
| Text.JoinSplit | components/RecentAppointments.tsx:11 | Joining the pieces of a split with the separator gives back the string. |
| Text.FirstPiece | components/OverviewChart.tsx:6 | `split(sep)[0]` is the prefix up to the first separator. It contains no separator, and when it is shorter than the string the next character is the separator. |
| Text.FirstPieceIdempotent | hooks/useAppointmentData.ts:33 | Taking the first piece again changes nothing. |
| Text.SplitWithoutSeparator | components/RecentAppointments.tsx:11 | A string without the separator splits into itself alone. |
| Buckets.Select | components/AppointmentCalendar.tsx:23 | The group of a key holds exactly the elements with that key, and it is no longer than the input. |
| Buckets.SelectEmpty | components/AppointmentCalendar.tsx:20-23 | A group is empty exactly when its key does not occur. |
| Buckets.SumSizesIsLength | components/AppointmentCalendar.tsx:14-25 | Groups of distinct keys covering every key hold exactly as many elements as the input. |
| Buckets.FirstOccurrences | components/OverviewChart.tsx:8-12 | The keys in first-occurrence order are distinct, and they are exactly the keys that occur. |
| Buckets.FirstOccurrencesInOrder | components/OverviewChart.tsx:12 | A key listed earlier occurs in the input before any occurrence of a key listed later. |

## Left out

- HTTP calls through axios to the backend server are not modelled. Each call is represented by the reply it settles to, passed in as a parameter. The request the store would send is returned as a value.
- `new Date(d).toISOString()` and time zones are a parameter: a function from the stored date to its ISO text, or `None` where JavaScript throws a RangeError. The model keeps only the part before the first 'T'.
- The calendar's date-fns `parseISO`/`format` round trip is not modelled. The bucket key is the stored date itself, and only an empty date goes to "unknown". A non-empty date that date-fns cannot parse makes `format` throw in the code; the model does not capture that throw.
- The selected day is a parameter already formatted as `yyyy-MM-dd`, and the calendar's initial `new Date()` is not modelled.
- `parseInt` is modelled as an optional sign followed by leading decimal digits, else NaN. Leading whitespace, `0x` prefixes and radix detection are not modelled.
- Dashboard.AverageDuration: uses exact `real` division. The JavaScript float division, the `/ 60` conversion to hours and `toFixed(1)` display rounding are left out. The NaN of the empty collection is `None`.
- Strings are sequences of Unicode scalar values. JavaScript indexes strings by UTF-16 code units, so for a word starting with a character outside the Basic Multilingual Plane (such as an emoji) `n[0]` is half a surrogate pair while RecentAppointments.Head takes the whole character.
- Status is one of scheduled, completed or cancelled, or missing. A server status outside these three cannot be represented; in the code such a status is kept by the load and shows the destructive badge. An empty status string is modelled as missing, which the load's `||` also turns into scheduled.
- `duration` is an unbounded integer; JavaScript numbers are doubles, and sums beyond 2^53 are not modelled.
- AppointmentStore.Store.CancelAppointment: looks up the record in the collection current at the call. The code's `useCallback` closure can see an older collection; that stale read, overlapping requests and the `useEffect` mount trigger concern asynchronous ordering and are left out.
- `console.error` logging and thrown `Error` messages are left out. The error cases are `StoreError` values.
- The rendering in all five components is left out, and so are `ManageAppointments.tsx`, `AppointmentList.tsx` and `app/page.tsx`.
- Uniqueness of `_id` is not maintained by the code and is not assumed. Update, delete and cancel act on every record with the id.
- The model follows the code, not the system's documented intent, in these behaviours:
  - a failed load empties the collection;
  - the chart's entries appear in first-occurrence order, with no zero entries, rather than a fixed order;
  - delete makes no remote call at all;
  - only an empty date is keyed "unknown".

## Findings

| source | as written | input that shows it | evidently intended | confidence | as-written member | corrected member |
|---|---|---|---|---|---|---|
| components/Dashboard.tsx:15 | The dashboard calls the store hook without a `userId` and passes its cancel to the manage tab. Cancel's guard then rejects every call with "User ID is required". | Cancelling any loaded appointment from the manage tab | The store is created with the signed-in user's id, so cancelling a loaded appointment succeeds | medium (not executed) | AppointmentStore.DashboardCancel | AppointmentStore.DashboardCancelWithUser |

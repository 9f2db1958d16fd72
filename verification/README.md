# practable booking client — a Dafny model

This project models the decision logic of the practable booking client
(`src/practable/book.py`). The client has two classes. A `Booker` logs in to
a booking server and joins groups. It reads each group's catalog of
experiments, filters the catalog by name and by whether each experiment's
slot is open now, books one, lists the user's current bookings, cancels them,
and resolves an activity's stream to a websocket uri. An `Experiment` wraps
that sequence and collects JSON records from the stream.

Each mutating `Booker` method becomes a pure function from one `Booker`
state to an `Outcome`. The outcome is either `Done(state)` or
`Raised(state, error)`. A raise keeps whatever the method had already changed
before it raised. This matters for `filter_experiments` and
`get_group_details`, which raise part-way through their loops.
Operations that log in raise the corrected `LoginFailed`; as written each
raises AttributeError (see Findings).

The network is replaced by parameters:

- Each request's reply is a record holding its status and decoded body.
- Requests made once per key are functions. `server` gives a group's reply,
  `slots` gives a slot's reply, and `exchange` gives a stream's reply.
- `Collect`'s parameter `incoming` is the sequence of messages the websocket's `recv` would deliver.
- The clock is an integer `now` in microseconds, read once per operation.
  The code reads it again in each slot probe of `filter_experiments`; see
  `Availability.PartitionIsTotal` under "Left out". `get_bookings` also reads
  it twice, once in `ensure_logged_in` (src/practable/book.py:165) and once
  for the filter (src/practable/book.py:280); the model uses one instant for
  both.
- `random.choice` is a `choice: nat` that picks
  `available[choice % |available|]`.

Modules, one per file:

| module | file | models |
|---|---|---|
| `Types` | types.dfy | the state of a `Booker`, server replies, errors |
| `Text` | text.dfy | Python's `sub in s` on strings and `str.splitlines()` |
| `Seqs` | seqs.dfy | the order-preserving filter loop `for x in xs: if p(x): out.append(x)` |
| `Session` | session.dfy | `ensure_logged_in` |
| `Groups` | groups.dfy | `add_group`, `get_group_details` |
| `Availability` | availability.dfy | `check_slot_available`, `filter_experiments` |
| `Reservations` | reservations.dfy | `book`, `get_bookings`, `cancel_booking`, `cancel_all_bookings` |
| `Activities` | activities.dfy | the storing step of `get_activity`, `connect` |
| `Collector` | collector.dfy | `Experiment.collect` |
| `Scenario` | scenario.dfy | the booking path of `Experiment.__enter__` on a one-slot catalog |

Four behaviours of the code that a reader might not expect:

- In exact mode, a name the catalog lacks falls back to substring matching.
  So exact mode can list several names, not at most one (`ExactMissListsMany`).
- `collect(count)` keeps every line of the last message it receives, so it
  can return more than `count` records (`WholeMessageIsKept`).
- `book` checks only that the duration is a `timedelta`. Zero or negative
  durations are sent to the server.
- `cancel_booking` returns normally only on status 404, and raises on
  every other status, 200 and 204 included.

## Model

| member | source | states |
|---|---|---|
| Session.EnsureLoggedIn | src/practable/book.py:163-178 | A login happens exactly when the token expires no later than now + 2 minutes. A refused login raises and leaves the state alone. A successful one stores the new token and its expiry, and nothing else changes. |
| Session.SecondCallDoesNotLogIn | src/practable/book.py:165-178 | After a successful login whose expiry is more than 2 minutes past a later instant, the call at that instant is a no-op, whatever the server would answer. |
| Session.EnsureLoggedInAsWritten | src/practable/book.py:172-174 | As written, every failed login raises AttributeError on `booking_server`, and in every other respect matches the corrected login. |
| Session.LoginFailureHidesUser | src/practable/book.py:172-174 | For a refused login, the code as written raises AttributeError, while the corrected code raises the login failure naming the user and server. |
| Groups.AddGroup | src/practable/book.py:69-79 | Logs in if due. Only status 204 appends the group to `groups`. Any other status raises "could not add group" and leaves `groups` unchanged. |
| Groups.Absorb | src/practable/book.py:305-311 | Absorbing slot entries appends every entry's name to `experiments`, never clearing it. The table gains exactly the names the entries mention. |
| Groups.AbsorbLastWins | src/practable/book.py:306-311 | Under each name, the table holds the last entry carrying that name, tagged with its slot id. |
| Groups.AbsorbKeepsOthers | src/practable/book.py:306-311 | Names the new entries do not mention keep their earlier table entry. |
| Groups.AbsorbTwice | src/practable/book.py:303-311 | Absorbing the same entries twice lists every name twice but leaves the table as it was. |
| Groups.Refresh | src/practable/book.py:294-311 | The group loop succeeds exactly when every group's reply is 200, and then it has absorbed every group's slots in visiting order. Otherwise it raises for the first refused group and keeps what the earlier groups added. |
| Groups.GetGroupDetails | src/practable/book.py:292-311 | Logs in if due, then refreshes. On success the catalog is the old catalog with every group's slots absorbed. When a group is refused, it raises for the first refused group, and the catalog holds the slots of the groups before it. Nothing outside the catalog changes. |
| Groups.GroupDetailsTable | src/practable/book.py:303-311 | After a successful call, every name seen was appended, and the last slot with a given name is what the table holds for it. |
| Groups.RepeatedRefreshDuplicates | src/practable/book.py:303-311 | Two successful calls against the same replies list every name twice, and the name table is unchanged by the second. |
| Text.Contains | src/practable/book.py:223 | Python's `sub in name` holds exactly when `sub` occurs at some position of `name`, so the empty string occurs everywhere. |
| Availability.CheckSlot | src/practable/book.py:143-161 | A non-200 reply raises for the slot. Otherwise only the first window counts. It is open now exactly when it starts no later than now + 1 second. With no window, the slot is closed and reports no window. |
| Availability.Listed | src/practable/book.py:217-228 | In exact mode a catalog name lists just itself. Otherwise it lists exactly the catalog names containing `sub`, and `number` when one is given, each as often as the catalog lists it. |
| Availability.ListedKeepsOrder | src/practable/book.py:221-228 | Outside exact mode, the listing keeps catalog order: it distributes over concatenation. |
| Availability.ExactMissFallsBack | src/practable/book.py:217-228 | Exact mode with a name the catalog lacks lists what substring mode lists. |
| Availability.ExactMissListsMany | src/practable/book.py:217-228 | So exact mode can list two names. |
| Availability.Place | src/practable/book.py:230-235 | One listed name raises when it has no catalog entry, when its slot query fails, or when its slot has no window. Otherwise an open name is appended to `available` and a closed one is mapped to its start in `unavailable`. |
| Availability.Split | src/practable/book.py:230-235 | The loop succeeds exactly when every listed name can be probed. `available` is then the order-preserving subsequence of listed names open now, and `unavailable` maps each other listed name to its next start. Otherwise it raises the failure of the first name that cannot be probed. |
| Availability.SplitRaisedKeepsPrefix | src/practable/book.py:230-235 | A raising loop leaves exactly the partition of the names before the first one that cannot be probed. |
| Availability.PartitionIsTotal | src/practable/book.py:230-235 | When every listed name can be probed, the loop completes and every listed name is in exactly one of `available` and `unavailable`. |
| Availability.NoWindowRaises | src/practable/book.py:152-159 | A slot that reports no window is never open now, and listing it makes the loop raise. |
| Availability.FilterExperiments | src/practable/book.py:210-235 | The filter's name, number and listing are always recorded, even when a probe raises. On success `available` and `unavailable` are the split of the listing. On a raise, the error is the failure of the first listed name that cannot be probed, and `available` and `unavailable` are the split of the names before it. Nothing outside the filter changes. |
| Reservations.GetBookings | src/practable/book.py:269-289 | Logs in if due. A non-200 reply raises. Otherwise `bookings` becomes exactly the server's bookings whose closed window contains now, with their multiplicities. Nothing else changes. |
| Reservations.GetBookingsKeepsOrder | src/practable/book.py:284-289 | The kept bookings are in the server's order. |
| Reservations.GetBookingsAsWritten | src/practable/book.py:269-276 | As written, every refused request of `get_bookings`, the login or the bookings fetch, surfaces as AttributeError on `booking_server`. |
| Reservations.BookingsFailureHidesUser | src/practable/book.py:273-276 | For a refused bookings fetch, the code as written raises AttributeError, while the corrected code raises the failure naming the user and server. |
| Reservations.Choose | src/practable/book.py:89-99 | An explicit selection is used as given. Without one, an empty `available` raises, and the message carries the number exactly when the filter had one. Otherwise the pick is a member of `available`. Before any filter ran, asking for `available` is an AttributeError. |
| Reservations.Book | src/practable/book.py:81-114 | Booking succeeds exactly when the chosen name has a catalog entry and the reply is 204. The request is then for that entry's slot, the user, and the window [now, now + duration]. A missing entry raises KeyError, and any other status raises "could not book". |
| Reservations.NothingAvailableRaises | src/practable/book.py:89-96 | With nothing available, booking without a selection always raises the no-match error for the filter. |
| Reservations.EveryAvailableCanBeChosen | src/practable/book.py:97-99 | Every available experiment with a catalog entry is the one booked for some choice. |
| Reservations.CancelBooking | src/practable/book.py:116-126 | Only status 404 returns normally. Every other status raises for that booking. |
| Reservations.CancelAllBookings | src/practable/book.py:128-141 | Sends one delete per current booking, whatever each delete returns. It succeeds exactly when both refreshes succeed and no booking in the second reply is current, and then `bookings` is empty. A failing refresh raises its own error. When bookings remain current, it raises "unable to cancel all bookings" with those bookings stored. |
| Activities.GetActivity | src/practable/book.py:237-261 | A non-200 reply raises for the booking. Otherwise the activity, tagged with its booking, is stored under its name, replacing any earlier one. Every other cached activity is kept. |
| Activities.LastFor | src/practable/book.py:317-320 | The loop settles on the last stream whose role is `which`, or on none when no stream has it. |
| Activities.SelectStream | src/practable/book.py:313-325 | A missing activity raises "activity not found". An activity without a stream of the role raises "stream not found". Otherwise the result is the last stream of that role. |
| Activities.Connect | src/practable/book.py:313-337 | Succeeds exactly when a stream is selected and its exchange replies 200, and then it returns the reply's uri. A failed exchange raises "could not access". |
| Activities.ConnectAfterGetActivity | src/practable/book.py:253-261 | After an activity is stored, connecting by its name selects its last stream of the role, whatever else was cached. |
| Text.SplitLines | src/practable/book.py:420 | `str.splitlines()`: no piece contains a line boundary, and only the empty string has no pieces. What the pieces are is stated by `SplitTerminated`. |
| Text.SplitTerminated | src/practable/book.py:420 | Boundary-free lines, each ended by the same line ending (any single boundary character, or "\r\n"), then a boundary-free last line that may lack an ending: splitting gives the lines back, plus the last line when it is not empty. |
| Text.CrLfIsOneBoundary | src/practable/book.py:420 | "\r\n" splits as one boundary, with no empty piece between the "\r" and the "\n". |
| Collector.DecodeLines | src/practable/book.py:420-427 | The inner loop keeps, in order, the decoded value of each non-empty line that decodes. |
| Collector.Collect | src/practable/book.py:414-428 | Receives the fewest messages whose records reach `count`, and returns every record of those messages. When the messages run out first, the receive gives up (TimeoutError when `timeout` is given) and the records are lost. |
| Collector.WholeMessageIsKept | src/practable/book.py:418-428 | One message carrying two decodable lines yields two records, so `collect(1)` can return two. |
| Scenario.BookSpinner | src/practable/book.py:395-397 | With one group offering a slot "S" named "Spinner 51" whose window starts now: fetching, filtering for "Spinner" in exact mode, and booking 3 minutes reserves "S" for [now, now + 3 min], whatever the random pick. |

## Left out

- HTTP requests, their urls, headers and JSON bodies. Each reply is a parameter carrying a status and the decoded fields the code reads.
- `ensure_user` and `set_user`. They read and write the user file and may ask the server for a new name. `Booker.user` stands for the identity they produce. `ensure_user` can itself raise (src/practable/book.py:195-198) when the server refuses a new name; the model assumes it succeeds, so `EnsureLoggedIn` and the operations that call it do not raise that error.
- The `Booker` and `Experiment` constructors. `Booker.__init__` sets up configuration and then forces a login (src/practable/book.py:60-61), which `EnsureLoggedIn` models with an expired token. `Experiment.__init__` adds `set_user`, which is left out, and `add_group`, which `AddGroup` models.
- Activities.GetActivity: models only the storing step (src/practable/book.py:253-261), not the stale-activity pruning loop before it (src/practable/book.py:247-251). That loop iterates the cache's keys, which are strings, and indexes each with `["exp"]`. So as written, `get_activity` raises TypeError whenever the cache is non-empty, and the storing step only ever runs on an empty cache. The contract's "every other cached activity is kept" describes the storing step alone.
- Activities.ConnectAfterGetActivity: its "whatever else was cached" holds for the storing step. As written, a non-empty cache makes `get_activity` raise TypeError before it stores anything.
- Availability.PartitionIsTotal: holds because the model reads one clock value and one reply per slot for the whole loop. The code sends a fresh slot query for each listed name (src/practable/book.py:231, 145) and reads the clock in each probe (src/practable/book.py:159). A name listed twice, as repeated `get_group_details` calls produce, can then land in both `available` and `unavailable`. That happens if its window start crosses now + 1 s between the two probes, or if the slot's reply changes between them.
- `get_all_activities`. It calls `get_activity` once per booking, and its replies would be a per-booking parameter of `GetActivity`.
- `group_details`. `get_group_details` stores each group's raw reply there, but no modelled operation reads it.
- `Experiment.__enter__` and `__exit__` as a whole. The websocket open and close are I/O. `Scenario.BookSpinner` covers the booking path.
- The websocket: `recv`, `send`, `command`, `ignore` and their `time.sleep` rate limiting. `Collect` takes the received messages as a sequence.
- `printProgressBar`, the printed diagnostics, and the `__main__` plotting block. They produce output only.
- ISO datetime parsing and time zones. Times are integers in microseconds.
- JSON decoding. It is an abstract partial function `parse`.
- The text of exception messages. Each message is an `Error` variant carrying the values it formats.
- Book: the `isinstance(duration, timedelta)` check, because durations are integers in the model.
- Collect: the channel stopping is modelled as the message sequence running out, not by the clock. With the default `timeout=None` (src/practable/book.py:414, 435) the receive waits indefinitely, or raises ConnectionClosed when the channel closes; `Timeout` stands for every way the channel stops delivering. `incoming` also assumes text frames: for a binary frame `recv` returns bytes, and `bytes.splitlines()` splits only on "\n", "\r" and "\r\n".

## Findings

| source | as written | input that shows it | evidently intended | confidence | as-written member | corrected member |
|---|---|---|---|---|---|---|
| src/practable/book.py:174 | A failed login formats `self.booking_server`, an attribute no `Booker` has (it has `book_server`), so the raise is an AttributeError. | An expired token and a login reply with status 500. | Raise "could not login as user U at S" with the user and the server. | high, not executed | Session.EnsureLoggedInAsWritten, Session.LoginFailureHidesUser | Session.EnsureLoggedIn |
| src/practable/book.py:276 | A failed bookings fetch formats `self.booking_server` in the same way, so it too raises AttributeError. | A fresh token and a bookings reply with status 500. | Raise "could not get bookings for U from S". | high, not executed | Reservations.GetBookingsAsWritten, Reservations.BookingsFailureHidesUser | Reservations.GetBookings |

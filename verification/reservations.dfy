/**
  The booking manager: `Booker.book` (src/practable/book.py:81-114),
  `Booker.get_bookings` (src/practable/book.py:269-289),
  `Booker.cancel_booking` (src/practable/book.py:116-126) and
  `Booker.cancel_all_bookings` (src/practable/book.py:128-141).
 */
module Reservations {
  import opened Types
  import opened Seqs
  import opened Session

  // ------------------------------------------------------------ get_bookings

  /** The booking's closed window contains `now`. */
  predicate Current(bk: Booking, now: Time)
  {
    bk.when.start <= now <= bk.when.end
  }

  function CurrentAt(now: Time): Booking -> bool
  {
    bk => Current(bk, now)
  }

  /**
    `get_bookings` at time `now`: log in if due, fetch the user's bookings
    and keep, in the server's order, those whose window contains now.
   */
  function GetBookings(b: Booker, now: Time, login: LoginReply, reply: BookingsReply): (r: Outcome<Booker>)
    ensures EnsureLoggedIn(b, now, login).Raised? ==> r == EnsureLoggedIn(b, now, login)
    ensures r.Done? <==> EnsureLoggedIn(b, now, login).Done? && reply.status == 200
    ensures EnsureLoggedIn(b, now, login).Done? && reply.status != 200 ==>
              r == Raised(EnsureLoggedIn(b, now, login).state, BookingsFailed(b.user, b.server))
    ensures r.Done? ==>
              forall bk :: bk in r.state.bookings <==> bk in reply.bookings && Current(bk, now)
    ensures r.Done? ==>
              forall bk :: multiset(r.state.bookings)[bk] ==
                if Current(bk, now) then multiset(reply.bookings)[bk] else 0
    ensures r.state == EnsureLoggedIn(b, now, login).state.(bookings := r.state.bookings)
  {
    match EnsureLoggedIn(b, now, login)
    case Raised(s, e) => Raised(s, e)
    case Done(s) =>
      if reply.status != 200 then Raised(s, BookingsFailed(s.user, s.server))
      else Done(s.(bookings := Keep(reply.bookings, CurrentAt(now))))
  }

  /** The kept bookings appear in the server's order: the filter distributes over the reply. */
  lemma GetBookingsKeepsOrder(b: Booker, now: Time, login: LoginReply, status: int, xs: seq<Booking>, ys: seq<Booking>)
    requires GetBookings(b, now, login, BookingsReply(status, xs + ys)).Done?
    ensures GetBookings(b, now, login, BookingsReply(status, xs + ys)).state.bookings ==
              Keep(xs, CurrentAt(now)) + Keep(ys, CurrentAt(now))
  {
    KeepConcat(xs, ys, CurrentAt(now));
  }

  /**
    `get_bookings` as written: both of its refused-request messages format
    `self.booking_server`, which a Booker never has, so every refused
    request surfaces as an AttributeError.
   */
  function GetBookingsAsWritten(b: Booker, now: Time, login: LoginReply, reply: BookingsReply): (r: Outcome<Booker>)
    ensures r.Raised? <==> GetBookings(b, now, login, reply).Raised?
    ensures r.Raised? ==> r.error == AttributeError("booking_server")
    ensures r.state == GetBookings(b, now, login, reply).state
  {
    match GetBookings(b, now, login, reply)
    case Done(s) => Done(s)
    case Raised(s, _) => Raised(s, AttributeError("booking_server"))
  }

  /** A refused bookings fetch with a fresh token never reports the user or server. */
  lemma BookingsFailureHidesUser(b: Booker, now: Time, login: LoginReply, bookings: seq<Booking>)
    requires !NeedsLogin(b, now)
    ensures GetBookingsAsWritten(b, now, login, BookingsReply(500, bookings)) ==
              Raised(b, AttributeError("booking_server"))
    ensures GetBookings(b, now, login, BookingsReply(500, bookings)) ==
              Raised(b, BookingsFailed(b.user, b.server))
  {
  }

  // ------------------------------------------------------------------ book

  /**
    The experiment `book` reserves: the explicit selection, or else a pick
    from `available` (a random choice in the client; `choice` stands for it).
    Asking for `available` before any filter has run is an AttributeError.
   */
  function Choose(b: Booker, selected: string, choice: nat): (r: Result<string>)
    ensures selected != "" ==> r == Ok(selected)
    ensures selected == "" && b.filter.None? ==> r == Err(AttributeError("available"))
    ensures selected == "" && b.filter.Some? ==>
              var f := b.filter.value;
              && (r.Ok? <==> |f.available| > 0)
              && (r.Ok? ==> r.value in f.available)
              && (r.Err? ==> r.error == if f.number == "" then NoMatch(f.name) else NoMatchNumber(f.name, f.number))
  {
    if selected != "" then Ok(selected)
    else if b.filter.None? then Err(AttributeError("available"))
    else
      var f := b.filter.value;
      if |f.available| < 1 then
        if f.number == "" then Err(NoMatch(f.name)) else Err(NoMatchNumber(f.name, f.number))
      else Ok(f.available[choice % |f.available|])
  }

  /**
    `book(duration, selected)` at time `now`, where `status` is the reply to
    the reservation request. The request asks for [now, now + duration] on
    the chosen experiment's slot; only status 204 succeeds.
   */
  function Book(b: Booker, duration: Time, selected: string, now: Time, choice: nat, status: int)
    : (r: Result<Reservation>)
    ensures Choose(b, selected, choice).Err? ==> r == Err(Choose(b, selected, choice).error)
    ensures r.Ok? <==>
              && Choose(b, selected, choice).Ok?
              && Choose(b, selected, choice).value in b.catalog.details
              && status == 204
    ensures r.Ok? ==>
              && r.value.experiment == Choose(b, selected, choice).value
              && r.value.slot == b.catalog.details[r.value.experiment].slot
              && r.value.user == b.user
              && r.value.when == Window(now, now + duration)
    ensures Choose(b, selected, choice).Ok? && Choose(b, selected, choice).value !in b.catalog.details ==>
              r == Err(KeyError(Choose(b, selected, choice).value))
    ensures Choose(b, selected, choice).Ok? && Choose(b, selected, choice).value in b.catalog.details
            && status != 204 ==>
              r == Err(BookFailed(Choose(b, selected, choice).value, duration))
  {
    match Choose(b, selected, choice)
    case Err(e) => Err(e)
    case Ok(name) =>
      if name !in b.catalog.details then Err(KeyError(name))
      else
        var request := Reservation(name, b.catalog.details[name].slot, b.user, Window(now, now + duration));
        if status != 204 then Err(BookFailed(name, duration)) else Ok(request)
  }

  /**
    With nothing available, `book` without a selection always raises, and its
    error carries the number exactly when the filter had one.
   */
  lemma NothingAvailableRaises(b: Booker, duration: Time, now: Time, choice: nat, status: int)
    requires b.filter.Some? && b.filter.value.available == []
    ensures var f := b.filter.value;
            Book(b, duration, "", now, choice, status) ==
              Err(if f.number == "" then NoMatch(f.name) else NoMatchNumber(f.name, f.number))
  {
  }

  /** Every available experiment is booked by some choice. */
  lemma EveryAvailableCanBeChosen(b: Booker, duration: Time, now: Time, i: nat)
    requires b.filter.Some? && i < |b.filter.value.available|
    requires b.filter.value.available[i] in b.catalog.details
    ensures Book(b, duration, "", now, i, 204).Ok?
    ensures Book(b, duration, "", now, i, 204).value.experiment == b.filter.value.available[i]
  {
  }

  // ---------------------------------------------------------------- cancel

  /** `cancel_booking(name)` given the delete's status: only 404 returns normally. */
  function CancelBooking(name: string, status: int): (r: Result<()>)
    ensures r.Ok? <==> status == 404
    ensures r.Err? ==> r.error == CancelFailed(name)
  {
    if status != 404 then Err(CancelFailed(name)) else Ok(())
  }

  function BookingNames(bookings: seq<Booking>): seq<string>
  {
    seq(|bookings|, i requires 0 <= i < |bookings| => bookings[i].name)
  }

  /** What `cancel_all_bookings` ends with, and the deletes it sent on the way. */
  datatype CancelAll = CancelAll(outcome: Outcome<Booker>, deletes: seq<string>)

  /**
    `cancel_all_bookings`: refresh, send a delete for every current booking
    (each delete's own failure is swallowed, so its status plays no part),
    refresh again, and raise if any booking is still current.
   */
  function CancelAllBookings(b: Booker,
                             now: Time, login: LoginReply, first: BookingsReply,
                             later: Time, again: LoginReply, second: BookingsReply): (r: CancelAll)
    ensures GetBookings(b, now, login, first).Raised? ==>
              r == CancelAll(GetBookings(b, now, login, first), [])
    ensures GetBookings(b, now, login, first).Done? ==>
              var current := GetBookings(b, now, login, first).state.bookings;
              && |r.deletes| == |current|
              && forall i :: 0 <= i < |current| ==> r.deletes[i] == current[i].name
    ensures r.outcome.Done? ==> r.outcome.state.bookings == []
    ensures r.outcome.Done? <==>
              && GetBookings(b, now, login, first).Done?
              && GetBookings(GetBookings(b, now, login, first).state, later, again, second).Done?
              && forall i :: 0 <= i < |second.bookings| ==> !Current(second.bookings[i], later)
    ensures GetBookings(b, now, login, first).Done? ==>
              var refreshed := GetBookings(GetBookings(b, now, login, first).state, later, again, second);
              && (refreshed.Raised? ==> r.outcome == refreshed)
              && (refreshed.Done? && r.outcome.Raised? ==>
                    r.outcome == Raised(refreshed.state, BookingsRemain) && |refreshed.state.bookings| > 0)
  {
    match GetBookings(b, now, login, first)
    case Raised(s, e) => CancelAll(Raised(s, e), [])
    case Done(s) =>
      var deletes := BookingNames(s.bookings);
      match GetBookings(s, later, again, second)
      case Raised(t, e) => CancelAll(Raised(t, e), deletes)
      case Done(t) =>
        if |t.bookings| > 0 then CancelAll(Raised(t, BookingsRemain), deletes)
        else CancelAll(Done(t), deletes)
  }
}

/**
  The data model of the booking client: the state a `Booker` keeps between
  calls, the records the booking server sends back, and the conditions the
  client raises.

  Times are instants in microseconds (the resolution of Python's datetime);
  ISO strings, time zones and JSON decoding are replaced by typed fields.
 */
module Types {

  /** An instant or a span of time, in microseconds. */
  type Time = int

  const Second: Time := 1_000_000

  /** `ensure_logged_in` logs in again unless the token outlives now by this much. */
  const LoginMargin: Time := 2 * 60 * Second

  /** `check_slot_available` counts a window as open now when it starts by now + 1 s. */
  const StartTolerance: Time := Second

  datatype Option<+T> = None | Some(value: T)

  /** The conditions the client raises, one per modelled `raise` site of the client. */
  datatype Error =
    | LoginFailed(user: string, server: string)
    | GroupJoinFailed(group: string)
    | GroupDetailsFailed(group: string)
    | SlotQueryFailed(slot: string)
    | BookingsFailed(user: string, server: string)
    | NoMatch(filter: string)
    | NoMatchNumber(filter: string, number: string)
    | BookFailed(experiment: string, duration: Time)
    | CancelFailed(booking: string)
    | BookingsRemain
    | ActivityFailed(booking: string)
      /**
        raised as a KeyError, which `Experiment.__enter__` catches to fall
        back to making a booking
       */
    | ActivityNotFound(experiment: string)
      /** a plain exception, which `Experiment.__enter__` does not catch */
    | StreamNotFound(which: string)
    | StreamAccessFailed(which: string, experiment: string)
      /** a dictionary lookup of a missing key */
    | KeyError(key: string)
      /** `when["start"]` on the empty list that stands for "no window" */
    | TypeError
      /** reading an attribute the object does not have */
    | AttributeError(attribute: string)
      /**
        the websocket stopped delivering: a receive timeout, a closed channel,
        or, with no timeout, a receive that never returns
       */
    | Timeout

  /** The result of a call that returns a value or raises. */
  datatype Result<+T> = Ok(value: T) | Err(error: Error)

  /**
    The result of a method on a mutable object: the object's state afterwards,
    and whether the call raised. A raise keeps whatever the method had already
    changed.
   */
  datatype Outcome<+S> = Done(state: S) | Raised(state: S, error: Error)

  /** An availability window or a booking window, closed at both ends. */
  datatype Window = Window(start: Time, end: Time)

  // ---------------------------------------------------------------- catalog

  /** One slot of a policy: its identifier and its description's name. */
  datatype SlotEntry = SlotEntry(id: string, name: string)

  /** A policy of a group, with its slots in the server's order. */
  datatype Policy = Policy(slots: seq<SlotEntry>)

  /** A slot's entry as the client keeps it: tagged with the slot identifier. */
  datatype Detail = Detail(slot: string, name: string)

  /**
    The flattened catalog: every experiment name seen, in the order seen and
    with repeats, and the table from name to slot entry.
   */
  datatype Catalog = Catalog(experiments: seq<string>, details: map<string, Detail>)

  // --------------------------------------------------------------- bookings

  datatype Booking = Booking(name: string, slot: string, when: Window)

  /** A booking request the client sent: slot, user and requested window. */
  datatype Reservation = Reservation(experiment: string, slot: string, user: string, when: Window)

  // ------------------------------------------------------------- activities

  /** A stream of an activity: its role (`for`), exchange url and token. */
  datatype Stream = Stream(role: string, url: string, token: string)

  /** An activity as cached: tagged with the booking it was fetched for. */
  datatype Activity = Activity(name: string, streams: seq<Stream>, exp: Time, booking: string)

  // ---------------------------------------------------------------- filter

  /** What `filter_experiments` leaves behind for `book`. */
  datatype Filter = Filter(
    name: string,
    number: string,
    listed: seq<string>,
    available: seq<string>,
    unavailable: map<string, Time>)

  // ---------------------------------------------------------------- booker

  /**
    The state of a `Booker`. `filter` is `None` until `filter_experiments`
    has run (before that the object has no `available` attribute).
   */
  datatype Booker = Booker(
    server: string,
    user: string,
    token: string,
    exp: Time,
    groups: seq<string>,
    catalog: Catalog,
    bookings: seq<Booking>,
    activities: map<string, Activity>,
    filter: Option<Filter>)

  // --------------------------------------------------------- server replies

  datatype LoginReply = LoginReply(status: int, token: string, exp: int)

  datatype GroupReply = GroupReply(status: int, policies: seq<Policy>)

  datatype SlotReply = SlotReply(status: int, windows: seq<Window>)

  datatype BookingsReply = BookingsReply(status: int, bookings: seq<Booking>)

  datatype ActivityReply = ActivityReply(status: int, name: string, streams: seq<Stream>, exp: Time)

  datatype UriReply = UriReply(status: int, uri: string)
}

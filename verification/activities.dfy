/**
  The activity/stream resolver: the storing step of `Booker.get_activity`
  (src/practable/book.py:237-261) and `Booker.connect`
  (src/practable/book.py:313-337).
 */
module Activities {
  import opened Types

  /**
    `get_activity(booking)` given the server's reply: on status 200 the
    activity, tagged with the booking it belongs to, is stored under its
    description's name, replacing any earlier activity of that name.
   */
  function GetActivity(b: Booker, booking: string, reply: ActivityReply): (r: Outcome<Booker>)
    ensures r.Raised? <==> reply.status != 200
    ensures r.Raised? ==> r.state == b && r.error == ActivityFailed(booking)
    ensures r.Done? ==>
              && r.state.activities.Keys == b.activities.Keys + {reply.name}
              && r.state.activities[reply.name] == Activity(reply.name, reply.streams, reply.exp, booking)
              && forall n :: n in b.activities && n != reply.name ==> r.state.activities[n] == b.activities[n]
    ensures r.state == b.(activities := r.state.activities)
  {
    if reply.status != 200 then Raised(b, ActivityFailed(booking))
    else Done(b.(activities := b.activities[reply.name := Activity(reply.name, reply.streams, reply.exp, booking)]))
  }

  /**
    The position of the stream `connect`'s loop settles on: it overwrites its
    choice at every stream whose role is `which`, so the last such stream
    wins; `None` when there is none.
   */
  function LastFor(streams: seq<Stream>, which: string): (k: Option<nat>)
    ensures k.Some? ==> k.value < |streams| && streams[k.value].role == which
    ensures k.Some? ==> forall j :: k.value < j < |streams| ==> streams[j].role != which
    ensures k.None? ==> forall j :: 0 <= j < |streams| ==> streams[j].role != which
    decreases |streams|
  {
    if |streams| == 0 then None
    else if streams[|streams| - 1].role == which then Some(|streams| - 1)
    else LastFor(streams[..|streams| - 1], which)
  }

  /**
    The lookup half of `connect(name, which)`: a missing activity is a
    not-found KeyError naming the experiment; an activity without a stream
    of that role is a distinct "stream not found".
   */
  function SelectStream(activities: map<string, Activity>, name: string, which: string): (r: Result<Stream>)
    ensures name !in activities ==> r == Err(ActivityNotFound(name))
    ensures name in activities ==>
              (r.Ok? <==> exists i :: 0 <= i < |activities[name].streams| && activities[name].streams[i].role == which)
    ensures name in activities && r.Err? ==> r.error == StreamNotFound(which)
    ensures r.Ok? ==>
              exists i :: 0 <= i < |activities[name].streams| && activities[name].streams[i] == r.value
                && r.value.role == which
                && forall j :: i < j < |activities[name].streams| ==> activities[name].streams[j].role != which
  {
    if name !in activities then Err(ActivityNotFound(name))
    else
      match LastFor(activities[name].streams, which)
      case None => Err(StreamNotFound(which))
      case Some(k) => Ok(activities[name].streams[k])
  }

  /**
    `connect(name, which)`, where `exchange` gives the reply to posting a
    stream's token to its url: on status 200 the reply's uri is the result.
   */
  function Connect(b: Booker, name: string, which: string, exchange: Stream -> UriReply): (r: Result<string>)
    ensures SelectStream(b.activities, name, which).Err? ==> r == Err(SelectStream(b.activities, name, which).error)
    ensures r.Ok? <==>
              && SelectStream(b.activities, name, which).Ok?
              && exchange(SelectStream(b.activities, name, which).value).status == 200
    ensures r.Ok? ==> r.value == exchange(SelectStream(b.activities, name, which).value).uri
    ensures SelectStream(b.activities, name, which).Ok? && r.Err? ==> r.error == StreamAccessFailed(which, name)
  {
    match SelectStream(b.activities, name, which)
    case Err(e) => Err(e)
    case Ok(s) =>
      var reply := exchange(s);
      if reply.status != 200 then Err(StreamAccessFailed(which, name)) else Ok(reply.uri)
  }

  /**
    Once `get_activity` has stored an activity with a stream of the wanted
    role, connecting to it by its name selects the last such stream of that
    activity, whatever else was cached.
   */
  lemma ConnectAfterGetActivity(b: Booker, booking: string, reply: ActivityReply, which: string, i: int)
    requires reply.status == 200
    requires 0 <= i < |reply.streams| && reply.streams[i].role == which
    requires forall j :: i < j < |reply.streams| ==> reply.streams[j].role != which
    ensures SelectStream(GetActivity(b, booking, reply).state.activities, reply.name, which) == Ok(reply.streams[i])
  {
    assert LastFor(reply.streams, which) == Some(i);
  }
}

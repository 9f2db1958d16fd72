/**
  The availability filter: `Booker.check_slot_available`
  (src/practable/book.py:143-161) and `Booker.filter_experiments`
  (src/practable/book.py:210-235). Names are matched against the catalog,
  then each listed name's slot is asked for its next window.
 */
module Availability {
  import opened Types
  import opened Text
  import opened Seqs

  /** What `check_slot_available` returns: open now, and the first window if any. */
  datatype Probe = Probe(openNow: bool, when: Option<Window>)

  /**
    `check_slot_available(slot)` given the slot query's reply: only the first
    window counts, and it is open now when it starts within one second of now.
   */
  function CheckSlot(slot: string, reply: SlotReply, now: Time): (r: Result<Probe>)
    ensures r.Ok? <==> reply.status == 200
    ensures r.Err? ==> r.error == SlotQueryFailed(slot)
    ensures r.Ok? ==> (r.value.when.None? <==> |reply.windows| == 0)
    ensures r.Ok? && r.value.when.Some? ==> r.value.when.value == reply.windows[0]
    ensures r.Ok? ==> (r.value.openNow <==> r.value.when.Some? && r.value.when.value.start <= now + StartTolerance)
  {
    if reply.status != 200 then Err(SlotQueryFailed(slot))
    else if |reply.windows| < 1 then Ok(Probe(false, None))
    else
      var w := reply.windows[0];
      Ok(Probe(w.start <= now + StartTolerance, Some(w)))
  }

  // ------------------------------------------------------------ matching

  /** The name test of `filter_experiments`' loop. */
  function Matches(sub: string, number: string): string -> bool
  {
    name => Contains(name, sub) && (number == "" || Contains(name, number))
  }

  /**
    The names `filter_experiments` lists: in exact mode a name present in the
    catalog lists just itself; otherwise (also in exact mode when the name is
    absent) every catalog name containing `sub` and `number`, in catalog order,
    repeats kept.
   */
  function Listed(experiments: seq<string>, sub: string, number: string, exact: bool): (r: seq<string>)
    ensures exact && sub in experiments ==> r == [sub]
    ensures !(exact && sub in experiments) ==>
              forall n :: n in r <==> n in experiments && Occurs(sub, n) && Occurs(number, n)
    ensures !(exact && sub in experiments) ==>
              forall n :: multiset(r)[n] ==
                if Occurs(sub, n) && Occurs(number, n) then multiset(experiments)[n] else 0
  {
    assert forall n: string :: Occurs("", n) by {
      forall n: string ensures Occurs("", n) {
        assert "" <= n[0..];
      }
    }
    if exact && sub in experiments then [sub]
    else Keep(experiments, Matches(sub, number))
  }

  /** Outside exact mode the listing keeps catalog order: it distributes over concatenation. */
  lemma ListedKeepsOrder(a: seq<string>, b: seq<string>, sub: string, number: string)
    ensures Listed(a + b, sub, number, false) == Listed(a, sub, number, false) + Listed(b, sub, number, false)
  {
    KeepConcat(a, b, Matches(sub, number));
  }

  /** Exact mode with a name the catalog lacks lists what substring mode lists. */
  lemma ExactMissFallsBack(experiments: seq<string>, sub: string, number: string)
    requires sub !in experiments
    ensures Listed(experiments, sub, number, true) == Listed(experiments, sub, number, false)
  {
  }

  /** So exact mode can list more than one name. */
  lemma ExactMissListsMany()
    ensures Listed(["Spinner 1", "Spinner 2"], "Spinner", "", true) == ["Spinner 1", "Spinner 2"]
  {
    assert Contains("Spinner 1", "Spinner") by { assert "Spinner" <= "Spinner 1"; }
    assert Contains("Spinner 2", "Spinner") by { assert "Spinner" <= "Spinner 2"; }
  }

  // ------------------------------------------------------------ partition

  /** The listed name has a detail, its slot query succeeds and reports a window. */
  predicate Probeable(details: map<string, Detail>, slots: string -> SlotReply, name: string)
  {
    name in details
    && slots(details[name].slot).status == 200
    && |slots(details[name].slot).windows| > 0
  }

  /** The listed name's slot's first window starts by now + 1 s. */
  predicate OpenNow(details: map<string, Detail>, slots: string -> SlotReply, now: Time, name: string)
  {
    Probeable(details, slots, name)
    && slots(details[name].slot).windows[0].start <= now + StartTolerance
  }

  function OpenNowIn(details: map<string, Detail>, slots: string -> SlotReply, now: Time): string -> bool
  {
    name => OpenNow(details, slots, now, name)
  }

  /** The start of the listed name's slot's first window. */
  function NextStart(details: map<string, Detail>, slots: string -> SlotReply, name: string): Time
    requires Probeable(details, slots, name)
  {
    slots(details[name].slot).windows[0].start
  }

  /** What goes wrong when a listed name is not probeable, in the order the code finds it. */
  function ProbeFailure(details: map<string, Detail>, slots: string -> SlotReply, name: string): Error
  {
    if name !in details then KeyError(name)
    else if slots(details[name].slot).status != 200 then SlotQueryFailed(details[name].slot)
    else TypeError
  }

  /** The first position of a listed name that is not probeable, or `|listed|`. */
  function FirstUnprobeable(listed: seq<string>, details: map<string, Detail>, slots: string -> SlotReply): (k: nat)
    ensures k <= |listed|
    ensures forall j :: 0 <= j < k ==> Probeable(details, slots, listed[j])
    ensures k < |listed| ==> !Probeable(details, slots, listed[k])
    decreases |listed|
  {
    if |listed| == 0 then 0
    else
      var k := FirstUnprobeable(listed[..|listed| - 1], details, slots);
      if k < |listed| - 1 then k
      else if !Probeable(details, slots, listed[|listed| - 1]) then |listed| - 1
      else |listed|
  }

  datatype Partition = Partition(available: seq<string>, unavailable: map<string, Time>)

  /**
    The second loop of `filter_experiments`: each listed name is open now and
    appended to `available`, or mapped in `unavailable` to its next start. A
    name without a detail, a failed query, or a slot with no window at all
    (`when["start"]` on an empty list) raises, keeping the partition built so far.
   */
  function Split(listed: seq<string>, details: map<string, Detail>, slots: string -> SlotReply, now: Time)
    : (r: Outcome<Partition>)
    ensures r.Done? <==> forall i :: 0 <= i < |listed| ==> Probeable(details, slots, listed[i])
    ensures r.Done? ==> r.state.available == Keep(listed, OpenNowIn(details, slots, now))
    ensures r.Done? ==> r.state.unavailable == LaterStarts(listed, details, slots, now)
    ensures r.Raised? ==>
              var k := FirstUnprobeable(listed, details, slots);
              k < |listed| && r.error == ProbeFailure(details, slots, listed[k])
    decreases |listed|
  {
    if |listed| == 0 then Done(Partition([], map[]))
    else
      var front := listed[..|listed| - 1];
      var name := listed[|listed| - 1];
      assert listed == front + [name];
      match Split(front, details, slots, now)
      case Raised(p, e) => Raised(p, e)
      case Done(p) =>
        var r := Place(p, name, details, slots, now);
        if r.Done? then
          LaterStartsStep(front, name, details, slots, now);
          r
        else r
  }

  /** The listed names not open now, each mapped to the start of its slot's first window. */
  function LaterStarts(listed: seq<string>, details: map<string, Detail>, slots: string -> SlotReply, now: Time)
    : map<string, Time>
  {
    map n | n in listed && Probeable(details, slots, n) && !OpenNow(details, slots, now, n)
      :: NextStart(details, slots, n)
  }

  lemma LaterStartsStep(front: seq<string>, name: string, details: map<string, Detail>,
                        slots: string -> SlotReply, now: Time)
    requires Probeable(details, slots, name)
    ensures LaterStarts(front + [name], details, slots, now) ==
              if OpenNow(details, slots, now, name) then LaterStarts(front, details, slots, now)
              else LaterStarts(front, details, slots, now)[name := NextStart(details, slots, name)]
  {
    assert forall n :: n in front + [name] <==> n in front || n == name;
  }

  /** One turn of the second loop of `filter_experiments`, for the listed name `name`. */
  function Place(p: Partition, name: string, details: map<string, Detail>, slots: string -> SlotReply, now: Time)
    : (r: Outcome<Partition>)
    ensures r.Done? <==> Probeable(details, slots, name)
    ensures r.Raised? ==> r.state == p && r.error == ProbeFailure(details, slots, name)
    ensures r.Done? && OpenNow(details, slots, now, name) ==>
              r.state == p.(available := p.available + [name])
    ensures r.Done? && !OpenNow(details, slots, now, name) ==>
              r.state == p.(unavailable := p.unavailable[name := NextStart(details, slots, name)])
  {
    if name !in details then Raised(p, KeyError(name))
    else
      var slot := details[name].slot;
      match CheckSlot(slot, slots(slot), now)
      case Err(e) => Raised(p, e)
      case Ok(probe) =>
        if probe.openNow then Done(p.(available := p.available + [name]))
        else
          match probe.when
          case None => Raised(p, TypeError)
          case Some(w) => Done(p.(unavailable := p.unavailable[name := w.start]))
  }

  /**
    A raising split leaves exactly the partition of the names before the
    first unprobeable one; `book` would then choose from that partial list.
   */
  lemma {:induction false} SplitRaisedKeepsPrefix(listed: seq<string>, details: map<string, Detail>,
                                                  slots: string -> SlotReply, now: Time)
    requires Split(listed, details, slots, now).Raised?
    ensures var k := FirstUnprobeable(listed, details, slots);
            k < |listed|
            && Split(listed[..k], details, slots, now) == Done(Split(listed, details, slots, now).state)
    decreases |listed|
  {
    var front := listed[..|listed| - 1];
    var k := FirstUnprobeable(listed, details, slots);
    if Split(front, details, slots, now).Raised? {
      SplitRaisedKeepsPrefix(front, details, slots, now);
      assert front[..k] == listed[..k];
    } else {
      assert listed[..k] == front;
    }
  }

  /** When the partition is built, every listed name is in exactly one of its two parts. */
  lemma PartitionIsTotal(listed: seq<string>, details: map<string, Detail>, slots: string -> SlotReply, now: Time, n: string)
    requires forall i :: 0 <= i < |listed| ==> Probeable(details, slots, listed[i])
    requires n in listed
    ensures Split(listed, details, slots, now).Done?
    ensures var p := Split(listed, details, slots, now).state;
            (n in p.available) != (n in p.unavailable)
  {
  }

  /** A listed name whose slot reports no window at all makes the split raise. */
  lemma NoWindowRaises(listed: seq<string>, details: map<string, Detail>, slots: string -> SlotReply, now: Time, i: int)
    requires 0 <= i < |listed| && listed[i] in details
    requires slots(details[listed[i]].slot) == SlotReply(200, [])
    ensures !OpenNow(details, slots, now, listed[i])
    ensures Split(listed, details, slots, now).Raised?
  {
  }

  /**
    `filter_experiments(sub, number, exact)` at time `now`: records the filter
    and its three results on the Booker, even when a slot probe raises.
   */
  function FilterExperiments(b: Booker, sub: string, number: string, exact: bool, now: Time,
                             slots: string -> SlotReply): (r: Outcome<Booker>)
    ensures r.state == b.(filter := r.state.filter)
    ensures r.state.filter.Some?
    ensures var f := r.state.filter.value;
            && f.name == sub && f.number == number
            && f.listed == Listed(b.catalog.experiments, sub, number, exact)
    ensures var f := r.state.filter.value;
            r.Done? <==> forall i :: 0 <= i < |f.listed| ==> Probeable(b.catalog.details, slots, f.listed[i])
    ensures var f := r.state.filter.value;
            r.Done? ==>
              && f.available == Keep(f.listed, OpenNowIn(b.catalog.details, slots, now))
              && f.unavailable == LaterStarts(f.listed, b.catalog.details, slots, now)
    ensures var f := r.state.filter.value;
            r.Raised? ==>
              var k := FirstUnprobeable(f.listed, b.catalog.details, slots);
              && k < |f.listed|
              && r.error == ProbeFailure(b.catalog.details, slots, f.listed[k])
              && Split(f.listed[..k], b.catalog.details, slots, now) == Done(Partition(f.available, f.unavailable))
  {
    var listed := Listed(b.catalog.experiments, sub, number, exact);
    var split := Split(listed, b.catalog.details, slots, now);
    var f := Filter(sub, number, listed, split.state.available, split.state.unavailable);
    match split
    case Done(_) => Done(b.(filter := Some(f)))
    case Raised(_, e) =>
      SplitRaisedKeepsPrefix(listed, b.catalog.details, slots, now);
      Raised(b.(filter := Some(f)), e)
  }
}

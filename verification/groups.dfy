/**
  The catalog resolver: `Booker.add_group` (src/practable/book.py:69-79) and
  `Booker.get_group_details` (src/practable/book.py:292-311), which flattens
  each joined group's policy -> slot tree into the experiment name list and
  the name -> slot table.
 */
module Groups {
  import opened Types
  import opened Session

  /** A slot's entry as stored: tagged with its slot identifier. */
  function Tag(e: SlotEntry): Detail
  {
    Detail(e.id, e.name)
  }

  /** The entries' names, in order. */
  function Names(entries: seq<SlotEntry>): seq<string>
  {
    seq(|entries|, i requires 0 <= i < |entries| => entries[i].name)
  }

  /** The slot entries of one group reply, in visiting order: policies in order, slots in order. */
  function Flatten(policies: seq<Policy>): seq<SlotEntry>
    decreases |policies|
  {
    if |policies| == 0 then []
    else Flatten(policies[..|policies| - 1]) + policies[|policies| - 1].slots
  }

  /** The slot entries of every group's reply, in visiting order. */
  function Visit(groups: seq<string>, server: string -> GroupReply): seq<SlotEntry>
    decreases |groups|
  {
    if |groups| == 0 then []
    else Visit(groups[..|groups| - 1], server) + Flatten(server(groups[|groups| - 1]).policies)
  }

  /** No entry after position `i` carries the same name as the entry at `i`. */
  predicate LastNamed(entries: seq<SlotEntry>, i: int)
    requires 0 <= i < |entries|
  {
    forall j :: i < j < |entries| ==> entries[j].name != entries[i].name
  }

  /**
    The inner loop of `get_group_details`: append every entry's name and store
    the entry, tagged, under its name. The table gains exactly the names the
    entries mention; `AbsorbLastWins` and `AbsorbKeepsOthers` say what it
    holds under them.
   */
  function Absorb(c: Catalog, entries: seq<SlotEntry>): (r: Catalog)
    ensures r.experiments == c.experiments + Names(entries)
    ensures forall n :: n in r.details <==> n in c.details || n in Names(entries)
    decreases |entries|
  {
    if |entries| == 0 then c
    else
      var front := entries[..|entries| - 1];
      var e := entries[|entries| - 1];
      var prior := Absorb(c, front);
      assert Names(entries) == Names(front) + [e.name];
      Catalog(prior.experiments + [e.name], prior.details[e.name := Tag(e)])
  }

  /** Under each name the entries mention, the table holds the last entry with that name. */
  lemma {:induction false} AbsorbLastWins(c: Catalog, entries: seq<SlotEntry>, i: int)
    requires 0 <= i < |entries| && LastNamed(entries, i)
    ensures entries[i].name in Absorb(c, entries).details
    ensures Absorb(c, entries).details[entries[i].name] == Tag(entries[i])
    decreases |entries|
  {
    var last := |entries| - 1;
    var front := entries[..last];
    assert Names(entries) == Names(front) + [entries[last].name];
    if i < last {
      assert entries[last].name != entries[i].name;
      assert front[i] == entries[i];
      assert LastNamed(front, i);
      AbsorbLastWins(c, front, i);
    }
  }

  /** Names the entries do not mention keep their old entry. */
  lemma {:induction false} AbsorbKeepsOthers(c: Catalog, entries: seq<SlotEntry>, n: string)
    requires n in c.details && n !in Names(entries)
    ensures Absorb(c, entries).details[n] == c.details[n]
    decreases |entries|
  {
    if |entries| > 0 {
      var front := entries[..|entries| - 1];
      assert Names(entries) == Names(front) + [entries[|entries| - 1].name];
      AbsorbKeepsOthers(c, front, n);
    }
  }

  /** Absorbing two runs of entries one after the other is absorbing their concatenation. */
  lemma {:induction false} AbsorbConcat(c: Catalog, a: seq<SlotEntry>, b: seq<SlotEntry>)
    ensures Absorb(Absorb(c, a), b) == Absorb(c, a + b)
    decreases |b|
  {
    if |b| == 0 {
      assert a + b == a;
    } else {
      var b' := b[..|b| - 1];
      assert (a + b)[..|a + b| - 1] == a + b';
      assert (a + b)[|a + b| - 1] == b[|b| - 1];
      AbsorbConcat(c, a, b');
    }
  }

  /** Every name the entries mention has a last entry. */
  lemma {:induction false} HasLastNamed(entries: seq<SlotEntry>, n: string)
    requires n in Names(entries)
    ensures exists i :: 0 <= i < |entries| && entries[i].name == n && LastNamed(entries, i)
    decreases |entries|
  {
    var last := |entries| - 1;
    if entries[last].name != n {
      var front := entries[..last];
      assert Names(entries) == Names(front) + [entries[last].name];
      HasLastNamed(front, n);
      var i :| 0 <= i < |front| && front[i].name == n && LastNamed(front, i);
      assert entries[i] == front[i];
      assert LastNamed(entries, i);
    } else {
      assert LastNamed(entries, last);
    }
  }

  /** Absorbing the same entries a second time duplicates the names but leaves the table as it was. */
  lemma AbsorbTwice(c: Catalog, entries: seq<SlotEntry>)
    ensures Absorb(Absorb(c, entries), entries).experiments ==
              c.experiments + Names(entries) + Names(entries)
    ensures Absorb(Absorb(c, entries), entries).details == Absorb(c, entries).details
  {
    var once := Absorb(c, entries);
    var twice := Absorb(once, entries);
    forall n | n in twice.details
      ensures n in once.details && twice.details[n] == once.details[n]
    {
      if n in Names(entries) {
        HasLastNamed(entries, n);
        var i :| 0 <= i < |entries| && entries[i].name == n && LastNamed(entries, i);
        AbsorbLastWins(c, entries, i);
        AbsorbLastWins(once, entries, i);
      } else {
        AbsorbKeepsOthers(once, entries, n);
      }
    }
  }

  /** The position of the first group whose reply is not 200, or `|groups|` when every reply is. */
  function FirstRefused(groups: seq<string>, server: string -> GroupReply): (k: nat)
    ensures k <= |groups|
    ensures forall j :: 0 <= j < k ==> server(groups[j]).status == 200
    ensures k < |groups| ==> server(groups[k]).status != 200
    decreases |groups|
  {
    if |groups| == 0 then 0
    else
      var k := FirstRefused(groups[..|groups| - 1], server);
      if k < |groups| - 1 then k
      else if server(groups[|groups| - 1]).status != 200 then |groups| - 1
      else |groups|
  }

  /**
    The group loop of `get_group_details` over `groups`, where `server` gives
    each group's reply. The first group whose reply is not 200 raises, keeping
    what the earlier groups added.
   */
  function Refresh(c: Catalog, groups: seq<string>, server: string -> GroupReply): (r: Outcome<Catalog>)
    ensures r.Done? <==> forall i :: 0 <= i < |groups| ==> server(groups[i]).status == 200
    ensures r.Done? ==> r.state == Absorb(c, Visit(groups, server))
    ensures r.Raised? ==>
              var k := FirstRefused(groups, server);
              k < |groups| && r.error == GroupDetailsFailed(groups[k])
              && r.state == Absorb(c, Visit(groups[..k], server))
    decreases |groups|
  {
    if |groups| == 0 then Done(c)
    else
      var front := groups[..|groups| - 1];
      var g := groups[|groups| - 1];
      assert forall i :: 0 <= i < |front| ==> groups[i] == front[i];
      match Refresh(c, front, server)
      case Raised(s, e) =>
        var k := FirstRefused(front, server);
        assert front[..k] == groups[..k];
        Raised(s, e)
      case Done(s) =>
        var reply := server(g);
        if reply.status != 200 then
          Raised(s, GroupDetailsFailed(g))
        else
          AbsorbConcat(c, Visit(front, server), Flatten(reply.policies));
          Done(Absorb(s, Flatten(reply.policies)))
  }

  /** `get_group_details`: log in if due, then refresh the catalog from every joined group. */
  function GetGroupDetails(b: Booker, now: Time, login: LoginReply, server: string -> GroupReply): (r: Outcome<Booker>)
    ensures EnsureLoggedIn(b, now, login).Raised? ==> r == EnsureLoggedIn(b, now, login)
    ensures r.Done? <==>
              EnsureLoggedIn(b, now, login).Done?
              && forall i :: 0 <= i < |b.groups| ==> server(b.groups[i]).status == 200
    ensures r.Done? ==> r.state.catalog == Absorb(b.catalog, Visit(b.groups, server))
    ensures EnsureLoggedIn(b, now, login).Done? && r.Raised? ==>
              var k := FirstRefused(b.groups, server);
              && k < |b.groups|
              && r.error == GroupDetailsFailed(b.groups[k])
              && r.state.catalog == Absorb(b.catalog, Visit(b.groups[..k], server))
    ensures r.state == EnsureLoggedIn(b, now, login).state.(catalog := r.state.catalog)
  {
    match EnsureLoggedIn(b, now, login)
    case Raised(s, e) => Raised(s, e)
    case Done(s) =>
      match Refresh(s.catalog, s.groups, server)
      case Done(c) => Done(s.(catalog := c))
      case Raised(c, e) => Raised(s.(catalog := c), e)
  }

  /**
    After a successful `get_group_details` every slot's name has been appended
    to the experiment list, and each name maps to the last slot carrying it,
    tagged with that slot's identifier.
   */
  lemma GroupDetailsTable(b: Booker, now: Time, login: LoginReply, server: string -> GroupReply, i: int)
    requires GetGroupDetails(b, now, login, server).Done?
    requires 0 <= i < |Visit(b.groups, server)| && LastNamed(Visit(b.groups, server), i)
    ensures var c := GetGroupDetails(b, now, login, server).state.catalog;
            var e := Visit(b.groups, server)[i];
            && c.experiments == b.catalog.experiments + Names(Visit(b.groups, server))
            && e.name in c.details && c.details[e.name] == Detail(e.id, e.name)
  {
    AbsorbLastWins(b.catalog, Visit(b.groups, server), i);
  }

  /**
    Two successful refreshes in a row against the same replies list every name
    twice, while the name -> slot table ends as it was after the first.
   */
  lemma RepeatedRefreshDuplicates(b: Booker, now: Time, login: LoginReply, later: Time, again: LoginReply,
                                  server: string -> GroupReply)
    requires GetGroupDetails(b, now, login, server).Done?
    requires GetGroupDetails(GetGroupDetails(b, now, login, server).state, later, again, server).Done?
    ensures var once := GetGroupDetails(b, now, login, server).state;
            var twice := GetGroupDetails(once, later, again, server).state;
            && twice.catalog.experiments ==
                 b.catalog.experiments + Names(Visit(b.groups, server)) + Names(Visit(b.groups, server))
            && twice.catalog.details == once.catalog.details
  {
    AbsorbTwice(b.catalog, Visit(b.groups, server));
  }

  /** `add_group`: log in if due, then join; only status 204 records the group. */
  function AddGroup(b: Booker, group: string, now: Time, login: LoginReply, status: int): (r: Outcome<Booker>)
    ensures EnsureLoggedIn(b, now, login).Raised? ==> r == EnsureLoggedIn(b, now, login)
    ensures r.Done? <==> EnsureLoggedIn(b, now, login).Done? && status == 204
    ensures r.Done? ==> r.state.groups == b.groups + [group]
    ensures EnsureLoggedIn(b, now, login).Done? && status != 204 ==>
              r == Raised(EnsureLoggedIn(b, now, login).state, GroupJoinFailed(group))
    ensures r.state == EnsureLoggedIn(b, now, login).state.(groups := r.state.groups)
  {
    match EnsureLoggedIn(b, now, login)
    case Raised(s, e) => Raised(s, e)
    case Done(s) =>
      if status != 204 then Raised(s, GroupJoinFailed(group))
      else Done(s.(groups := s.groups + [group]))
  }
}

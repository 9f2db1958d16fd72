/**
  The booking path of `Experiment.__enter__` when no activity exists yet
  (src/practable/book.py:395-397): refresh the catalog, filter by name, book.
 */
module Scenario {
  import opened Types
  import opened Text
  import opened Seqs
  import opened Session
  import opened Groups
  import opened Availability
  import opened Reservations

  /** The catalog a single slot "S" named "Spinner 51" produces. */
  function SpinnerCatalog(): Catalog
  {
    Catalog(["Spinner 51"], map["Spinner 51" := Detail("S", "Spinner 51")])
  }

  /** Refreshing an empty catalog from group "G" with that one slot gives exactly that catalog. */
  lemma {:induction false} FetchSpinner(b: Booker, now: Time, login: LoginReply, server: string -> GroupReply)
    requires !NeedsLogin(b, now)
    requires b.groups == ["G"] && b.catalog == Catalog([], map[])
    requires server("G") == GroupReply(200, [Policy([SlotEntry("S", "Spinner 51")])])
    ensures GetGroupDetails(b, now, login, server) == Done(b.(catalog := SpinnerCatalog()))
  {
    var entries := [SlotEntry("S", "Spinner 51")];
    assert Flatten([Policy(entries)]) == entries by {
      assert [Policy(entries)][..0] == [];
    }
    assert Visit(["G"], server) == entries by {
      assert ["G"][..0] == [];
    }
    assert Absorb(b.catalog, entries) == SpinnerCatalog() by {
      assert entries[..0] == [];
      assert Absorb(b.catalog, entries[..0]) == b.catalog;
    }
    assert EnsureLoggedIn(b, now, login) == Done(b);
  }

  /** "Spinner" is not a whole catalog name, so exact mode lists every name containing it. */
  lemma ListSpinner()
    ensures Listed(["Spinner 51"], "Spinner", "", true) == ["Spinner 51"]
  {
    assert Contains("Spinner 51", "Spinner") by { assert "Spinner" <= "Spinner 51"; }
    var names: seq<string> := ["Spinner 51"];
    assert "Spinner" !in names;
    assert Matches("Spinner", "")("Spinner 51");
    assert names[..0] == [];
    assert Keep(names[..0], Matches("Spinner", "")) == [];
    assert Keep(names, Matches("Spinner", "")) == ["Spinner 51"];
    assert Listed(names, "Spinner", "", true) == Keep(names, Matches("Spinner", ""));
  }

  /** "Spinner 51" is open now when its slot's first window starts now. */
  lemma SplitSpinner(now: Time, slots: string -> SlotReply, end: Time)
    requires slots("S") == SlotReply(200, [Window(now, end)])
    ensures Split(["Spinner 51"], SpinnerCatalog().details, slots, now) == Done(Partition(["Spinner 51"], map[]))
  {
    var listed: seq<string> := ["Spinner 51"];
    assert listed[..0] == [];
    assert Split(listed[..0], SpinnerCatalog().details, slots, now) == Done(Partition([], map[]));
    var details := SpinnerCatalog().details;
    assert details["Spinner 51"].slot == "S";
    assert OpenNow(details, slots, now, "Spinner 51");
    var empty: seq<string> := [];
    assert empty + listed == listed;
    assert Place(Partition(empty, map[]), "Spinner 51", details, slots, now).state.available == listed;
  }

  /**
    Filtering that catalog for "Spinner" in exact mode (absent as a whole
    name, so it matches as a substring) finds "Spinner 51" open now when its
    next window starts now.
   */
  lemma FilterSpinner(b: Booker, now: Time, slots: string -> SlotReply, end: Time)
    requires b.catalog == SpinnerCatalog()
    requires slots("S") == SlotReply(200, [Window(now, end)])
    ensures FilterExperiments(b, "Spinner", "", true, now, slots) ==
              Done(b.(filter := Some(Filter("Spinner", "", ["Spinner 51"], ["Spinner 51"], map[]))))
  {
    ListSpinner();
    SplitSpinner(now, slots, end);
  }

  /**
    A group "G" offering one slot "S" named "Spinner 51" whose next window
    starts now: refreshing, filtering for "Spinner" in exact mode and booking
    three minutes reserves "S" for [now, now + 3 min], whichever experiment
    the random pick would choose.
   */
  lemma BookSpinner(b: Booker, now: Time, login: LoginReply, server: string -> GroupReply,
                    slots: string -> SlotReply, end: Time, choice: nat)
    requires !NeedsLogin(b, now)
    requires b.groups == ["G"] && b.catalog == Catalog([], map[])
    requires server("G") == GroupReply(200, [Policy([SlotEntry("S", "Spinner 51")])])
    requires slots("S") == SlotReply(200, [Window(now, end)])
    ensures var fetched := GetGroupDetails(b, now, login, server);
            var filtered := FilterExperiments(fetched.state, "Spinner", "", true, now, slots);
            && fetched.Done? && filtered.Done?
            && Book(filtered.state, 3 * 60 * Second, "", now, choice, 204) ==
                 Ok(Reservation("Spinner 51", "S", b.user, Window(now, now + 3 * 60 * Second)))
  {
    FetchSpinner(b, now, login, server);
    var fetched := GetGroupDetails(b, now, login, server).state;
    FilterSpinner(fetched, now, slots, end);
    var filtered := fetched.(filter := Some(Filter("Spinner", "", ["Spinner 51"], ["Spinner 51"], map[])));
    assert Choose(filtered, "", choice) == Ok("Spinner 51");
    assert filtered.catalog.details["Spinner 51"].slot == "S";
  }
}

/**
  The record accumulation loop of `Experiment.collect`
  (src/practable/book.py:414-428). The websocket is replaced by `incoming`,
  the messages a receive would return one after another before the channel
  gives up; JSON decoding is the partial function `parse`.
 */
module Collector {
  import opened Types
  import opened Text

  /** The decoded values of the non-empty lines that decode, in order. */
  function Parsed<J>(lines: seq<string>, parse: string -> Option<J>): (r: seq<J>)
    ensures |r| <= |lines|
    ensures forall k :: 0 <= k < |r| ==>
              exists i :: 0 <= i < |lines| && lines[i] != "" && parse(lines[i]) == Some(r[k])
    decreases |lines|
  {
    if |lines| == 0 then []
    else
      var front := lines[..|lines| - 1];
      var line := lines[|lines| - 1];
      var r := Parsed(front, parse);
      assert forall i :: 0 <= i < |front| ==> front[i] == lines[i];
      if line != "" && parse(line).Some? then r + [parse(line).value] else r
  }

  /** Every record the messages carry, message by message, line by line. */
  function Records<J>(messages: seq<string>, parse: string -> Option<J>): seq<J>
    decreases |messages|
  {
    if |messages| == 0 then []
    else Records(messages[..|messages| - 1], parse) + Parsed(SplitLines(messages[|messages| - 1]), parse)
  }

  /** The inner loop of `collect`: decode each non-empty line, skipping those that fail. */
  method DecodeLines<J>(lines: seq<string>, parse: string -> Option<J>) returns (got: seq<J>)
    ensures got == Parsed(lines, parse)
  {
    got := [];
    var j := 0;
    while j < |lines|
      invariant j <= |lines|
      invariant got == Parsed(lines[..j], parse)
    {
      var line := lines[j];
      assert lines[..j + 1][..j] == lines[..j];
      if line != "" {
        match parse(line)
        case Some(v) => got := got + [v];
        case None =>
      }
      j := j + 1;
    }
    assert lines[..j] == lines;
  }

  /**
    `collect(count)`: receive whole messages until at least `count` records
    have decoded. `received` is how many messages were taken: the fewest whose
    records reach `count`, every line of the last one included. When the
    messages run out first, the receive gives up (TimeoutError when a timeout
    is given) and the records are lost.
   */
  method Collect<J>(count: int, incoming: seq<string>, parse: string -> Option<J>)
    returns (r: Result<seq<J>>, received: nat)
    ensures received <= |incoming|
    ensures forall k :: 0 <= k < received ==> |Records(incoming[..k], parse)| < count
    ensures r.Ok? ==> r.value == Records(incoming[..received], parse) && |r.value| >= count
    ensures r.Err? ==>
              r.error == Timeout && received == |incoming| && |Records(incoming, parse)| < count
  {
    var messages: seq<J> := [];
    var i := 0;
    while |messages| < count
      invariant i <= |incoming|
      invariant messages == Records(incoming[..i], parse)
      invariant forall k :: 0 <= k < i ==> |Records(incoming[..k], parse)| < count
      decreases |incoming| - i
    {
      if i == |incoming| {
        assert incoming[..i] == incoming;
        return Err(Timeout), i;
      }
      var got := DecodeLines(SplitLines(incoming[i]), parse);
      assert incoming[..i + 1][..i] == incoming[..i];
      assert Records(incoming[..i + 1], parse) == messages + got;
      messages := messages + got;
      i := i + 1;
    }
    return Ok(messages), i;
  }

  /**
    One message with two decodable lines yields two records at once, so a
    collect of one record that receives it returns two.
   */
  lemma WholeMessageIsKept<J>(parse: string -> Option<J>)
    requires parse("{}").Some?
    ensures |Records(["{}\n{}"], parse)| == 2
  {
    var m := "{}\n{}";
    var one: seq<string> := ["{}"];
    assert Terminated(one[1..], "\n") == "";
    assert m == Terminated(one, "\n") + "{}";
    SplitTerminated(one, "\n", "{}");
    var lines := SplitLines(m);
    assert lines == ["{}", "{}"];
    assert lines[..1] == ["{}"];
    assert lines[..1][..0] == [];
    assert |Parsed(lines, parse)| == 2;
    var ms: seq<string> := [m];
    assert ms[..0] == [];
  }
}

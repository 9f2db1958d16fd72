/**
  The two string operations the client relies on: Python's `sub in name`
  (substring containment) and `str.splitlines()`.
 */
module Text {

  /** `sub` occurs in `s` at some position. */
  ghost predicate Occurs(sub: string, s: string)
  {
    exists i :: 0 <= i <= |s| - |sub| && sub <= s[i..]
  }

  /** Python's `sub in s` for strings; the empty string occurs everywhere. */
  function Contains(s: string, sub: string): (r: bool)
    ensures r <==> Occurs(sub, s)
    decreases |s|
  {
    if sub <= s then
      assert sub <= s[0..];
      true
    else if |s| == 0 then false
    else
      OccursStep(sub, s);
      Contains(s[1..], sub)
  }

  /** `sub` occurs in a non-empty `s` at its start or somewhere in its tail. */
  lemma OccursStep(sub: string, s: string)
    requires |s| > 0
    ensures Occurs(sub, s) <==> sub <= s || Occurs(sub, s[1..])
  {
    if Occurs(sub, s) && !(sub <= s) {
      var i :| 0 <= i <= |s| - |sub| && sub <= s[i..];
      assert i != 0;
      assert s[1..][i - 1..] == s[i..];
    }
    if Occurs(sub, s[1..]) {
      var i :| 0 <= i <= |s[1..]| - |sub| && sub <= s[1..][i..];
      assert s[1..][i..] == s[i + 1..];
    }
    if sub <= s {
      assert s[0..] == s;
    }
  }

  /** The characters `str.splitlines()` treats as line boundaries. */
  predicate IsBreak(c: char)
  {
    c in {'\n', '\r', '\U{B}', '\U{C}', '\U{1C}', '\U{1D}', '\U{1E}', '\U{85}', '\U{2028}', '\U{2029}'}
  }

  predicate BreakFree(s: string)
  {
    forall i :: 0 <= i < |s| ==> !IsBreak(s[i])
  }

  /** The index of the first boundary character of `s`, or `|s|` when there is none. */
  function FirstBreak(s: string): (i: nat)
    ensures i <= |s|
    ensures BreakFree(s[..i])
    ensures i < |s| ==> IsBreak(s[i])
  {
    if |s| == 0 then 0
    else if IsBreak(s[0]) then 0
    else
      var j := FirstBreak(s[1..]);
      assert s[..j + 1] == [s[0]] + s[1..][..j];
      j + 1
  }

  /**
    Python's `str.splitlines()`: the pieces between line boundaries, where
    "\r\n" is one boundary, and no final empty piece after a trailing boundary.
   */
  function SplitLines(s: string): (lines: seq<string>)
    ensures forall k :: 0 <= k < |lines| ==> BreakFree(lines[k])
    ensures |lines| == 0 <==> |s| == 0
    decreases |s|
  {
    if |s| == 0 then []
    else
      var i := FirstBreak(s);
      if i == |s| then [s]
      else
        var width := if s[i] == '\r' && i + 1 < |s| && s[i + 1] == '\n' then 2 else 1;
        [s[..i]] + SplitLines(s[i + width..])
  }

  /** A line ending `str.splitlines()` recognises: one boundary character, or "\r\n". */
  predicate IsEnding(sep: string)
  {
    sep == "\r\n" || (|sep| == 1 && IsBreak(sep[0]))
  }

  /** Lines each followed by `sep`, as a sender writes them. */
  function Terminated(lines: seq<string>, sep: string): string
  {
    if |lines| == 0 then "" else lines[0] + sep + Terminated(lines[1..], sep)
  }

  /**
    Splitting boundary-free lines, each ended by the same line ending and
    followed by a boundary-free last line that may be unterminated, gives the
    lines back; an empty last line adds no piece.
   */
  lemma {:induction false} SplitTerminated(lines: seq<string>, sep: string, last: string)
    requires IsEnding(sep)
    requires forall k :: 0 <= k < |lines| ==> BreakFree(lines[k])
    requires BreakFree(last)
    ensures SplitLines(Terminated(lines, sep) + last) == lines + LastPiece(last)
    decreases |lines|
  {
    if |lines| == 0 {
      assert Terminated(lines, sep) + last == last;
      SplitUnterminated(last);
    } else {
      var tail := Terminated(lines[1..], sep) + last;
      assert Terminated(lines, sep) + last == lines[0] + sep + tail;
      if sep == "\r" && |tail| > 0 {
        NoNewlineFirst(lines[1..], sep, last);
      }
      SplitOneLine(lines[0], sep, tail);
      SplitTerminated(lines[1..], sep, last);
      ConsConcat(lines, LastPiece(last));
    }
  }

  lemma ConsConcat<T>(xs: seq<T>, ys: seq<T>)
    requires |xs| > 0
    ensures xs + ys == [xs[0]] + (xs[1..] + ys)
  {
    assert xs == [xs[0]] + xs[1..];
  }

  /** The piece an unterminated last line contributes: none when it is empty. */
  function LastPiece(last: string): seq<string>
  {
    if last == "" then [] else [last]
  }

  /** "\r\n" is one boundary, not two: no empty piece appears between them. */
  lemma CrLfIsOneBoundary()
    ensures SplitLines("{}\r\n{}\r\n") == ["{}", "{}"]
  {
    var two: seq<string> := ["{}", "{}"];
    assert BreakFree("{}");
    assert Terminated(two[1..][1..], "\r\n") == "";
    assert Terminated(two, "\r\n") + "" == "{}\r\n{}\r\n";
    SplitTerminated(two, "\r\n", "");
    assert two + LastPiece("") == two;
  }

  /** A boundary-free text with no ending is one piece, or none when empty. */
  lemma SplitUnterminated(last: string)
    requires BreakFree(last)
    ensures SplitLines(last) == LastPiece(last)
  {
  }

  /** A boundary-free line and its ending split off as the first piece. */
  lemma SplitOneLine(l: string, sep: string, tail: string)
    requires BreakFree(l) && IsEnding(sep)
    requires sep == "\r" && |tail| > 0 ==> tail[0] != '\n'
    ensures SplitLines(l + sep + tail) == [l] + SplitLines(tail)
  {
    var s := l + sep + tail;
    assert s == l + (sep + tail);
    FirstBreakOfLine(l, sep + tail);
    assert s[..|l|] == l;
    if sep == "\r" && |tail| > 0 {
      assert s[|l| + 1] == tail[0];
    }
    assert s[|l| + |sep|..] == tail;
  }

  /** After a "\r" ending, the text that follows never starts with "\n", so the two stay separate boundaries. */
  lemma {:induction false} NoNewlineFirst(lines: seq<string>, sep: string, last: string)
    requires IsEnding(sep) && sep != "\n"
    requires forall k :: 0 <= k < |lines| ==> BreakFree(lines[k])
    requires BreakFree(last)
    requires |Terminated(lines, sep) + last| > 0
    ensures (Terminated(lines, sep) + last)[0] != '\n'
  {
    if |lines| == 0 {
      assert Terminated(lines, sep) + last == last;
    } else {
      assert Terminated(lines, sep) + last == lines[0] + (sep + Terminated(lines[1..], sep) + last);
      if |lines[0]| == 0 {
        assert (Terminated(lines, sep) + last)[0] == sep[0];
      } else {
        assert (Terminated(lines, sep) + last)[0] == lines[0][0];
      }
    }
  }

  lemma {:induction false} FirstBreakOfLine(l: string, rest: string)
    requires BreakFree(l)
    requires |rest| > 0 && IsBreak(rest[0])
    ensures FirstBreak(l + rest) == |l|
    decreases |l|
  {
    if |l| > 0 {
      assert (l + rest)[1..] == l[1..] + rest;
      FirstBreakOfLine(l[1..], rest);
    } else {
      assert l + rest == rest;
    }
  }
}

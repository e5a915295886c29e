/** The string operations the plan-bundle parser is built on, as Python defines them. */
module PlanText {
  import opened TextModel

  predicate IsSpaceChar(c: char) { IsSpace(c as int) }

  function LStrip(s: string): (r: string)
    ensures |r| <= |s| && (r != "" ==> !IsSpaceChar(r[0]))
  {
    if s != "" && IsSpaceChar(s[0]) then LStrip(s[1..]) else s
  }

  function RStrip(s: string): (r: string)
    ensures |r| <= |s| && r == s[..|r|] && (r != "" ==> !IsSpaceChar(r[|r| - 1]))
  {
    if s != "" && IsSpaceChar(s[|s| - 1]) then RStrip(s[..|s| - 1]) else s
  }

  function StripText(s: string): string { RStrip(LStrip(s)) }

  /** How many spaces a line starts with. */
  function Indent(s: string): (n: nat)
    ensures n <= |s|
  {
    if s != "" && s[0] == ' ' then 1 + Indent(s[1..]) else 0
  }

  function Spaces(n: nat): (s: string)
    ensures |s| == n
  {
    if n == 0 then "" else " " + Spaces(n - 1)
  }

  /** `split(":", 1)[1]`. */
  function AfterColon(s: string): string {
    if s == "" then "" else if s[0] == ':' then s[1..] else AfterColon(s[1..])
  }

  function JoinLines(lines: seq<string>): string {
    if lines == [] then ""
    else if |lines| == 1 then lines[0]
    else JoinLines(lines[..|lines| - 1]) + "\n" + lines[|lines| - 1]
  }

  // ----- Facts about them -----

  /** A line is indented by the spaces before its first other character. */
  lemma {:induction false} IndentCountsSpaces(s: string)
    ensures forall i | 0 <= i < Indent(s) :: s[i] == ' '
    ensures Indent(s) < |s| ==> s[Indent(s)] != ' '
  {
    if s != "" && s[0] == ' ' {
      IndentCountsSpaces(s[1..]);
      assert s == [s[0]] + s[1..];
    }
  }

  lemma {:induction false} NothingAfterNoColon(s: string)
    requires ':' !in s
    ensures AfterColon(s) == ""
  {
    if s != "" {
      NothingAfterNoColon(s[1..]);
    }
  }

  /** The text starts and ends with something other than white space. */
  predicate IsTight(s: string) { s != "" && !IsSpaceChar(s[0]) && !IsSpaceChar(s[|s| - 1]) }

  lemma TightTextStays(s: string)
    requires IsTight(s)
    ensures LStrip(s) == s && RStrip(s) == s && Indent(s) == 0
  {
    assert IsSpaceChar(' ');
  }

  predicate IsBlankText(s: string) { forall i | 0 <= i < |s| :: IsSpaceChar(s[i]) }

  lemma {:induction false} LStripPadded(before: string, s: string)
    requires IsBlankText(before)
    ensures LStrip(before + s) == LStrip(s)
  {
    var t := before + s;
    if before == "" {
      assert t == s;
    } else {
      assert t[0] == before[0] && t[1..] == before[1..] + s;
      LStripPadded(before[1..], s);
    }
  }

  lemma {:induction false} RStripPadded(s: string, after: string)
    requires IsBlankText(after)
    ensures RStrip(s + after) == RStrip(s)
    decreases |after|
  {
    var t, n := s + after, |after|;
    if n == 0 {
      assert t == s;
    } else {
      assert t[|t| - 1] == after[n - 1] && t[..|t| - 1] == s + after[..n - 1];
      RStripPadded(s, after[..n - 1]);
    }
  }

  /** White space at both ends is all that stripping takes away. */
  lemma StripPadded(before: string, core: string, after: string)
    requires IsBlankText(before) && IsBlankText(after) && (core == "" || IsTight(core))
    ensures StripText(before + core + after) == core
  {
    assert before + core + after == before + (core + after);
    LStripPadded(before, core + after);
    if core == "" {
      assert core + after == after + "";
      LStripPadded(after, "");
    } else {
      assert LStrip(core + after) == core + after;
      RStripPadded(core, after);
      TightTextStays(core);
    }
  }

  lemma {:induction false} LStripSplits(s: string) returns (before: string)
    ensures s == before + LStrip(s) && IsBlankText(before)
  {
    before := "";
    if s != "" && IsSpaceChar(s[0]) {
      var rest := LStripSplits(s[1..]);
      before := [s[0]] + rest;
      assert s == [s[0]] + s[1..];
    }
  }

  lemma {:induction false} RStripDropsBlanks(s: string, i: nat)
    requires |RStrip(s)| <= i < |s|
    ensures IsSpaceChar(s[i])
    decreases |s|
  {
    if i < |s| - 1 {
      RStripDropsBlanks(s[..|s| - 1], i);
    }
  }

  lemma RStripSplits(s: string) returns (after: string)
    ensures s == RStrip(s) + after && IsBlankText(after)
  {
    after := s[|RStrip(s)|..];
    forall i | 0 <= i < |after| ensures IsSpaceChar(after[i]) {
      RStripDropsBlanks(s, |RStrip(s)| + i);
    }
  }

  /** What is stripped away is white space, and what is left is tight. */
  lemma StripSplits(s: string) returns (before: string, after: string)
    ensures s == before + StripText(s) + after && IsBlankText(before) && IsBlankText(after)
    ensures StripText(s) == "" || IsTight(StripText(s))
  {
    before := LStripSplits(s);
    after := RStripSplits(LStrip(s));
    assert s == before + (StripText(s) + after);
    if StripText(s) != "" {
      assert StripText(s)[0] == LStrip(s)[0];
    }
  }

  lemma {:induction false} LStripIndented(n: nat, s: string)
    requires IsTight(s)
    ensures LStrip(Spaces(n) + s) == s && Indent(Spaces(n) + s) == n
  {
    var t := Spaces(n) + s;
    if n == 0 {
      assert t == s;
      TightTextStays(s);
    } else {
      LStripIndented(n - 1, s);
      assert t[0] == ' ' && t[1..] == Spaces(n - 1) + s;
    }
  }

  lemma StripIndented(n: nat, s: string)
    requires IsTight(s)
    ensures StripText(Spaces(n) + s) == s && Indent(Spaces(n) + s) == n
  {
    LStripIndented(n, s);
    TightTextStays(s);
  }

  lemma {:induction false} IndentOfSpaces(n: nat, s: string)
    ensures Indent(Spaces(n) + s) == n + Indent(s)
    ensures LStrip(Spaces(n) + s) == LStrip(s)
    ensures (Spaces(n) + s)[n..] == s
  {
    if n == 0 {
      assert Spaces(0) + s == s;
    } else {
      IndentOfSpaces(n - 1, s);
      var t := Spaces(n) + s;
      assert t[0] == ' ' && t[1..] == Spaces(n - 1) + s && IsSpaceChar(' ');
      assert t[n..] == t[1..][n - 1..];
    }
  }

  /** What comes before the first colon does not matter. */
  lemma {:induction false} AfterColonOf(key: string, rest: string)
    requires ':' !in key
    ensures AfterColon(key + ":" + rest) == rest
  {
    var t := key + ":" + rest;
    if key == "" {
      assert t[0] == ':' && t[1..] == rest;
    } else {
      assert t[0] == key[0] && t[1..] == key[1..] + ":" + rest;
      AfterColonOf(key[1..], rest);
    }
  }

  lemma {:induction false} RStripOfTightEnd(s: string, t: string)
    requires RStrip(t) != ""
    ensures RStrip(s + t) == s + RStrip(t)
  {
    if IsSpaceChar(t[|t| - 1]) {
      RStripOfTightEnd(s, t[..|t| - 1]);
      assert (s + t)[..|s + t| - 1] == s + t[..|t| - 1];
    }
  }

  lemma {:induction false} BlankOrNot(s: string)
    ensures StripText(s) == "" <==> RStrip(s) == ""
    ensures StripText(s) == "" <==> LStrip(s) == ""
  {
    RStripEmpty(s);
    RStripEmpty(LStrip(s));
    LStripEmpty(s);
  }

  lemma {:induction false} RStripEmpty(s: string)
    ensures RStrip(s) == "" <==> forall i | 0 <= i < |s| :: IsSpaceChar(s[i])
  {
    if s != "" && IsSpaceChar(s[|s| - 1]) {
      RStripEmpty(s[..|s| - 1]);
    }
  }

  lemma {:induction false} LStripEmpty(s: string)
    ensures LStrip(s) == "" <==> forall i | 0 <= i < |s| :: IsSpaceChar(s[i])
  {
    if s != "" && IsSpaceChar(s[0]) {
      LStripEmpty(s[1..]);
      assert forall i | 0 < i < |s| :: s[i] == s[1..][i - 1];
    }
  }

  /** A joined block ends where its last line ends, if that line has anything in it. */
  lemma RStripOfJoined(lines: seq<string>)
    requires lines != [] && RStrip(lines[|lines| - 1]) != ""
    ensures RStrip(JoinLines(lines)) ==
      if |lines| == 1 then RStrip(lines[0]) else JoinLines(lines[..|lines| - 1]) + "\n" + RStrip(lines[|lines| - 1])
  {
    if |lines| > 1 {
      RStripOfTightEnd(JoinLines(lines[..|lines| - 1]) + "\n", lines[|lines| - 1]);
    }
  }

  // ----- Lines -----

  /** The characters at which `str.splitlines` breaks; `\\r\\n` is one break. */
  predicate IsLineBreak(c: char) {
    10 <= c as int <= 13 || 28 <= c as int <= 30 || c as int in {0x85, 0x2028, 0x2029}
  }

  /** `str.splitlines`, with the current line so far; a last line that is empty is not a line. */
  function SplitFrom(line: string, rest: string): seq<string>
    decreases |rest|
  {
    if rest == "" then (if line == "" then [] else [line])
    else if !IsLineBreak(rest[0]) then SplitFrom(line + [rest[0]], rest[1..])
    else if |rest| >= 2 && rest[0] == '\r' && rest[1] == '\n' then [line] + SplitFrom("", rest[2..])
    else [line] + SplitFrom("", rest[1..])
  }

  function SplitLines(text: string): seq<string> { SplitFrom("", text) }

  predicate IsOneLine(s: string) { forall i | 0 <= i < |s| :: !IsLineBreak(s[i]) }

  /** Each line with its newline. */
  function Terminated(lines: seq<string>): string {
    if lines == [] then "" else lines[0] + "\n" + Terminated(lines[1..])
  }

  lemma {:induction false} SplitOneLine(line: string, s: string, rest: string)
    requires IsOneLine(s)
    ensures SplitFrom(line, s + "\n" + rest) == [line + s] + SplitFrom("", rest)
    decreases |s|
  {
    var t := s + "\n" + rest;
    if s == "" {
      assert t[0] == '\n' && t[1..] == rest && line + s == line;
    } else {
      assert t[0] == s[0] && t[1..] == s[1..] + "\n" + rest;
      SplitOneLine(line + [s[0]], s[1..], rest);
      assert line + [s[0]] + s[1..] == line + s;
    }
  }

  /** Splitting undoes joining with newlines. */
  lemma {:induction false} SplitUndoesTerminated(lines: seq<string>)
    requires forall i | 0 <= i < |lines| :: IsOneLine(lines[i])
    ensures SplitLines(Terminated(lines)) == lines
  {
    if lines != [] {
      SplitUndoesTerminated(lines[1..]);
      SplitOneLine("", lines[0], Terminated(lines[1..]));
      assert "" + lines[0] == lines[0];
    }
  }

  lemma {:induction false} TerminatedOneMore(lines: seq<string>, last: string)
    ensures Terminated(lines + [last]) == Terminated(lines) + (last + "\n")
  {
    var all := lines + [last];
    if lines == [] {
      assert all == [last] && all[1..] == [];
      assert last + "\n" + "" == "" + (last + "\n");
    } else {
      assert all[0] == lines[0] && all[1..] == lines[1..] + [last];
      TerminatedOneMore(lines[1..], last);
      var head, tail, end := lines[0] + "\n", Terminated(lines[1..]), last + "\n";
      assert head + (tail + end) == head + tail + end;
    }
  }

  /** Joined lines are those lines with their newlines but the last one. */
  lemma {:induction false} JoinedIsTerminated(lines: seq<string>)
    requires lines != []
    ensures JoinLines(lines) + "\n" == Terminated(lines)
  {
    var front, last := lines[..|lines| - 1], lines[|lines| - 1];
    assert lines == front + [last];
    TerminatedOneMore(front, last);
    if front == [] {
      assert "" + (last + "\n") == last + "\n";
    } else {
      JoinedIsTerminated(front);
      var joined, newline := JoinLines(front), "\n";
      assert joined + newline + last + newline == (joined + newline) + (last + newline);
    }
  }
}

/** The migration of a whole graph file: line by line, in place, and the same again the second time. */
module GraphMigrationText {
  import opened Basics
  import opened GraphMigration

  // ---------------------------------------------------------------- the loop over the lines

  /** A line without its line end. */
  function Body(line: string): string {
    if line != "" && (line[|line| - 1] == '\n' || line[|line| - 1] == '\r') then Body(line[..|line| - 1]) else line
  }

  /** The indentation of the generator that holds after the first `n` lines, if any. */
  function GeneratorAfter(lines: seq<string>, n: nat): Option<nat>
    requires n <= |lines|
  {
    if n == 0 then None else StepOf(Body(lines[n - 1]), GeneratorAfter(lines, n - 1)).0
  }

  /** What line `i` is rewritten to, if anything. */
  function ChangeAt(lines: seq<string>, i: nat): Option<(string, Change)>
    requires i < |lines|
  {
    StepOf(Body(lines[i]), GeneratorAfter(lines, i)).1
  }

  function MigratedLine(lines: seq<string>, i: nat): string
    requires i < |lines|
  {
    if ChangeAt(lines, i).Some? then ChangeAt(lines, i).value.0 + "\n" else lines[i]
  }

  function MigratedLines(lines: seq<string>): (r: seq<string>)
    ensures |r| == |lines|
  {
    seq(|lines|, i requires 0 <= i < |lines| => MigratedLine(lines, i))
  }

  /** The changes among the first `n` lines, with line numbers from 1. */
  function Changes(lines: seq<string>, n: nat): seq<(nat, Change)>
    requires n <= |lines|
  {
    if n == 0 then []
    else if ChangeAt(lines, n - 1).None? then Changes(lines, n - 1)
    else Changes(lines, n - 1) + [(n, ChangeAt(lines, n - 1).value.1)]
  }

  /** Rewrites the lines in place and returns the numbered changes. */
  method Migrate(lines: array<string>) returns (changes: seq<(nat, Change)>)
    modifies lines
    ensures lines[..] == MigratedLines(old(lines[..])) && changes == Changes(old(lines[..]), lines.Length)
  {
    hide StepOf, Body;
    changes := [];
    var generator: Option<nat> := None;
    ghost var was := lines[..];
    for i := 0 to lines.Length
      invariant generator == GeneratorAfter(was, i) && changes == Changes(was, i)
      invariant forall j :: 0 <= j < i ==> lines[j] == MigratedLine(was, j)
      invariant forall j :: i <= j < lines.Length ==> lines[j] == was[j]
    {
      var (now, change) := StepOf(Body(lines[i]), generator);
      assert change == ChangeAt(was, i);
      generator := now;
      if change.Some? {
        lines[i] := change.value.0 + "\n";
        changes := changes + [(i + 1, change.value.1)];
      }
    }
  }

  /** Line `i`, counted from 0, is among the reported changes of the first `n` lines. */
  ghost predicate Reported(lines: seq<string>, n: nat, i: nat)
    requires n <= |lines|
  {
    exists k :: 0 <= k < |Changes(lines, n)| && Changes(lines, n)[k].0 == i + 1
  }

  /** The reports name exactly the lines that the rules rewrite. */
  lemma {:induction false} ReportsNameTheRewritten(lines: seq<string>, n: nat, i: nat)
    requires n <= |lines|
    ensures Reported(lines, n, i) <==> i < n && ChangeAt(lines, i).Some?
  {
    hide ChangeAt;
    if n > 0 {
      ReportsNameTheRewritten(lines, n - 1, i);
      var before, now := Changes(lines, n - 1), Changes(lines, n);
      assert forall k :: 0 <= k < |before| ==> now[k] == before[k];
      if Reported(lines, n - 1, i) {
        var k :| 0 <= k < |before| && before[k].0 == i + 1;
        assert now[k].0 == i + 1;
      } else if i == n - 1 && ChangeAt(lines, i).Some? {
        assert now[|before|].0 == i + 1;
      }
    }
  }

  /** A line that no report names is as it was. */
  lemma UnreportedLinesStay(lines: seq<string>, i: nat)
    requires i < |lines| && !Reported(lines, |lines|, i)
    ensures MigratedLines(lines)[i] == lines[i]
  {
    ReportsNameTheRewritten(lines, |lines|, i);
  }

  // ---------------------------------------------------------------- twice

  /** No break, or one at the end that is neither a newline nor a carriage return. */
  predicate Nearly(s: string) {
    Unbroken(s) || (s != "" && Unbroken(s[..|s| - 1]) && s[|s| - 1] != '\n' && s[|s| - 1] != '\r')
  }

  /** One past the first line break, where a carriage return and a newline make one, or the end. */
  function LineEnd(text: string): (n: nat)
    ensures n <= |text| && (text != "" ==> n > 0)
  {
    if text == "" then 0
    else if !IsBreak(text[0]) then LineEnd(text[1..]) + 1
    else if text[0] == '\r' && |text| > 1 && text[1] == '\n' then 2
    else 1
  }

  /** The lines with their line ends. */
  function Lines(text: string): seq<string> {
    if text == "" then [] else [text[..LineEnd(text)]] + Lines(text[LineEnd(text)..])
  }

  predicate IsLine(line: string) { line != "" && LineEnd(line) == |line| }

  /** A line ends between the two texts. */
  predicate Parts(a: string, b: string) {
    a != "" && IsBreak(a[|a| - 1]) && !(a[|a| - 1] == '\r' && b != "" && b[0] == '\n')
  }

  /** The lines of some text. */
  predicate AreLines(lines: seq<string>) {
    && (forall i :: 0 <= i < |lines| ==> IsLine(lines[i]))
    && (forall i :: 0 <= i < |lines| - 1 ==> Parts(lines[i], lines[i + 1]))
  }

  lemma {:induction false} LineEndStays(a: string, b: string)
    requires Parts(a, b)
    ensures LineEnd(a + b) == LineEnd(a)
  {
    assert (a + b)[0] == a[0];
    if IsBreak(a[0]) {
      assert |a| > 1 ==> (a + b)[1] == a[1];
    } else {
      assert (a + b)[1..] == a[1..] + b;
      LineEndStays(a[1..], b);
    }
  }

  lemma {:induction false} LinesAppend(a: string, b: string)
    requires a == "" || Parts(a, b)
    ensures Lines(a + b) == Lines(a) + Lines(b)
    decreases |a|
  {
    if a == "" {
      assert a + b == b;
    } else {
      var n := LineEnd(a);
      LineEndStays(a, b);
      assert (a + b)[..n] == a[..n] && (a + b)[n..] == a[n..] + b;
      LinesAppend(a[n..], b);
    }
  }

  lemma {:induction false} LinesRejoin(text: string)
    ensures Concat(Lines(text)) == text
    decreases |text|
  {
    if text == "" {
      assert Lines(text) == [];
    } else {
      LinesRejoin(text[LineEnd(text)..]);
    }
  }

  lemma {:induction false} FirstLine(text: string)
    requires text != ""
    ensures var n := LineEnd(text); IsLine(text[..n]) && (n < |text| ==> Parts(text[..n], text[n..]))
  {
    assert IsBreak('\n');
    hide IsBreak;
    var n := LineEnd(text);
    var line := text[..n];
    if IsBreak(text[0]) {
      assert line[0] == text[0] && line[n - 1] == text[n - 1];
    } else if |text| > 1 {
      var more := text[1..];
      FirstLine(more);
      assert line == [text[0]] + more[..n - 1] && text[n..] == more[n - 1..];
      LineOfMore(text[0], more[..n - 1]);
      if n < |text| {
        PartsOfMore(text[0], more[..n - 1], text[n..]);
      }
    } else {
      assert line == text;
    }
  }

  lemma LineOfMore(c: char, line: string)
    requires !IsBreak(c) && IsLine(line)
    ensures IsLine([c] + line)
  {
    assert ([c] + line)[1..] == line;
  }

  lemma PartsOfMore(c: char, a: string, b: string)
    requires Parts(a, b)
    ensures Parts([c] + a, b)
  {
  }

  lemma {:induction false} LinesAreLines(text: string)
    ensures AreLines(Lines(text))
    decreases |text|
  {
    hide IsLine, Parts;
    if text == "" {
      assert Lines(text) == [];
    } else {
      var n := LineEnd(text);
      FirstLine(text);
      LinesAreLines(text[n..]);
      if n < |text| {
        PartsByFirst(text[..n], text[n..], Lines(text[n..])[0]);
      }
    }
  }

  lemma PartsByFirst(a: string, b: string, c: string)
    requires Parts(a, b) && b != "" && c != "" && c[0] == b[0]
    ensures Parts(a, c)
  {
  }

  /** A body has at most one break, at its end. */
  lemma {:induction false} LineParts(line: string)
    requires IsLine(line)
    ensures Nearly(Body(line)) && Body(line) <= line
  {
    if IsBreak(line[0]) {
      BodyOfBreak(line);
    } else if |line| > 1 {
      assert line == [line[0]] + line[1..];
      LineParts(line[1..]);
      BodyOfMore(line[0], line[1..]);
      NearlyMore(line[0], Body(line[1..]));
    } else {
      assert line[..1] == line;
    }
  }

  lemma BodyOfBreak(line: string)
    requires IsLine(line) && IsBreak(line[0])
    ensures Nearly(Body(line)) && Body(line) <= line
  {
    assert line == [line[0]] || line == ['\r', '\n'];
    assert line[..|line| - 1] == if |line| == 1 then [] else ['\r'];
    assert ['\r'][..0] == [];
    assert Body(['\r']) == [] && Body([]) == [];
  }

  lemma {:induction false} BodyOfMore(c: char, s: string)
    requires c != '\n' && c != '\r'
    ensures Body([c] + s) == [c] + Body(s) && Body(s) <= s
  {
    var all := [c] + s;
    if s != "" && (s[|s| - 1] == '\n' || s[|s| - 1] == '\r') {
      assert all[..|all| - 1] == [c] + s[..|s| - 1];
      BodyOfMore(c, s[..|s| - 1]);
    }
  }

  lemma NearlyMore(c: char, s: string)
    requires !IsBreak(c) && Nearly(s)
    ensures Nearly([c] + s)
  {
    var all := [c] + s;
    if !Unbroken(s) {
      assert all[..|all| - 1] == [c] + s[..|s| - 1];
    }
  }

  lemma UnbrokenPart(s: string, i: nat, j: nat)
    requires Unbroken(s) && i <= j <= |s|
    ensures Unbroken(s[..j]) && Unbroken(s[i..]) && Unbroken(s[i..j])
  {
  }

  lemma UnbrokenJoin(a: string, b: string)
    requires Unbroken(a) && Unbroken(b)
    ensures Unbroken(a + b)
  {
  }

  lemma UnbrokenWords()
    ensures Unbroken("id:") && Unbroken("tone_frequency:") && Unbroken("<") && Unbroken(">")
  {
  }

  lemma UnbrokenEnds(s: string)
    requires Unbroken(s)
    ensures Unbroken(LeftStripped(s)) && Unbroken(Stripped(s)) && Unbroken(Unquoted(s))
    ensures Unbroken(Gap(s)) && Unbroken(Trail(s))
  {
  }

  lemma IdIsUnbroken(id: string)
    requires Unbroken(id) && MigratedId(id).Some?
    ensures Unbroken(MigratedId(id).value)
  {
    hide Unbroken, IsOneOf, BaseName, Stripped, Unquoted;
    UnbrokenWords();
    UnbrokenEnds(id);
    UnbrokenEnds(Stripped(id));
    var stripped := Unquoted(Stripped(id));
    var n := Bracket(stripped);
    var list := stripped[n + 1..|stripped| - 1];
    UnbrokenPart(stripped, 0, n);
    UnbrokenPart(stripped, n + 1, |stripped| - 1);
    FirstArgumentIsUnbroken(list);
    hide Pieces, Bracket;
    var first := Stripped(Pieces(list, 0, "")[0]);
    UnbrokenJoin(stripped[..n], "<");
    UnbrokenJoin(stripped[..n] + "<", first);
    UnbrokenJoin(stripped[..n] + "<" + first, ">");
  }

  lemma FirstArgumentIsUnbroken(list: string)
    requires Unbroken(list)
    ensures Unbroken(Stripped(Pieces(list, 0, "")[0]))
  {
    hide Unbroken, OnePiece, Stripped;
    var m := FirstPiece(list, 0, "");
    assert "" + list[..m] == list[..m];
    UnbrokenPart(list, 0, m);
    UnbrokenEnds(list[..m]);
  }

  // ---------------------------------------------------------------- what a rewritten line is split into

  lemma NearlyCut(s: string, i: nat, j: nat)
    requires Nearly(s) && i <= j <= |s|
    ensures j < |s| ==> Unbroken(s[i..j]) && Unbroken(s[..j])
    ensures Nearly(s[i..])
  {
    if !Unbroken(s) {
      assert forall k :: 0 <= k < |s| - 1 ==> s[k] == s[..|s| - 1][k];
      if i < |s| {
        assert s[i..][..|s| - i - 1] == s[i..|s| - 1];
      }
    }
  }

  lemma NearlyJoin(a: string, b: string)
    requires Unbroken(a) && Nearly(b)
    ensures Nearly(a + b)
  {
    if !Unbroken(b) {
      assert (a + b)[..|a + b| - 1] == a + b[..|b| - 1];
      UnbrokenJoin(a, b[..|b| - 1]);
    } else {
      UnbrokenJoin(a, b);
    }
  }

  lemma BreakIsSpace(s: string)
    requires Nearly(s) && !Unbroken(s)
    ensures s != "" && IsSpace(s[|s| - 1]) && IsBreak(s[|s| - 1]) && Unbroken(s[..|s| - 1])
    ensures s[|s| - 1] != '\n' && s[|s| - 1] != '\r'
  {
    assert s == s[..|s| - 1] + [s[|s| - 1]];
    UnbrokenSnoc(s[..|s| - 1], s[|s| - 1]);
  }

  lemma UnbrokenSnoc(s: string, c: char)
    ensures Unbroken(s) && !IsBreak(c) ==> Unbroken(s + [c])
    ensures IsBreak(c) ==> IsSpace(c)
  {
  }

  /** Of the part behind a key, the gap and the value hold no break, and what is behind the value may end in one. */
  lemma RestParts(rest: string)
    requires Nearly(rest) && Stripped(rest) != ""
    ensures Unbroken(Gap(rest)) && Unbroken(Stripped(rest)) && Nearly(Trail(rest))
    ensures Unbroken(rest) <==> Unbroken(Trail(rest))
  {
    hide IsSpace, IsBreak, Unbroken, Nearly;
    var n, left := Leading(rest), LeftStripped(rest);
    var k := |left| - Trailing(left);
    if !Unbroken(rest) {
      BreakIsSpace(rest);
      assert left[|left| - 1] == rest[|rest| - 1];
      NearlyCut(rest, n, n + k);
      NearlyCut(rest, 0, n);
    } else {
      UnbrokenPart(rest, n, n + k);
      UnbrokenPart(rest, n + k, |rest|);
      UnbrokenPart(rest, 0, n);
    }
    NearlyCut(rest, n + k, |rest|);
    assert Gap(rest) == rest[..n] && Stripped(rest) == rest[n..n + k] && Trail(rest) == rest[n + k..];
    UnbrokenIsNearly(rest[n + k..]);
    NearlyTail(rest, n + k);
  }

  lemma UnbrokenIsNearly(s: string)
    ensures Unbroken(s) ==> Nearly(s)
  {
  }

  lemma NearlyTail(s: string, i: nat)
    requires Nearly(s) && i <= |s| && (i == |s| && i > 0 ==> !IsBreak(s[i - 1]))
    ensures Unbroken(s) <==> Unbroken(s[i..])
  {
    if !Unbroken(s) {
      assert s == s[..|s| - 1] + [s[|s| - 1]];
      UnbrokenSnoc(s[..|s| - 1], s[|s| - 1]);
      assert IsBreak(s[|s| - 1]);
      assert i < |s| ==> s[i..][|s| - 1 - i] == s[|s| - 1];
    }
  }

  lemma UnbrokenJoins(a: string, b: string)
    requires Unbroken(a)
    ensures Unbroken(a + b) <==> Unbroken(b)
    ensures Nearly(b) ==> Nearly(a + b)
  {
    if Unbroken(a + b) {
      UnbrokenPart(a + b, |a|, |a + b|);
      assert (a + b)[|a|..] == b;
    }
    if Unbroken(b) {
      UnbrokenJoin(a, b);
    }
    if Nearly(b) {
      NearlyJoin(a, b);
    }
  }

  lemma IdOfNothing()
    ensures MigratedId("").None?
  {
  }

  lemma NearlyBehindKey(body: string, key: nat, rest: nat)
    requires Nearly(body) && key < rest <= |body| && body[rest - 1] == ':'
    ensures Unbroken(body[..key]) && Nearly(body[rest..]) && (Unbroken(body) <==> Unbroken(body[rest..]))
  {
    NearlyCut(body, 0, key);
    NearlyCut(body, rest, |body|);
    NearlyTail(body, rest);
    assert body[0..key] == body[..key];
  }

  lemma KeyEnds(s: string, k: nat, key: string)
    requires k <= |s| && key != "" && StartsWith(s[k..], key)
    ensures k + |key| <= |s| && s[k + |key| - 1] == key[|key| - 1]
  {
    assert s[k..][..|key|][|key| - 1] == s[k + |key| - 1];
  }

  lemma IdLineParts(body: string)
    requires ParseId(body).Some?
    ensures var l := ParseId(body).value;
      var k := |l.lead|;
      k + 3 <= |body| && body[k + 2] == ':' && l.lead == body[..k] && l.rest == body[k + 3..]
  {
    hide LeadOf;
    KeyEnds(body, LeadOf(body), "id:");
  }

  /** What a body is rewritten to has a break where the body has one, at its end. */
  lemma RewrittenIsNearly(body: string, generator: Option<nat>)
    requires Nearly(body) && StepOf(body, generator).1.Some?
    ensures var s := StepOf(body, generator).1.value.0;
      s != "" && Nearly(s) && (Unbroken(body) <==> Unbroken(s))
  {
    hide Unbroken, Nearly, MigratedId, ParseId, BaseName, Unquoted, Gap, Trail, Stripped, IsOneOf;
    UnbrokenWords();
    if ParseId(body).Some? {
      IdLineParts(body);
      var l := ParseId(body).value;
      var id := Stripped(l.rest);
      var m := MigratedId(id).value;
      NearlyBehindKey(body, |l.lead|, |l.lead| + 3);
      IdOfNothing();
      RestParts(l.rest);
      IdIsUnbroken(id);
      UnbrokenJoin(l.lead, "id:");
      UnbrokenJoin(l.lead + "id:", Gap(l.rest));
      UnbrokenJoin(l.lead + "id:" + Gap(l.rest), m);
      UnbrokenJoins(l.lead + "id:" + Gap(l.rest) + m, Trail(l.rest));
    } else {
      var n := Leading(body);
      KeyEnds(body, n, "frequency:");
      NearlyBehindKey(body, n, n + |"frequency:"|);
      UnbrokenJoin(body[..n], "tone_frequency:");
      UnbrokenJoins(body[..n] + "tone_frequency:", body[n + |"frequency:"|..]);
    }
  }

  /** The lines of a line once rewritten: one, or two where the body ends in a break. */
  lemma LinesOfRewritten(s: string)
    requires s != "" && Nearly(s)
    ensures Lines(s + "\n") == if Unbroken(s) then [s + "\n"] else [s, "\n"]
    ensures Body(s) == s && (Unbroken(s) ==> Body(s + "\n") == s)
  {
    if Unbroken(s) {
      UnbrokenRewritten(s);
    } else {
      BrokenRewritten(s);
    }
  }

  lemma UnbrokenRewritten(s: string)
    requires Unbroken(s)
    ensures Lines(s + "\n") == [s + "\n"] && Body(s) == s && Body(s + "\n") == s
  {
    hide IsBreak, Unbroken, Lines, LineEnd;
    OneBreak();
    LineEndOfUnbroken(s, "\n");
    LineOfLine(s + "\n");
    assert (s + "\n")[..|s|] == s;
    BodyOfUnbroken(s);
  }

  lemma BrokenRewritten(s: string)
    requires Nearly(s) && !Unbroken(s)
    ensures Lines(s + "\n") == [s, "\n"] && Body(s) == s
  {
    var start, last := s[..|s| - 1], s[|s| - 1];
    BreakIsSpace(s);
    hide IsBreak, Unbroken, Lines;
    assert s == start + [last] && s + "\n" == start + ([last] + "\n");
    UnbrokenSnoc(start, last);
    OneBreak();
    LineEndOfUnbroken(start, [last] + "\n");
    FirstAndRest(s, "\n");
  }

  lemma BodyOfUnbroken(s: string)
    requires Unbroken(s)
    ensures Body(s) == s
  {
  }

  lemma FirstAndRest(line: string, rest: string)
    requires line != "" && LineEnd(line + rest) == |line|
    ensures Lines(line + rest) == [line] + Lines(rest)
  {
    assert (line + rest)[..|line|] == line && (line + rest)[|line|..] == rest;
  }

  lemma OneBreak()
    ensures IsBreak('\n') && LineEnd("\n") == 1 && Lines("\n") == ["\n"] && Body("\n") == ""
  {
    assert "\n"[..1] == "\n" && "\n"[1..] == "" && "\n"[..0] == "";
  }

  lemma {:induction false} LineEndOfUnbroken(s: string, t: string)
    requires Unbroken(s) && t != "" && IsBreak(t[0])
    ensures LineEnd(s + t) == |s| + LineEnd(t)
  {
    if s == "" {
      assert s + t == t;
    } else {
      assert (s + t)[1..] == s[1..] + t && (s + t)[0] == s[0];
      LineEndOfUnbroken(s[1..], t);
    }
  }

  // ---------------------------------------------------------------- twice

  /** How many of the first `n` lines are rewritten to two, because their body ends in a break. */
  function Splits(lines: seq<string>, n: nat): nat
    requires n <= |lines|
  {
    if n == 0 then 0
    else Splits(lines, n - 1) + if ChangeAt(lines, n - 1).Some? && !Unbroken(Body(lines[n - 1])) then 1 else 0
  }

  /** The lines that the first `n` lines are migrated to. */
  function Relined(lines: seq<string>, n: nat): seq<string>
    requires n <= |lines|
  {
    if n == 0 then [] else Relined(lines, n - 1) + Lines(MigratedLine(lines, n - 1))
  }

  lemma {:induction false} GeneratorOfStart(a: seq<string>, b: seq<string>, n: nat)
    requires n <= |a|
    ensures GeneratorAfter(a + b, n) == GeneratorAfter(a, n)
  {
    hide StepOf, Body;
    if n == 0 {
      assert GeneratorAfter(a + b, 0) == None;
    } else {
      GeneratorOfStart(a, b, n - 1);
    }
  }

  /** The lines of a migrated line change nothing, and leave the generator as the line did. */
  lemma LineTwice(lines: seq<string>, i: nat)
    requires i < |lines| && IsLine(lines[i])
    ensures var g, now := GeneratorAfter(lines, i), Lines(MigratedLine(lines, i));
      && |now| == (if ChangeAt(lines, i).Some? && !Unbroken(Body(lines[i])) then 2 else 1)
      && StepOf(Body(now[0]), g) == (GeneratorAfter(lines, i + 1), None)
      && (|now| == 2 ==> Body(now[1]) == "")
  {
    hide StepOf, Unbroken, Body, IsLine;
    var body, g := Body(lines[i]), GeneratorAfter(lines, i);
    if ChangeAt(lines, i).Some? {
      LineParts(lines[i]);
      RewrittenIsNearly(body, g);
      LinesOfRewritten(ChangeAt(lines, i).value.0);
      StepTwice(body, g);
      OneBreak();
    } else {
      LineOfLine(lines[i]);
    }
  }

  lemma LineOfLine(line: string)
    requires IsLine(line)
    ensures Lines(line) == [line]
  {
    assert line[..|line|] == line && line[|line|..] == "";
  }

  lemma NothingToDo(generator: Option<nat>)
    ensures StepOf("", generator) == (generator, None)
  {
  }

  /** Migrated lines hold nothing more to migrate. */
  lemma {:induction false} RelinedStays(lines: seq<string>, n: nat)
    requires n <= |lines| && forall i :: 0 <= i < |lines| ==> IsLine(lines[i])
    ensures var r := Relined(lines, n);
      && |r| == n + Splits(lines, n)
      && GeneratorAfter(r, |r|) == GeneratorAfter(lines, n)
      && forall i :: 0 <= i < |r| ==> ChangeAt(r, i).None?
  {
    hide StepOf, Body, IsLine, Unbroken, Lines, MigratedLine;
    if n == 0 {
      assert Relined(lines, 0) == [];
    } else {
      var before, now, r := Relined(lines, n - 1), Lines(MigratedLine(lines, n - 1)), Relined(lines, n);
      RelinedStays(lines, n - 1);
      LineTwice(lines, n - 1);
      forall i | 0 <= i <= |before| ensures GeneratorAfter(r, i) == GeneratorAfter(before, i) {
        GeneratorOfStart(before, now, i);
      }
      NothingToDo(GeneratorAfter(lines, n));
      assert r[|before|] == now[0];
      assert |now| == 2 ==> r[|before| + 1] == now[1];
      assert GeneratorAfter(r, |before| + 1) == GeneratorAfter(lines, n);
      forall i | 0 <= i < |r| ensures ChangeAt(r, i).None? {
        if i < |before| {
          assert r[i] == before[i] && ChangeAt(before, i).None?;
        }
      }
    }
  }

  // ---------------------------------------------------------------- whole texts

  /** The migrated text and the changes made to it. */
  function MigrateText(text: string): (string, seq<(nat, Change)>) {
    (Concat(MigratedLines(Lines(text))), Changes(Lines(text), |Lines(text)|))
  }

  /** A migrated line parts from the migrated line behind it, as the lines they were did. */
  lemma MigratedParts(lines: seq<string>, i: nat)
    requires AreLines(lines) && i + 1 < |lines|
    ensures Parts(MigratedLine(lines, i), MigratedLine(lines, i + 1))
  {
    hide StepOf, Unbroken, Body, Nearly;
    assert Parts(lines[i], lines[i + 1]) && IsLine(lines[i + 1]);
    OneBreak();
    if ChangeAt(lines, i + 1).Some? {
      LineParts(lines[i + 1]);
      RewrittenIsNearly(Body(lines[i + 1]), GeneratorAfter(lines, i + 1));
      StartOfNearly(ChangeAt(lines, i + 1).value.0);
    }
  }

  lemma StartOfNearly(s: string)
    requires s != "" && Nearly(s)
    ensures s[0] != '\n'
  {
    assert |s| > 1 ==> s[..|s| - 1][0] == s[0];
  }

  lemma EndOfConcat(parts: seq<string>, last: string, b: string)
    requires Parts(last, b)
    ensures Parts(Concat(parts + [last]), b)
  {
    ConcatAppend(parts, [last]);
    ConcatOne(last);
  }

  lemma {:induction false} LinesOfMigrated(lines: seq<string>, n: nat)
    requires AreLines(lines) && n <= |lines|
    ensures Lines(Concat(MigratedLines(lines)[..n])) == Relined(lines, n)
  {
    hide AreLines, Parts, Lines, MigratedLine, Concat;
    var now := MigratedLines(lines);
    if n == 0 {
      NothingToSplit();
      assert now[..0] == [];
    } else {
      var start, last := now[..n - 1], now[n - 1];
      assert now[..n] == start + [last];
      ConcatAppend(start, [last]);
      ConcatOne(last);
      LinesOfMigrated(lines, n - 1);
      if n >= 2 {
        MigratedParts(lines, n - 2);
        assert start == now[..n - 2] + [now[n - 2]];
        EndOfConcat(now[..n - 2], now[n - 2], last);
      } else {
        NothingToSplit();
        assert start == [];
      }
      LinesAppend(Concat(start), last);
    }
  }

  lemma NothingToSplit()
    ensures Lines("") == [] && Concat<char>([]) == ""
  {
  }

  lemma EachIsALine(lines: seq<string>)
    requires AreLines(lines)
    ensures forall i :: 0 <= i < |lines| ==> IsLine(lines[i])
  {
  }

  lemma {:induction false} NoChanges(lines: seq<string>, n: nat)
    requires n <= |lines| && forall i :: 0 <= i < n ==> ChangeAt(lines, i).None?
    ensures Changes(lines, n) == []
  {
    hide ChangeAt;
    if n > 0 {
      NoChanges(lines, n - 1);
    }
  }

  /**
   Migrating a text again does nothing, whatever its line ends. The migrated text has as many lines as the text, and one
   more for each rewritten line whose body ends in a break of its own.
   */
  lemma MigratingTwiceIsMigratingOnce(text: string)
    ensures var once := MigrateText(text).0;
      && MigrateText(once) == (once, [])
      && |Lines(once)| == |Lines(text)| + Splits(Lines(text), |Lines(text)|)
  {
    hide Lines, Concat, Changes, AreLines, Relined, ChangeAt;
    var lines := Lines(text);
    var once, n := MigrateText(text).0, |lines|;
    LinesAreLines(text);
    EachIsALine(lines);
    LinesOfMigrated(lines, n);
    assert MigratedLines(lines)[..n] == MigratedLines(lines);
    RelinedStays(lines, n);
    var again := Lines(once);
    NoChanges(again, |again|);
    assert MigratedLines(again) == again;
    LinesRejoin(once);
  }
}

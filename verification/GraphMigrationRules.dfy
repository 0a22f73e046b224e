/**
 Which lines of a graph file the migration rewrites, and to what, told from the text alone: by how lines, ids and argument
 lists are put together, not by how the script takes them apart.
 */
module GraphMigrationRules {
  import opened Basics
  import opened GraphMigration
  import opened GraphMigrationText

  // ---------------------------------------------------------------- how ids are put together

  /** White space, by its code points. */
  lemma WhiteSpaceIs(c: char)
    ensures IsSpace(c) <==> c as int in {
      9, 10, 11, 12, 13, 28, 29, 30, 31, 32, 133, 160, 5760, 8192, 8193, 8194, 8195, 8196, 8197, 8198, 8199, 8200, 8201,
      8202, 8232, 8233, 8239, 8287, 12288}
  {
  }

  /** Line breaks, by their code points. */
  lemma BreaksAre(c: char)
    ensures IsBreak(c) <==> c as int in {10, 11, 12, 13, 28, 29, 30, 133, 8232, 8233}
  {
  }

  lemma QuotesAre(c: char)
    ensures IsQuote(c) <==> c as int in {34, 39}
  {
  }

  predicate AllQuotes(s: string) { forall i :: 0 <= i < |s| ==> IsQuote(s[i]) }

  predicate PlainEnds(s: string) { s != "" ==> !IsSpace(s[0]) && !IsSpace(s[|s| - 1]) }

  predicate BareEnds(s: string) { s != "" ==> !IsQuote(s[0]) && !IsQuote(s[|s| - 1]) }

  predicate NoBracket(s: string) { forall i :: 0 <= i < |s| ==> s[i] != '<' }

  /** White space around `plain`, which neither begins nor ends with any. */
  ghost predicate SpacedFrom(s: string, plain: string) {
    && PlainEnds(plain)
    && exists before, after :: AllSpace(before) && AllSpace(after) && s == before + plain + after
  }

  ghost predicate QuotedFrom(s: string, bare: string) {
    && BareEnds(bare)
    && exists before, after :: AllQuotes(before) && AllQuotes(after) && s == before + bare + after
  }

  /** Stripping leaves the one string that white space can be put around. */
  lemma StrippedIs(s: string, plain: string)
    ensures SpacedFrom(s, plain) <==> plain == Stripped(s)
  {
    hide IsSpace, AllSpace;
    LeadingIsSpace(s);
    var left := LeftStripped(s);
    TrailingIsSpace(left);
    assert s == s[..Leading(s)] + Stripped(s) + left[|left| - Trailing(left)..];
    StrippedIsPlain(s);
    if SpacedFrom(s, plain) {
      var before, after :| AllSpace(before) && AllSpace(after) && s == before + plain + after;
      if plain == "" {
        AllSpaceJoins(before, after);
        assert before + plain + after == before + after;
        SpacesEnd(s, "");
        assert s + "" == s;
      } else {
        StripLeaves(before, plain, after);
      }
    }
  }

  lemma AllSpaceJoins(a: string, b: string)
    requires AllSpace(a) && AllSpace(b)
    ensures AllSpace(a + b)
  {
    hide IsSpace;
  }

  lemma StrippedIsPlain(s: string)
    ensures PlainEnds(Stripped(s))
  {
    hide IsSpace;
    var left := LeftStripped(s);
    if Stripped(s) != "" {
      assert Stripped(s)[0] == left[0];
    }
  }

  lemma {:induction false} LeadingQuotesAre(quotes: string, x: string)
    requires AllQuotes(quotes) && (x != "" ==> !IsQuote(x[0]))
    ensures LeadingQuotes(quotes + x) == |quotes|
  {
    hide IsQuote;
    if quotes == "" {
      assert quotes + x == x;
    } else {
      assert (quotes + x)[1..] == quotes[1..] + x;
      LeadingQuotesAre(quotes[1..], x);
    }
  }

  lemma {:induction false} TrailingQuotesAre(x: string, quotes: string)
    requires AllQuotes(quotes) && (x != "" ==> !IsQuote(x[|x| - 1]))
    ensures TrailingQuotes(x + quotes) == |quotes|
  {
    hide IsQuote;
    if quotes == "" {
      assert x + quotes == x;
    } else {
      var rest := quotes[..|quotes| - 1];
      assert (x + quotes)[..|x + quotes| - 1] == x + rest;
      TrailingQuotesAre(x, rest);
    }
  }

  lemma {:induction false} LeadingQuotesOf(s: string)
    ensures var n := LeadingQuotes(s); AllQuotes(s[..n]) && (n < |s| ==> !IsQuote(s[n]))
  {
    hide IsQuote;
    if LeadingQuotes(s) > 0 {
      LeadingQuotesOf(s[1..]);
      assert s[..LeadingQuotes(s)] == [s[0]] + s[1..][..LeadingQuotes(s) - 1];
    }
  }

  lemma {:induction false} TrailingQuotesOf(s: string)
    ensures var n := TrailingQuotes(s); AllQuotes(s[|s| - n..]) && (n < |s| ==> !IsQuote(s[|s| - 1 - n]))
  {
    hide IsQuote;
    if TrailingQuotes(s) > 0 {
      var rest := s[..|s| - 1];
      TrailingQuotesOf(rest);
      assert s[|s| - TrailingQuotes(s)..] == rest[|rest| - TrailingQuotes(rest)..] + [s[|s| - 1]];
    }
  }

  /** Unquoting leaves the one string that quotes can be put around. */
  lemma UnquotedIs(s: string, bare: string)
    ensures QuotedFrom(s, bare) <==> bare == Unquoted(s)
  {
    hide IsQuote, AllQuotes, Unquoted;
    UnquotedFrom(s);
    if QuotedFrom(s, bare) {
      var before, after :| AllQuotes(before) && AllQuotes(after) && s == before + bare + after;
      QuotesAround(before, bare, after);
    }
  }

  lemma UnquotedFrom(s: string)
    ensures QuotedFrom(s, Unquoted(s))
  {
    hide IsQuote, AllQuotes, LeadingQuotes, TrailingQuotes, BareEnds;
    var n := LeadingQuotes(s);
    var left := s[n..];
    var m := |left| - TrailingQuotes(left);
    LeadingQuotesOf(s);
    TrailingQuotesOf(left);
    assert s == s[..n] + Unquoted(s) + left[m..];
    BareMiddle(left, m);
  }

  lemma BareMiddle(left: string, m: nat)
    requires m <= |left| && (left != "" ==> !IsQuote(left[0])) && (m > 0 ==> !IsQuote(left[m - 1]))
    ensures BareEnds(left[..m])
  {
    hide IsQuote;
  }

  lemma QuotesAround(before: string, bare: string, after: string)
    requires AllQuotes(before) && AllQuotes(after) && BareEnds(bare)
    ensures Unquoted(before + bare + after) == bare
  {
    hide IsQuote;
    if bare == "" {
      assert before + bare + after == before + after + "";
      LeadingQuotesAre(before + after, "");
    } else {
      hide AllQuotes;
      assert before + bare + after == before + (bare + after);
      LeadingQuotesAre(before, bare + after);
      assert (before + (bare + after))[|before|..] == bare + after;
      TrailingQuotesAre(bare, after);
    }
  }

  // ---------------------------------------------------------------- argument lists

  /** How much deeper than before the brackets are behind `s`. */
  function Depth(s: string): int {
    if s == "" then 0
    else
      var c := s[|s| - 1];
      Depth(s[..|s| - 1]) + if c in {'<', '(', '['} then 1 else if c in {'>', ')', ']'} then -1 else 0
  }

  /** Place `n` is a comma outside brackets. */
  predicate TopComma(s: string, n: nat) { n < |s| && s[n] == ',' && Depth(s[..n]) == 0 }

  lemma {:induction false} DepthFromFront(c: char, s: string)
    ensures Depth([c] + s) == Depth(s) + Deeper(c, 0)
  {
    if s == "" {
      assert [c] + s == [c] && [c][..0] == "";
    } else {
      DepthFromFront(c, s[..|s| - 1]);
      assert ([c] + s)[..|s|] == [c] + s[..|s| - 1];
    }
  }

  lemma DepthInRest(s: string, n: nat)
    requires 1 <= n <= |s|
    ensures Depth(s[..n]) == Deeper(s[0], 0) + Depth(s[1..][..n - 1])
  {
    assert s[..n] == [s[0]] + s[1..][..n - 1];
    DepthFromFront(s[0], s[1..][..n - 1]);
  }

  /** The first comma outside brackets of a list that begins at this depth, or its end. */
  function FirstComma(s: string, depth: int): (n: nat)
    ensures n <= |s|
    decreases |s|
  {
    if s == "" || (s[0] == ',' && Deeper(s[0], depth) == 0) then 0 else FirstComma(s[1..], Deeper(s[0], depth)) + 1
  }

  /** A list is divided where it has a comma outside brackets, and the first piece ends at the first. */
  lemma {:induction false} PiecesDivide(s: string, depth: int, current: string)
    ensures |Pieces(s, depth, current)| >= 2 <==> FirstComma(s, depth) < |s|
    ensures Pieces(s, depth, current)[0] == current + s[..FirstComma(s, depth)]
    decreases |s|
  {
    if s == "" || (s[0] == ',' && Deeper(s[0], depth) == 0) {
      assert current + s[..0] == current;
    } else {
      var d, n := Deeper(s[0], depth), FirstComma(s, depth);
      PiecesDivide(s[1..], d, current + [s[0]]);
      assert current + [s[0]] + s[1..][..n - 1] == current + s[..n];
    }
  }

  lemma {:induction false} NoEarlierComma(s: string, depth: int, n: nat)
    requires n <= FirstComma(s, depth) && n < |s|
    ensures s[n] == ',' && depth + Depth(s[..n]) == 0 <==> n == FirstComma(s, depth)
    decreases |s|
  {
    hide Depth;
    if n == 0 {
      assert s[..0] == "";
      NoDepth();
    } else {
      DepthInRest(s, n);
      NoEarlierComma(s[1..], Deeper(s[0], depth), n - 1);
    }
  }

  lemma NoDepth()
    ensures Depth("") == 0
  {
  }

  /** An argument list has two or more arguments exactly when it has a comma outside brackets. */
  lemma ArgumentsDivide(s: string, n: nat)
    ensures TopComma(s, n) ==> |Pieces(s, 0, "")| >= 2
    ensures |Pieces(s, 0, "")| >= 2 ==> exists m :: TopComma(s, m)
    ensures TopComma(s, n) && (forall m :: 0 <= m < n ==> !TopComma(s, m)) ==> Pieces(s, 0, "")[0] == s[..n]
  {
    hide Pieces, Depth;
    var first := FirstComma(s, 0);
    PiecesDivide(s, 0, "");
    assert "" + s[..first] == s[..first];
    if first < |s| {
      NoEarlierComma(s, 0, first);
      assert TopComma(s, first);
    }
    if TopComma(s, n) && n < first {
      NoEarlierComma(s, 0, n);
    }
  }

  // ---------------------------------------------------------------- id lines

  /** What may come before a key: white space, and in a list a dash with white space on both sides of it. */
  ghost predicate IsLead(lead: string) {
    exists before, after :: AllSpace(before) && AllSpace(after) && lead == LeadFrom(before, after)
  }

  /** A line that names a block by `value`. */
  ghost predicate IdLineOf(body: string, lead: string, gap: string, value: string, trail: string) {
    && IsLead(lead) && AllSpace(gap) && PlainEnds(value) && AllSpace(trail)
    && body == lead + "id:" + (gap + value + trail)
  }

  /** What is behind a key is the gap, the value and the trail. */
  lemma RestIs(rest: string)
    ensures AllSpace(Gap(rest)) && PlainEnds(Stripped(rest)) && AllSpace(Trail(rest))
    ensures rest == Gap(rest) + Stripped(rest) + Trail(rest)
  {
    hide IsSpace, AllSpace;
    LeadingIsSpace(rest);
    TrailingIsSpace(LeftStripped(rest));
    StrippedIsPlain(rest);
  }

  lemma RestTakenApart(gap: string, value: string, trail: string)
    requires AllSpace(gap) && PlainEnds(value) && AllSpace(trail)
    ensures var rest := gap + value + trail;
      Stripped(rest) == value && (value != "" ==> Gap(rest) == gap && Trail(rest) == trail)
  {
    hide IsSpace, AllSpace;
    var rest := gap + value + trail;
    assert SpacedFrom(rest, value);
    StrippedIs(rest, value);
    if value != "" {
      assert rest == gap + (value + trail);
      SpacesEnd(gap, value + trail);
      assert LeftStripped(rest) == value + trail;
      SpacesStart(value, trail);
    }
  }

  /** Every line that parses as an id line is put together this way. */
  lemma ParsedIsIdLine(body: string)
    requires ParseId(body).Some?
    ensures var l := ParseId(body).value; IdLineOf(body, l.lead, Gap(l.rest), Stripped(l.rest), Trail(l.rest))
  {
    hide IsSpace, AllSpace, LeadOf, Gap, Trail, Stripped;
    var l := ParseId(body).value;
    var before, after := ParsedLead(body);
    IdLineParts(body);
    assert body[|l.lead|..][..3] == "id:";
    assert body == l.lead + "id:" + l.rest;
    RestIs(l.rest);
  }

  /** Every line that is put together this way parses as it is. */
  lemma IdLineParses(body: string, lead: string, gap: string, value: string, trail: string)
    requires IdLineOf(body, lead, gap, value, trail)
    ensures ParseId(body) == Some(IdLine(lead, gap + value + trail)) && Stripped(gap + value + trail) == value
    ensures value != "" ==> Gap(gap + value + trail) == gap && Trail(gap + value + trail) == trail
    ensures exists before, after :: lead == LeadFrom(before, after) && Leading(body) == |before|
  {
    var before, after :| AllSpace(before) && AllSpace(after) && lead == LeadFrom(before, after);
    hide IsSpace, AllSpace, LeadOf, Gap, Trail, Stripped, PlainEnds, Leading, LeadFrom;
    var rest := gap + value + trail;
    RestTakenApart(gap, value, trail);
    LeadEnds(before, after, "id:" + rest);
    KeyBehind(body, lead, rest);
  }

  lemma KeyBehind(body: string, lead: string, rest: string)
    requires body == lead + "id:" + rest && LeadOf(lead + ("id:" + rest)) == |lead|
    ensures ParseId(body) == Some(IdLine(lead, rest)) && body == lead + ("id:" + rest)
  {
    hide LeadOf;
    var x := "id:" + rest;
    assert body == lead + x;
    assert (lead + x)[|lead|..] == x && x[..3] == "id:" && body[|lead| + 3..] == rest;
    assert body[..|lead|] == lead;
  }

  ghost predicate IsIdLine(body: string) {
    exists lead, gap, value, trail :: IdLineOf(body, lead, gap, value, trail)
  }

  lemma IdLinesParse(body: string)
    ensures IsIdLine(body) <==> ParseId(body).Some?
  {
    hide ParseId, IdLineOf;
    if ParseId(body).Some? {
      ParsedIsIdLine(body);
    }
    if IsIdLine(body) {
      var lead, gap, value, trail :| IdLineOf(body, lead, gap, value, trail);
      IdLineParses(body, lead, gap, value, trail);
    }
  }

  /** An id is, between quotes, a base name with white space around it and the argument list, if any. */
  ghost predicate IdOf(value: string, prefix: string, name: string, list: string) {
    && QuotedFrom(value, prefix + list) && SpacedFrom(prefix, name)
    && NoBracket(prefix) && (list != "" ==> list[0] == '<')
  }

  lemma IdTakenApart(value: string, prefix: string, name: string, list: string)
    requires IdOf(value, prefix, name, list)
    ensures var id := Unquoted(value);
      && id == prefix + list && Bracket(id) == |prefix| && id[..|prefix|] == prefix && id[|prefix|..] == list
      && BaseName(id) == name
  {
    hide QuotedFrom, SpacedFrom, Unquoted, Stripped;
    UnquotedIs(value, prefix + list);
    StrippedIs(prefix, name);
    assert (prefix + list)[..|prefix|] == prefix;
    BracketIs(prefix + list, |prefix|);
  }

  lemma EveryIdIsOne(value: string)
    ensures var id := Unquoted(value); IdOf(value, id[..Bracket(id)], BaseName(id), id[Bracket(id)..])
  {
    hide QuotedFrom, SpacedFrom, Unquoted, Stripped;
    var id := Unquoted(value);
    UnquotedIs(value, id);
    assert id == id[..Bracket(id)] + id[Bracket(id)..];
    StrippedIs(id[..Bracket(id)], BaseName(id));
  }

  /** The name of a family, in full. */
  ghost predicate IsFamily(name: string) {
    exists k :: 0 <= k < |FAMILIES| && name == BLOCKS + FAMILIES[k]
  }

  predicate IsGenerator(name: string) {
    name == "gr::blocks::basic::SignalGenerator" || name == "gr::blocks::basic::FunctionGenerator"
  }

  lemma NameInFull(name: string, families: seq<string>)
    ensures IsOneOf(name, families) <==> exists k :: 0 <= k < |families| && name == BLOCKS + families[k]
  {
    if IsOneOf(name, families) {
      assert name == BLOCKS + name[|BLOCKS|..];
    }
    if k :| 0 <= k < |families| && name == BLOCKS + families[k] {
      assert name[..|BLOCKS|] == BLOCKS && name[|BLOCKS|..] == families[k];
    }
  }

  lemma FamilyInFull(name: string)
    ensures IsOneOf(name, FAMILIES) <==> IsFamily(name)
  {
    hide FAMILIES, BLOCKS, IsOneOf;
    NameInFull(name, FAMILIES);
  }

  lemma ThirtyThreeFamilies()
    ensures |FAMILIES| == 33
  {
  }

  lemma GeneratorInFull(name: string)
    ensures IsOneOf(name, GENERATORS) <==> IsGenerator(name)
  {
    hide IsOneOf, FAMILIES;
    NameInFull(name, GENERATORS);
    assert BLOCKS + GENERATORS[0] == "gr::blocks::basic::SignalGenerator";
    assert BLOCKS + GENERATORS[1] == "gr::blocks::basic::FunctionGenerator";
  }

  // ---------------------------------------------------------------- which lines are rewritten

  predicate IsLineEnd(c: char) { c == '\n' || c == '\r' }

  /** A body is the line without every newline and carriage return at its end. */
  lemma {:induction false} BodyIs(line: string)
    ensures Body(line) <= line && forall i :: |Body(line)| <= i < |line| ==> IsLineEnd(line[i])
    ensures Body(line) != "" ==> !IsLineEnd(Body(line)[|Body(line)| - 1])
  {
    if line != "" && IsLineEnd(line[|line| - 1]) {
      BodyIs(line[..|line| - 1]);
    } else {
      assert Body(line) == line;
    }
  }

  /** An id line of one of the two generators. */
  ghost predicate NamesGenerator(body: string) {
    exists lead, gap, value, trail, prefix, name, list ::
      IdLineOf(body, lead, gap, value, trail) && IdOf(value, prefix, name, list) && IsGenerator(name)
  }

  lemma GeneratorLines(body: string)
    requires ParseId(body).Some?
    ensures NamesGenerator(body) <==> IsOneOf(BaseName(Unquoted(Stripped(Stripped(ParseId(body).value.rest)))), GENERATORS)
  {
    hide IdLineOf, IdOf, IsOneOf, IsGenerator, Gap, Trail, Stripped, Unquoted, BaseName, GENERATORS;
    var l := ParseId(body).value;
    var value := Stripped(l.rest);
    var id := Unquoted(value);
    IdStrippedTwice(l.rest);
    ParsedIsIdLine(body);
    EveryIdIsOne(value);
    GeneratorInFull(BaseName(id));
    if NamesGenerator(body) {
      var lead, gap, other, trail, prefix, name, list :|
        IdLineOf(body, lead, gap, other, trail) && IdOf(other, prefix, name, list) && IsGenerator(name);
      IdLineParses(body, lead, gap, other, trail);
      IdTakenApart(other, prefix, name, list);
    }
  }

  /** Line `j` names a generator, and every line from there on up to `n` belongs to it or is blank. */
  ghost predicate InGenerator(lines: seq<string>, j: nat, n: nat)
    requires n <= |lines|
  {
    && j < n && NamesGenerator(Body(lines[j]))
    && forall k :: j < k < n ==>
         && !IsIdLine(Body(lines[k]))
         && (AllSpace(Body(lines[k])) || Leading(Body(lines[k])) > Leading(Body(lines[j])))
  }

  lemma BlankLine(body: string)
    ensures AllSpace(body) <==> Leading(body) == |body|
  {
    hide IsSpace;
    LeadingIsSpace(body);
    if Leading(body) == |body| {
      assert body[..|body|] == body;
    }
  }

  /** What one line does to the generator that holds. */
  lemma GeneratorGoesOn(body: string, generator: Option<nat>)
    ensures var now := StepOf(body, generator).0;
      if IsIdLine(body) then now == if NamesGenerator(body) then Some(Leading(body)) else None
      else
        now == if generator.Some? && (AllSpace(body) || Leading(body) > generator.value) then generator else None
  {
    hide NamesGenerator, IsIdLine, AllSpace, IsOneOf, Gap, Trail, Stripped, Unquoted, BaseName, MigratedId, ParseId, StartsWith;
    IdLinesParse(body);
    BlankLine(body);
    if ParseId(body).Some? {
      GeneratorLines(body);
    }
  }

  /** The generator that holds after `n` lines is the one they end in. */
  lemma {:induction false} GeneratorIsTheLinesOwn(lines: seq<string>, n: nat)
    requires n <= |lines|
    ensures GeneratorAfter(lines, n).Some? ==>
      exists j: nat :: InGenerator(lines, j, n) && GeneratorAfter(lines, n).value == Leading(Body(lines[j]))
    ensures forall j: nat :: InGenerator(lines, j, n) ==> GeneratorAfter(lines, n) == Some(Leading(Body(lines[j])))
  {
    hide StepOf, Body, NamesGenerator, IsIdLine, AllSpace, Leading;
    if n > 0 {
      var last := n - 1;
      var body := Body(lines[last]);
      GeneratorIsTheLinesOwn(lines, last);
      GeneratorGoesOn(body, GeneratorAfter(lines, last));
      NamedIsIdLine(body);
      forall j: nat | InGenerator(lines, j, n) ensures GeneratorAfter(lines, n) == Some(Leading(Body(lines[j]))) {
        if j < last {
          assert InGenerator(lines, j, last);
        }
      }
      if GeneratorAfter(lines, n).Some? {
        if IsIdLine(body) {
          assert InGenerator(lines, last, n);
        } else {
          var j: nat :| InGenerator(lines, j, last) && GeneratorAfter(lines, last).value == Leading(Body(lines[j]));
          assert InGenerator(lines, j, n);
        }
      }
    }
  }

  lemma NamedIsIdLine(body: string)
    ensures NamesGenerator(body) ==> IsIdLine(body)
  {
  }

  /** A line that sets a frequency. */
  ghost predicate FrequencyLine(body: string, indent: string, rest: string) {
    AllSpace(indent) && body == indent + "frequency:" + rest
  }

  ghost predicate SetsFrequency(body: string) { exists indent, rest :: FrequencyLine(body, indent, rest) }

  /** A line with that key behind its white space sets a frequency. */
  lemma KeyIsFrequency(body: string)
    requires StartsWith(body[Leading(body)..], "frequency:")
    ensures SetsFrequency(body)
  {
    hide IsSpace, AllSpace;
    var n := Leading(body);
    LeadingIsSpace(body);
    assert body[n..][..10] == "frequency:" && body[n..][10..] == body[n + 10..];
    assert FrequencyLine(body, body[..n], body[n + 10..]);
  }

  lemma FrequencyIsKey(body: string, indent: string, rest: string)
    requires FrequencyLine(body, indent, rest)
    ensures StartsWith(body[Leading(body)..], "frequency:") && Leading(body) == |indent|
    ensures |indent| + 10 <= |body| && body[..|indent|] == indent && body[|indent| + 10..] == rest
  {
    assert !IsSpace('f');
    hide IsSpace, AllSpace, Leading;
    var x := "frequency:" + rest;
    assert body == indent + x && x[0] == 'f';
    SpacesEnd(indent, x);
    assert (indent + x)[|indent|..] == x && x[..10] == "frequency:" && x[10..] == rest;
    assert body[|indent| + 10..] == x[10..];
  }

  /**
   A line that is no id line is rewritten exactly when it sets a frequency and the nearest id line above it names a
   generator, with every line since then blank or indented deeper. Its key becomes `tone_frequency`.
   */
  lemma FrequencyIsRenamed(lines: seq<string>, i: nat, next: nat, indent: string, rest: string)
    requires i < |lines| && next == i + 1 && !IsIdLine(Body(lines[i]))
    ensures ChangeAt(lines, i).Some? ==> SetsFrequency(Body(lines[i]))
    ensures FrequencyLine(Body(lines[i]), indent, rest) ==>
      (ChangeAt(lines, i).Some? <==> exists j: nat :: InGenerator(lines, j, next))
    ensures FrequencyLine(Body(lines[i]), indent, rest) && ChangeAt(lines, i).Some? ==>
      ChangeAt(lines, i).value == (indent + "tone_frequency:" + rest, FrequencyRenamed)
  {
    hide StepOf, Body, IsIdLine, InGenerator, FrequencyLine, SetsFrequency, StartsWith, Leading, ParseId;
    var body := Body(lines[i]);
    IdLinesParse(body);
    GeneratorIsTheLinesOwn(lines, next);
    PlainStep(body, GeneratorAfter(lines, i));
    if ChangeAt(lines, i).Some? {
      assert StartsWith(body[Leading(body)..], "frequency:");
      KeyIsFrequency(body);
    }
    if FrequencyLine(body, indent, rest) {
      FrequencyIsKey(body, indent, rest);
    }
  }

  lemma PlainStep(body: string, generator: Option<nat>)
    requires ParseId(body).None?
    ensures var (now, change) := StepOf(body, generator);
      change ==
        if now.Some? && StartsWith(body[Leading(body)..], "frequency:") then
          Some((body[..Leading(body)] + "tone_frequency:" + body[Leading(body) + 10..], FrequencyRenamed))
        else None
  {
    hide Leading, ParseId;
  }

  /** The list holds `inner`, and `n` is the first comma there that is outside brackets. */
  predicate Divides(list: string, inner: string, n: nat) {
    && list == "<" + inner + ">" && TopComma(inner, n)
    && forall m: nat :: m < n ==> !TopComma(inner, m)
  }

  lemma {:induction false} FirstTopComma(s: string, n: nat) returns (m: nat)
    requires TopComma(s, n)
    ensures m <= n && TopComma(s, m) && forall k: nat :: k < m ==> !TopComma(s, k)
  {
    if k: nat :| k < n && TopComma(s, k) {
      m := FirstTopComma(s, k);
    } else {
      m := n;
    }
  }

  /** What an id is migrated to, by the pieces of its list. */
  lemma ListOfId(value: string, prefix: string, name: string, args: string)
    requires IdOf(value, prefix, name, "<" + args + ">") && Stripped(value) == value
    ensures MigratedId(value) ==
      if IsFamily(name) && |Pieces(args, 0, "")| >= 2 then Some(prefix + "<" + Stripped(Pieces(args, 0, "")[0]) + ">")
      else None
  {
    hide IsFamily, IdOf, Unquoted, Stripped, IsOneOf, Pieces, Bracket, BaseName;
    IdTakenApart(value, prefix, name, "<" + args + ">");
    FamilyInFull(name);
    var id := prefix + ("<" + args + ">");
    assert id[|prefix| + 1..|id| - 1] == args && id[|id| - 1] == '>';
  }

  lemma OpenListStays(value: string, prefix: string, name: string, list: string)
    requires IdOf(value, prefix, name, list) && Stripped(value) == value && MigratedId(value).Some?
    ensures |list| >= 2 && list == "<" + list[1..|list| - 1] + ">"
  {
    hide Unquoted, Stripped, IsOneOf, Pieces, Bracket, BaseName, QuotedFrom, SpacedFrom, NoBracket;
    IdTakenApart(value, prefix, name, list);
    assert list != "";
    assert (prefix + list)[|prefix + list| - 1] == list[|list| - 1];
  }

  /** What an id is migrated to. */
  lemma MigratedIdIs(value: string, prefix: string, name: string, list: string, inner: string, n: nat)
    requires IdOf(value, prefix, name, list) && Stripped(value) == value
    ensures MigratedId(value).Some? ==> IsFamily(name) && exists args, k :: Divides(list, args, k)
    ensures IsFamily(name) && Divides(list, inner, n) ==>
      MigratedId(value) == Some(prefix + "<" + Stripped(inner[..n]) + ">")
  {
    hide IsFamily, IdOf, Stripped, Pieces, TopComma, MigratedId;
    if MigratedId(value).Some? {
      OpenListStays(value, prefix, name, list);
      var args := list[1..|list| - 1];
      ListOfId(value, prefix, name, args);
      ArgumentsDivide(args, 0);
      var k: nat :| TopComma(args, k);
      var m := FirstTopComma(args, k);
      assert Divides(list, args, m);
    }
    if Divides(list, inner, n) {
      ListOfId(value, prefix, name, inner);
      ArgumentsDivide(inner, n);
    }
  }

  /** The line with `id` in the place of `value`, and the report of it. */
  function IdChange(lead: string, gap: string, value: string, id: string, trail: string): Option<(string, Change)> {
    Some((lead + "id:" + gap + id + trail, IdChanged(value, id)))
  }

  /**
   An id line is rewritten exactly when its base name is that of one of the families and its list has two or more
   arguments. It then keeps everything up to its first argument, without the quotes.
   */
  lemma IdIsMigrated(lines: seq<string>, i: nat, lead: string, gap: string, value: string, trail: string,
                     prefix: string, name: string, list: string, inner: string, n: nat)
    requires i < |lines| && IdLineOf(Body(lines[i]), lead, gap, value, trail) && IdOf(value, prefix, name, list)
    ensures ChangeAt(lines, i).Some? ==> IsFamily(name) && exists args, k :: Divides(list, args, k)
    ensures IsFamily(name) && Divides(list, inner, n) ==>
      ChangeAt(lines, i) == IdChange(lead, gap, value, prefix + "<" + Stripped(inner[..n]) + ">", trail)
  {
    hide IdLineOf, IdOf, IsFamily, Body, MigratedId, Divides, Stripped, ParseId, Gap, Trail, BaseName, IsOneOf;
    var body := Body(lines[i]);
    IdLineParses(body, lead, gap, value, trail);
    IdStrippedTwice(gap + value + trail);
    MigratedIdIs(value, prefix, name, list, inner, n);
    IdOfNothing();
    NamedStep(body, GeneratorAfter(lines, i));
  }

  lemma NamedStep(body: string, generator: Option<nat>)
    requires ParseId(body).Some?
    ensures var l := ParseId(body).value;
      var m := MigratedId(Stripped(l.rest));
      var change := StepOf(body, generator).1;
      if m.None? then change.None?
      else change == IdChange(l.lead, Gap(l.rest), Stripped(Stripped(l.rest)), m.value, Trail(l.rest))
  {
    hide MigratedId, Stripped, ParseId, Gap, Trail, BaseName, IsOneOf, Leading;
  }
}

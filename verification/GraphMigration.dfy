/** The script that carries saved flow graphs over two renames: which lines it rewrites, and that once is enough. */
module GraphMigration {
  import opened Basics

  // ---------------------------------------------------------------- white space

  predicate IsSpace(c: char) {
    || c == ' ' || '\t' <= c <= '\r' || 0x1C as char <= c <= 0x1F as char || c == 0x85 as char || c == 0xA0 as char
    || c == 0x1680 as char || 0x2000 as char <= c <= 0x200A as char || c == 0x2028 as char || c == 0x2029 as char
    || c == 0x202F as char || c == 0x205F as char || c == 0x3000 as char
  }

  /** The characters that end a line. */
  predicate IsBreak(c: char) {
    || '\n' <= c <= '\r' || 0x1C as char <= c <= 0x1E as char || c == 0x85 as char || c == 0x2028 as char
    || c == 0x2029 as char
  }

  predicate IsQuote(c: char) { c == '\'' || c == '"' }

  predicate Unbroken(s: string) { forall i :: 0 <= i < |s| ==> !IsBreak(s[i]) }

  predicate AllSpace(s: string) { forall i :: 0 <= i < |s| ==> IsSpace(s[i]) }

  /** How many characters at the start are white space. */
  function Leading(s: string): (n: nat)
    ensures n <= |s| && (n < |s| ==> !IsSpace(s[n]))
  {
    if s == "" || !IsSpace(s[0]) then 0 else Leading(s[1..]) + 1
  }

  function Trailing(s: string): (n: nat)
    ensures n <= |s| && (n < |s| ==> !IsSpace(s[|s| - 1 - n]))
  {
    if s == "" || !IsSpace(s[|s| - 1]) then 0 else Trailing(s[..|s| - 1]) + 1
  }

  function LeftStripped(s: string): string { s[Leading(s)..] }

  function RightStripped(s: string): string { s[..|s| - Trailing(s)] }

  function Stripped(s: string): string { RightStripped(LeftStripped(s)) }

  function LeadingQuotes(s: string): (n: nat)
    ensures n <= |s|
  {
    if s == "" || !IsQuote(s[0]) then 0 else LeadingQuotes(s[1..]) + 1
  }

  function TrailingQuotes(s: string): (n: nat)
    ensures n <= |s|
  {
    if s == "" || !IsQuote(s[|s| - 1]) then 0 else TrailingQuotes(s[..|s| - 1]) + 1
  }

  function Unquoted(s: string): string {
    var t := s[LeadingQuotes(s)..];
    t[..|t| - TrailingQuotes(t)]
  }

  lemma {:induction false} LeadingIsSpace(s: string)
    ensures AllSpace(s[..Leading(s)])
  {
    hide IsSpace;
    if Leading(s) > 0 {
      LeadingIsSpace(s[1..]);
      assert s[..Leading(s)] == [s[0]] + s[1..][..Leading(s) - 1];
    }
  }

  lemma {:induction false} TrailingIsSpace(s: string)
    ensures AllSpace(s[|s| - Trailing(s)..])
  {
    hide IsSpace;
    if Trailing(s) > 0 {
      var rest := s[..|s| - 1];
      TrailingIsSpace(rest);
      assert s[|s| - Trailing(s)..] == rest[|rest| - Trailing(rest)..] + [s[|s| - 1]];
    }
  }

  /** White space before a plain character is what is counted. */
  lemma {:induction false} SpacesEnd(space: string, x: string)
    requires AllSpace(space) && (x != "" ==> !IsSpace(x[0]))
    ensures Leading(space + x) == |space|
  {
    hide IsSpace;
    if space == "" {
      assert space + x == x;
    } else {
      assert (space + x)[1..] == space[1..] + x;
      SpacesEnd(space[1..], x);
    }
  }

  lemma {:induction false} SpacesStart(x: string, space: string)
    requires AllSpace(space) && (x != "" ==> !IsSpace(x[|x| - 1]))
    ensures Trailing(x + space) == |space|
  {
    hide IsSpace;
    if space == "" {
      assert x + space == x;
    } else {
      var rest := space[..|space| - 1];
      assert (x + space)[..|x + space| - 1] == x + rest;
      SpacesStart(x, rest);
    }
  }

  /** A string with a plain character at both ends between white space is what stripping leaves. */
  lemma StripLeaves(before: string, s: string, after: string)
    requires AllSpace(before) && AllSpace(after)
    requires s != "" && !IsSpace(s[0]) && !IsSpace(s[|s| - 1])
    ensures Stripped(before + s + after) == s
  {
    hide IsSpace, AllSpace;
    assert before + s + after == before + (s + after);
    SpacesEnd(before, s + after);
    assert LeftStripped(before + s + after) == s + after;
    SpacesStart(s, after);
  }

  // ---------------------------------------------------------------- template arguments

  /** The bracket depth after a character. */
  function Deeper(c: char, depth: int): int {
    if c == '<' || c == '(' || c == '[' then depth + 1
    else if c == '>' || c == ')' || c == ']' then depth - 1
    else depth
  }

  /** The pieces between commas outside brackets, when `current` of the first came before at this depth. */
  function Pieces(s: string, depth: int, current: string): (r: seq<string>)
    ensures r != []
    decreases |s|
  {
    if s == "" then [current]
    else
      var d := Deeper(s[0], depth);
      if s[0] == ',' && d == 0 then [current] + Pieces(s[1..], d, "")
      else Pieces(s[1..], d, current + [s[0]])
  }

  method SplitTopLevel(arguments: string) returns (parts: seq<string>)
    ensures |parts| == |Pieces(arguments, 0, "")|
    ensures forall i :: 0 <= i < |parts| ==> parts[i] == Stripped(Pieces(arguments, 0, "")[i])
  {
    var raw: seq<string>, depth, current := [], 0, "";
    assert arguments[0..] == arguments;
    for i := 0 to |arguments|
      invariant raw + Pieces(arguments[i..], depth, current) == Pieces(arguments, 0, "")
    {
      var c := arguments[i];
      assert arguments[i..][1..] == arguments[i + 1..];
      depth := Deeper(c, depth);
      if c == ',' && depth == 0 {
        ghost var before := raw;
        raw := raw + [current];
        current := "";
        var rest := Pieces(arguments[i + 1..], depth, "");
        assert raw + rest == before + ([raw[|before|]] + rest);
      } else {
        current := current + [c];
      }
    }
    raw := raw + [current];
    parts := seq(|raw|, i requires 0 <= i < |raw| => Stripped(raw[i]));
  }

  function Joined(parts: seq<string>): string
    requires parts != []
  {
    if |parts| == 1 then parts[0] else parts[0] + "," + Joined(parts[1..])
  }

  /** Put together again with commas, the pieces give back the argument list. */
  lemma {:induction false} PiecesJoin(s: string, depth: int, current: string)
    ensures Joined(Pieces(s, depth, current)) == current + s
    decreases |s|
  {
    if s != "" {
      var d := Deeper(s[0], depth);
      if s[0] == ',' && d == 0 {
        PiecesJoin(s[1..], d, "");
        var rest := Pieces(s[1..], d, "");
        assert ([current] + rest)[1..] == rest;
        assert current + "," + s[1..] == current + s;
      } else {
        PiecesJoin(s[1..], d, current + [s[0]]);
        assert current + [s[0]] + s[1..] == current + s;
      }
    }
  }

  /** One piece and no more, whatever came before. */
  predicate OnePiece(s: string, depth: int)
    decreases |s|
  {
    s == "" || (!(s[0] == ',' && Deeper(s[0], depth) == 0) && OnePiece(s[1..], Deeper(s[0], depth)))
  }

  lemma {:induction false} OnePieceAlone(s: string, depth: int, current: string)
    requires OnePiece(s, depth)
    ensures Pieces(s, depth, current) == [current + s]
    decreases |s|
  {
    if s == "" {
      assert current + s == current;
    } else {
      OnePieceAlone(s[1..], Deeper(s[0], depth), current + [s[0]]);
      assert current + [s[0]] + s[1..] == current + s;
    }
  }

  /** The first piece is a start of the argument list, and is one piece itself. */
  lemma {:induction false} FirstPiece(s: string, depth: int, current: string) returns (n: nat)
    ensures n <= |s| && Pieces(s, depth, current)[0] == current + s[..n] && OnePiece(s[..n], depth)
    decreases |s|
  {
    if s == "" || (s[0] == ',' && Deeper(s[0], depth) == 0) {
      n := 0;
      assert current + s[..0] == current;
    } else {
      var m := FirstPiece(s[1..], Deeper(s[0], depth), current + [s[0]]);
      n := m + 1;
      assert s[..n][1..] == s[1..][..m];
      assert current + [s[0]] + s[1..][..m] == current + s[..n];
    }
  }

  lemma {:induction false} OnePieceStart(s: string, depth: int, n: nat)
    requires OnePiece(s, depth) && n <= |s|
    ensures OnePiece(s[..n], depth)
    decreases |s|
  {
    if n > 0 {
      OnePieceStart(s[1..], Deeper(s[0], depth), n - 1);
      assert s[..n][1..] == s[1..][..n - 1];
    }
  }

  lemma {:induction false} OnePieceStripped(s: string, depth: int)
    requires OnePiece(s, depth)
    ensures OnePiece(Stripped(s), depth)
    decreases |s|
  {
    if s != "" && IsSpace(s[0]) {
      OnePieceStripped(s[1..], depth);
      assert LeftStripped(s) == LeftStripped(s[1..]);
    } else {
      assert LeftStripped(s) == s;
      OnePieceStart(s, depth, |s| - Trailing(s));
    }
  }

  // ---------------------------------------------------------------- block ids

  const BLOCKS := "gr::blocks::"

  const GENERATORS: seq<string> := ["basic::SignalGenerator", "basic::FunctionGenerator"]

  /** The families whose aliases named their fixed template arguments. */
  const FAMILIES: seq<string> := [
    "basic::SchmittTrigger",
    "basic::SchmittTriggerBasic",
    "basic::SchmittTriggerNoInterpolation",
    "basic::SchmittTriggerPolynomial",
    "basic::StreamFilter",
    "basic::StreamToDataSet",
    "electrical::SinglePhasePowerFactorCalculator",
    "electrical::SinglePhasePowerMetrics",
    "electrical::ThreePhasePowerFactorCalculator",
    "electrical::ThreePhasePowerMetrics",
    "electrical::ThreePhaseSystemUnbalanceCalculator",
    "electrical::TwoPhaseSystemUnbalanceCalculator",
    "filter::FrequencyEstimatorFrequencyDomainDecimating",
    "filter::FrequencyEstimatorTimeDomainDecimating",
    "filter::IQDemodulator",
    "math::Add",
    "math::AddConst",
    "math::Divide",
    "math::DivideConst",
    "math::Multiply",
    "math::MultiplyConst",
    "math::Subtract",
    "math::SubtractConst",
    "sdr::SoapyDualSink",
    "sdr::SoapyDualSource",
    "sdr::SoapyQuadSink",
    "sdr::SoapySink",
    "sdr::SoapySource",
    "testing::ConsoleDebugSink",
    "testing::ImChartMonitor",
    "testing::TagMonitor",
    "testing::TagSink",
    "testing::TagSource"]

  predicate StartsWith(s: string, prefix: string) { |prefix| <= |s| && s[..|prefix|] == prefix }

  lemma StartsOtherwise(s: string, prefix: string)
    requires prefix != "" && (s == "" || s[0] != prefix[0])
    ensures !StartsWith(s, prefix)
  {
  }

  predicate IsOneOf(name: string, families: seq<string>) {
    StartsWith(name, BLOCKS) && name[|BLOCKS|..] in families
  }

  /** Where the first `<` stands, or the end. */
  function Bracket(s: string): (n: nat)
    ensures n <= |s| && (n < |s| ==> s[n] == '<')
    ensures forall i :: 0 <= i < n ==> s[i] != '<'
  {
    if s == "" || s[0] == '<' then 0 else Bracket(s[1..]) + 1
  }

  function BaseName(id: string): string { Stripped(id[..Bracket(id)]) }

  /** The first template argument of an id that ends its list, and nothing for one argument or none. */
  function MigratedId(id: string): Option<string> {
    var stripped := Unquoted(Stripped(id));
    var n := Bracket(stripped);
    if !IsOneOf(BaseName(stripped), FAMILIES) || n == |stripped| || stripped[|stripped| - 1] != '>' then None
    else
      var pieces := Pieces(stripped[n + 1..|stripped| - 1], 0, "");
      if |pieces| < 2 then None else Some(stripped[..n] + "<" + Stripped(pieces[0]) + ">")
  }

  lemma FamiliesArePlain(name: string, families: seq<string>)
    requires IsOneOf(name, families)
    ensures name != "" && name[0] == 'g'
  {
  }

  lemma {:induction false} BracketIs(s: string, n: nat)
    requires n <= |s| && (forall i :: 0 <= i < n ==> s[i] != '<') && (n < |s| ==> s[n] == '<')
    ensures Bracket(s) == n
  {
  }

  lemma PlainStays(s: string)
    requires s != "" && !IsSpace(s[0]) && !IsQuote(s[0]) && !IsSpace(s[|s| - 1]) && !IsQuote(s[|s| - 1])
    ensures Stripped(s) == s && Unquoted(s) == s
  {
    hide IsSpace;
  }

  lemma IdParts(name: string, argument: string)
    requires forall i :: 0 <= i < |name| ==> name[i] != '<'
    ensures var id := name + "<" + argument + ">";
      && Bracket(id) == |name| && id[..|name|] == name && id[|name| + 1..|id| - 1] == argument
      && id[|id| - 1] == '>' && (name != "" ==> id[0] == name[0])
  {
    var id := name + "<" + argument + ">";
    assert forall i :: 0 <= i < |name| ==> id[i] == name[i];
    BracketIs(id, |name|);
  }

  /** An id of the form a migration leaves: a name that starts plainly, and one argument. */
  lemma SettledIdStays(name: string, argument: string)
    requires name != "" && !IsSpace(name[0]) && !IsQuote(name[0]) && OnePiece(argument, 0)
    requires forall i :: 0 <= i < |name| ==> name[i] != '<'
    ensures var id := name + "<" + argument + ">";
      && Unquoted(Stripped(id)) == id && BaseName(id) == Stripped(name) && MigratedId(id) == None
  {
    hide Stripped, Unquoted, Bracket, OnePiece, Pieces, IsOneOf;
    var id := name + "<" + argument + ">";
    IdParts(name, argument);
    PlainStays(id);
    OnePieceAlone(argument, 0, "");
  }

  /** What a migrated id is made of: the name as it was, and a first argument without a comma outside brackets. */
  lemma MigratedIdParts(id: string) returns (name: string, argument: string)
    requires MigratedId(id).Some?
    ensures MigratedId(id) == Some(name + "<" + argument + ">") && OnePiece(argument, 0)
    ensures forall i :: 0 <= i < |name| ==> name[i] != '<'
    ensures Stripped(name) == BaseName(Unquoted(Stripped(id))) && Stripped(name) != "" && Stripped(name)[0] == 'g'
  {
    hide OnePiece, IsOneOf, IsSpace, IsQuote;
    var stripped := Unquoted(Stripped(id));
    var n := Bracket(stripped);
    name := stripped[..n];
    var list := stripped[n + 1..|stripped| - 1];
    argument := Stripped(Pieces(list, 0, "")[0]);
    FamiliesArePlain(Stripped(name), FAMILIES);
    hide Stripped, Unquoted, Bracket;
    var m := FirstPiece(list, 0, "");
    assert "" + list[..m] == list[..m];
    OnePieceStripped(list[..m], 0);
  }

  /** A migrated id, stripped, needs no migration and has the base name it had. */
  lemma MigratedIdStays(id: string)
    requires MigratedId(id).Some?
    ensures var migrated, v := MigratedId(id).value, LeftStripped(MigratedId(id).value);
      && migrated != "" && migrated[|migrated| - 1] == '>'
      && v != "" && !IsSpace(v[0]) && v[|v| - 1] == '>'
      && Unquoted(Stripped(v)) == v && MigratedId(v) == None
      && BaseName(v) == BaseName(Unquoted(Stripped(id)))
  {
    hide MigratedId, OnePiece, BaseName, Unquoted, IsSpace;
    var name, argument := MigratedIdParts(id);
    StrippedStart(name);
    StrippedTwice(name);
    hide Stripped;
    var plain, migrated := LeftStripped(name), name + "<" + argument + ">";
    LeadingIsSpace(name);
    assert migrated == name[..Leading(name)] + (plain + "<" + argument + ">");
    SpacesEnd(name[..Leading(name)], plain + "<" + argument + ">");
    assert LeftStripped(migrated) == plain + "<" + argument + ">";
    SettledIdStays(plain, argument);
  }

  lemma StrippedStart(s: string)
    requires Stripped(s) != ""
    ensures Leading(s) < |s| && LeftStripped(s)[0] == Stripped(s)[0] && !IsSpace(LeftStripped(s)[0])
  {
  }

  lemma StrippedTwice(s: string)
    ensures Stripped(LeftStripped(s)) == Stripped(s)
  {
  }

  // ---------------------------------------------------------------- lines

  /** A line that names a block: what comes before `id:`, list dash and all, and what comes after. */
  datatype IdLine = IdLine(lead: string, rest: string)

  /** The white space before a key, with the dash of a list item and the white space behind it. */
  function LeadOf(body: string): (k: nat)
    ensures Leading(body) <= k <= |body|
  {
    var n := Leading(body);
    if n < |body| && body[n] == '-' && Leading(body[n + 1..]) >= 1 then n + 1 + Leading(body[n + 1..]) else n
  }

  function ParseId(body: string): Option<IdLine> {
    var k := LeadOf(body);
    if StartsWith(body[k..], "id:") then Some(IdLine(body[..k], body[k + 3..])) else None
  }

  function Gap(rest: string): string { rest[..Leading(rest)] }

  function Trail(rest: string): string { LeftStripped(rest)[|LeftStripped(rest)| - Trailing(LeftStripped(rest))..] }

  datatype Change = IdChanged(was: string, now: string) | FrequencyRenamed

  /** One line, by its body: the indentation of the generator it is in from there on, and what it is rewritten to. */
  function StepOf(body: string, generator: Option<nat>): (Option<nat>, Option<(string, Change)>) {
    var indent := Leading(body);
    match ParseId(body)
    case Some(l) =>
      var id := Stripped(l.rest);
      var now := if IsOneOf(BaseName(Unquoted(Stripped(id))), GENERATORS) then Some(indent) else None;
      (match MigratedId(id)
       case Some(m) => (now, Some((l.lead + "id:" + Gap(l.rest) + m + Trail(l.rest), IdChanged(Stripped(id), m))))
       case None => (now, None))
    case None =>
      var now := if generator.Some? && indent < |body| && indent <= generator.value then None else generator;
      if now.Some? && StartsWith(body[indent..], "frequency:") then
        (now, Some((body[..indent] + "tone_frequency:" + body[indent + |"frequency:"|..], FrequencyRenamed)))
      else (now, None)
  }

  /** What may come before a key: white space, and in a list item a dash with more white space behind it. */
  function LeadFrom(before: string, after: string): string {
    if after == "" then before else before + ("-" + after)
  }

  lemma DashEnds(before: string, after: string, x: string)
    requires AllSpace(before) && AllSpace(after) && after != "" && x != "" && !IsSpace(x[0])
    ensures var w := before + ("-" + (after + x));
      Leading(w) == |before| && LeadOf(w) == |before| + 1 + |after|
  {
    assert !IsSpace('-');
    hide IsSpace, AllSpace;
    var w := before + ("-" + (after + x));
    SpacesEnd(before, "-" + (after + x));
    SpacesEnd(after, x);
    assert w[|before| + 1..] == after + x;
  }

  lemma LeadEnds(before: string, after: string, x: string)
    requires AllSpace(before) && AllSpace(after) && x != "" && x[0] == 'i'
    ensures var lead := LeadFrom(before, after);
      LeadOf(lead + x) == |lead| && Leading(lead + x) == |before|
  {
    assert !IsSpace('i');
    hide IsSpace, AllSpace;
    if after == "" {
      SpacesEnd(before, x);
      assert (before + x)[|before|] == 'i';
    } else {
      assert before + ("-" + after) + x == before + ("-" + (after + x));
      DashEnds(before, after, x);
    }
  }

  lemma ParsedLead(body: string) returns (before: string, after: string)
    requires ParseId(body).Some?
    ensures ParseId(body).value.lead == LeadFrom(before, after) && |before| == Leading(body)
    ensures AllSpace(before) && AllSpace(after)
  {
    hide IsSpace;
    var n, k := Leading(body), LeadOf(body);
    before := body[..n];
    LeadingIsSpace(body);
    if k == n {
      after := "";
    } else {
      var t := body[n + 1..];
      after := t[..Leading(t)];
      LeadingIsSpace(t);
      assert body[..k] == body[..n] + ("-" + t[..Leading(t)]);
    }
  }

  /** Another rest after the same lead parses to the same lead, at the same indentation. */
  lemma Reparsed(body: string, rest: string)
    requires ParseId(body).Some?
    ensures ParseId(ParseId(body).value.lead + "id:" + rest) == Some(IdLine(ParseId(body).value.lead, rest))
    ensures Leading(ParseId(body).value.lead + "id:" + rest) == Leading(body)
  {
    var lead, x := ParseId(body).value.lead, "id:" + rest;
    var before, after := ParsedLead(body);
    LeadEnds(before, after, x);
    hide LeadOf, LeadFrom, AllSpace;
    assert lead + "id:" + rest == lead + x;
    assert (lead + x)[|lead|..] == x && (lead + x)[..|lead|] == lead && x[..3] == "id:" && x[3..] == rest;
    assert (lead + x)[|lead| + 3..] == rest;
  }

  /** A line rewritten once needs no rewriting, and leaves the next line in the same place. */
  lemma StepTwice(body: string, generator: Option<nat>)
    requires StepOf(body, generator).1.Some?
    ensures StepOf(StepOf(body, generator).1.value.0, generator) == (StepOf(body, generator).0, None)
  {
    hide MigratedId, BaseName, Unquoted, Stripped, IsOneOf, ParseId, Gap, Trail;
    if ParseId(body).Some? {
      var l := ParseId(body).value;
      var id := Stripped(l.rest);
      var m := MigratedId(id).value;
      var rest := Gap(l.rest) + m + Trail(l.rest);
      MigratedIdStays(id);
      StripsToId(l.rest, m);
      Reparsed(body, rest);
      assert l.lead + "id:" + Gap(l.rest) + m + Trail(l.rest) == l.lead + "id:" + rest;
      IdStrippedTwice(l.rest);
    } else {
      RenamedStays(body, generator);
    }
  }

  lemma IdStrippedTwice(s: string)
    ensures Stripped(Stripped(s)) == Stripped(s)
  {
  }

  lemma StripsToId(rest: string, m: string)
    requires LeftStripped(m) != "" && m[|m| - 1] == '>'
    ensures Stripped(Gap(rest) + m + Trail(rest)) == LeftStripped(m)
  {
    assert !IsSpace('>');
    hide IsSpace, AllSpace;
    var n, gap, trail := Leading(m), Gap(rest), Trail(rest);
    var v := m[n..];
    assert v[|v| - 1] == '>' && m == m[..n] + v;
    LeadingIsSpace(rest);
    LeadingIsSpace(m);
    TrailingIsSpace(LeftStripped(rest));
    hide Gap, Trail, Stripped;
    JoinSpace(gap, m[..n], v, trail);
    StripLeaves(gap + m[..n], v, trail);
  }

  lemma JoinSpace(gap: string, more: string, v: string, trail: string)
    requires AllSpace(gap) && AllSpace(more)
    ensures gap + (more + v) + trail == gap + more + v + trail && AllSpace(gap + more)
  {
    hide IsSpace;
  }

  lemma RenamedStays(body: string, generator: Option<nat>)
    requires ParseId(body).None? && StepOf(body, generator).1.Some?
    ensures StepOf(StepOf(body, generator).1.value.0, generator) == (StepOf(body, generator).0, None)
  {
    assert !IsSpace('t');
    hide IsSpace, AllSpace;
    var n := Leading(body);
    var rest := body[n + |"frequency:"|..];
    var x := "tone_frequency:" + rest;
    var w := body[..n] + "tone_frequency:" + rest;
    assert w == body[..n] + x && x[0] == 't';
    LeadingIsSpace(body);
    SpacesEnd(body[..n], x);
    assert w[n] == 't' && w[n..] == x;
    StartsOtherwise(x, "id:");
    StartsOtherwise(x, "frequency:");
  }
}

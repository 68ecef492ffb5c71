/** The reader of GNU make's database dump (`make -p`), as in
    make_p_to_json.py.

    The input is the list of lines the Python file object yields, each one
    still ending in its '\n'. The nested `for line in fp` loops and the
    `fp.readline()` calls of the source all consume the same iterator; here
    that iterator is a single cursor into the line list which only moves
    forward, passed into each step and handed back by it. */
module MakeDb {
  import opened Wrappers
  import opened Text
  import opened DepGraph

  const DatabaseMarker := "# Make data base, printed on "
  const FilesMarker := "# Files"
  const StatsMarker := "# files hash-table stats:"
  const NotTargetMarker := "# Not a target:"
  const MakefileMarker := "# makefile (from '"

  datatype ParseError =
    /** A rule line without ':' makes `target, deps = ...split(line, 1)` fail. */
    | MissingColon(line: string)
    /** The ValueError raised when no non-empty graph was found. */
    | NotMakeDatabase

  datatype Result<T> = Ok(value: T) | Err(error: ParseError)

  /** `_is_new_entry`: a blank line separates the blocks of the dump. */
  predicate IsNewEntry(line: string) {
    StartsWith(line, "\n")
  }

  predicate NoNewEntryIn(lines: seq<string>, lo: int, hi: int)
    requires 0 <= lo && hi <= |lines|
  {
    forall k :: lo <= k < hi ==> !IsNewEntry(lines[k])
  }

  // ---------------------------------------------------------------------
  // _skip_until_next_entry

  /** Where `_skip_until_next_entry` leaves the cursor: just past the first
      blank line at or after `pos`, or at the end of the input. */
  function NextEntryStart(lines: seq<string>, pos: nat): (r: nat)
    requires pos <= |lines|
    ensures pos <= r <= |lines|
    decreases |lines| - pos
  {
    if pos == |lines| then pos
    else if IsNewEntry(lines[pos]) then pos + 1
    else NextEntryStart(lines, pos + 1)
  }

  /** The skip passes over lines that are not blank and stops just past the
      first blank one, or at the end of the input. */
  lemma {:induction false} NextEntryStartStops(lines: seq<string>, pos: nat)
    requires pos <= |lines|
    ensures var r := NextEntryStart(lines, pos);
            || (r == |lines| && NoNewEntryIn(lines, pos, r))
            || (pos < r && IsNewEntry(lines[r - 1]) && NoNewEntryIn(lines, pos, r - 1))
    decreases |lines| - pos
  {
    if pos < |lines| && !IsNewEntry(lines[pos]) {
      NextEntryStartStops(lines, pos + 1);
    }
  }

  /** The blank line that ends a block is where the skip stops. */
  lemma {:induction false} NextEntryAt(lines: seq<string>, pos: nat, blank: nat)
    requires pos <= blank < |lines|
    requires NoNewEntryIn(lines, pos, blank) && IsNewEntry(lines[blank])
    ensures NextEntryStart(lines, pos) == blank + 1
    decreases blank - pos
  {
    if pos < blank {
      NextEntryAt(lines, pos + 1, blank);
    }
  }

  method SkipUntilNextEntry(lines: seq<string>, pos: nat) returns (next: nat)
    requires pos <= |lines|
    ensures next == NextEntryStart(lines, pos)
  {
    next := pos;
    while next < |lines|
      invariant pos <= next <= |lines|
      invariant NextEntryStart(lines, next) == NextEntryStart(lines, pos)
      decreases |lines| - next
    {
      var line := lines[next];
      next := next + 1;
      if IsNewEntry(line) {
        return;
      }
    }
  }

  // ---------------------------------------------------------------------
  // _parse_entry: the regular expression `:{1,2} *`, applied once

  predicate AllSpaces(s: string) {
    forall i :: 0 <= i < |s| ==> s[i] == ' '
  }

  /** `sep` is what `:{1,2} *` matches: one or two colons, then spaces. */
  predicate IsColonRun(sep: string) {
    || (|sep| >= 2 && sep[0] == ':' && sep[1] == ':' && AllSpaces(sep[2..]))
    || (|sep| >= 1 && sep[0] == ':' && AllSpaces(sep[1..]))
  }

  /** `re.split(r':{1,2} *', line, 1) == [before, after]`: `line` is
      `before`, a separator and `after`; `before` holds no colon, so the
      separator starts at the first colon; and both repetitions of the
      pattern are as long as the line allows. */
  predicate SplitsAtColonRun(line: string, before: string, after: string) {
    && |before| + |after| < |line|
    && line[..|before|] == before
    && line[|line| - |after|..] == after
    && ':' !in before
    && IsColonRun(line[|before|..|line| - |after|])
    && (after != [] ==> after[0] != ' ')
    && (after != [] && line[|before|..|line| - |after|] == ":" ==> after[0] != ':')
  }

  function FirstColon(s: string): (r: Option<nat>)
    ensures r.None? <==> ':' !in s
    ensures r.Some? ==> r.value < |s| && s[r.value] == ':' && ':' !in s[..r.value]
  {
    if s == [] then None
    else if s[0] == ':' then Some(0)
    else match FirstColon(s[1..])
      case None => None
      case Some(i) =>
        assert s[..i + 1] == [s[0]] + s[1..][..i];
        Some(i + 1)
  }

  function LeadingSpaces(s: string): (n: nat)
    ensures n <= |s|
    ensures AllSpaces(s[..n])
    ensures n < |s| ==> s[n] != ' '
  {
    if s == [] || s[0] != ' ' then 0
    else
      var n := 1 + LeadingSpaces(s[1..]);
      assert s[..n] == [s[0]] + s[1..][..n - 1];
      n
  }

  /** The regular-expression split done by hand: the first colon, a second
      colon if one follows it, then any spaces. */
  function SplitAtColonRun(line: string): (r: Option<(string, string)>)
    ensures r.None? <==> ':' !in line
    ensures r.Some? ==> SplitsAtColonRun(line, r.value.0, r.value.1)
  {
    match FirstColon(line)
    case None => None
    case Some(i) =>
      var k := ColonRunEnd(line, i);
      ColonRunSplits(line, i);
      Some((line[..i], line[k..]))
  }

  /** Where the separator that starts with the colon at `i` ends. */
  function ColonRunEnd(line: string, i: nat): (k: nat)
    requires i < |line|
    ensures i < k <= |line|
  {
    var j := if i + 1 < |line| && line[i + 1] == ':' then i + 2 else i + 1;
    j + LeadingSpaces(line[j..])
  }

  lemma ColonRunSplits(line: string, i: nat)
    requires i < |line| && line[i] == ':' && ':' !in line[..i]
    ensures SplitsAtColonRun(line, line[..i], line[ColonRunEnd(line, i)..])
  {
    var j := if i + 1 < |line| && line[i + 1] == ':' then i + 2 else i + 1;
    var n := LeadingSpaces(line[j..]);
    var k := j + n;
    assert k == ColonRunEnd(line, i);
    assert AllSpaces(line[j..][..n]);
    assert line[j..][..n] == line[j..k];
    assert line[i..k] == line[i..j] + line[j..k];
    assert line[|line| - |line[k..]|..] == line[k..];
  }

  /** `[dep for dep in tokens if dep != '|']`. */
  function DropBars(tokens: seq<string>): (r: seq<string>)
    ensures forall i :: 0 <= i < |r| ==> r[i] != "|" && r[i] in tokens
    ensures forall t :: t in tokens && t != "|" ==> t in r
  {
    if tokens == [] then []
    else (if tokens[0] == "|" then [] else [tokens[0]]) + DropBars(tokens[1..])
  }

  /** What `_parse_entry` records for a rule line: the target and its
      prerequisites, or nothing when the line holds no colon. */
  function SplitRule(line: string): (r: Option<(string, seq<string>)>)
    ensures r.None? <==> ':' !in line
    ensures r.Some? ==> ':' !in r.value.0
    ensures r.Some? ==> forall i :: 0 <= i < |r.value.1| ==> IsWord(r.value.1[i]) && r.value.1[i] != "|"
  {
    match SplitAtColonRun(line)
    case None => None
    case Some((target, deps)) => Some((target, DropBars(Tokens(deps))))
  }

  /** Dropping bars works token by token: it distributes over
      concatenation, so it keeps the order and the repeats of the others. */
  lemma {:induction false} DropBarsAppend(a: seq<string>, b: seq<string>)
    ensures DropBars(a + b) == DropBars(a) + DropBars(b)
    decreases |a|
  {
    if a == [] {
      assert a + b == b;
    } else {
      assert (a + b)[1..] == a[1..] + b;
      DropBarsAppend(a[1..], b);
    }
  }

  /** One token is removed when it is `|` and kept otherwise. */
  lemma DropBarsSingleton(t: string)
    ensures DropBars([t]) == (if t == "|" then [] else [t])
  {
    assert [t][1..] == [];
  }

  /** A rule line `target:` or `target::`, then each prerequisite token
      preceded by one space, gives the target and the tokens with every
      `|` removed; so `a: b c` gives `["b", "c"]`, `a:: b | c` gives
      `["b", "c"]` and `a:` gives `[]`. */
  lemma RuleLineParses(target: string, sep: string, tokens: seq<string>)
    requires ':' !in target
    requires sep == ":" || sep == "::"
    requires forall i :: 0 <= i < |tokens| ==> IsWord(tokens[i])
    ensures SplitRule(target + sep + Prefixed(tokens) + "\n")
            == Some((target, DropBars(tokens)))
  {
    var line := target + sep + Prefixed(tokens) + "\n";
    if tokens == [] {
      BareRuleLineParses(target, sep, line);
    } else {
      SpacedRuleLineParses(target, sep, tokens, line);
    }
  }

  lemma BareRuleLineParses(target: string, sep: string, line: string)
    requires ':' !in target
    requires sep == ":" || sep == "::"
    requires line == target + sep + Prefixed([]) + "\n"
    ensures SplitRule(line) == Some((target, []))
  {
    assert line == target + sep + "\n";
    SplitAtBareSeparator(target, sep);
    assert Tokens("\n") == [] by {
      TokensAppendSpace([], '\n');
      assert [] + ['\n'] == "\n";
    }
  }

  lemma SpacedRuleLineParses(target: string, sep: string, tokens: seq<string>, line: string)
    requires ':' !in target
    requires sep == ":" || sep == "::"
    requires forall i :: 0 <= i < |tokens| ==> IsWord(tokens[i])
    requires tokens != [] && line == target + sep + Prefixed(tokens) + "\n"
    ensures SplitRule(line) == Some((target, DropBars(tokens)))
  {
    var after := JoinSpaced(tokens) + "\n";
    SpacedLine(target + sep, tokens);
    assert line == target + sep + " " + after;
    SpacedTokens(tokens);
    SplitAtRuleSeparator(target, sep, after);
  }

  lemma SpacedLine(head: string, tokens: seq<string>)
    requires tokens != []
    ensures head + Prefixed(tokens) + "\n" == head + " " + (JoinSpaced(tokens) + "\n")
  {
    PrefixedJoin(tokens);
  }

  /** What follows the separator's space: it starts with a non-space and
      splits into the tokens. */
  lemma SpacedTokens(tokens: seq<string>)
    requires forall i :: 0 <= i < |tokens| ==> IsWord(tokens[i])
    ensures var after := JoinSpaced(tokens) + "\n";
            after != [] && after[0] != ' ' && Tokens(after) == tokens
  {
    var rest := JoinSpaced(tokens);
    var after := rest + "\n";
    JoinSpacedStart(tokens);
    assert rest != [] ==> after[0] == rest[0];
    assert IsSpace('\n');
    TokensAppendSpace(rest, '\n');
    TokensOfJoin(tokens);
  }

  /** A rule line with nothing after its separator splits into the target
      and the newline. */
  lemma SplitAtBareSeparator(target: string, sep: string)
    requires ':' !in target
    requires sep == ":" || sep == "::"
    ensures SplitAtColonRun(target + sep + "\n") == Some((target, "\n"))
  {
    var line := target + sep + "\n";
    assert line[..|target|] == target;
    FirstColonAt(line, |target|);
    var j := |target| + |sep|;
    assert line[j..] == "\n";
  }

  lemma SplitAtRuleSeparator(target: string, sep: string, after: string)
    requires ':' !in target
    requires sep == ":" || sep == "::"
    requires after != [] && after[0] != ' '
    ensures SplitAtColonRun(target + sep + " " + after) == Some((target, after))
  {
    var line := target + sep + " " + after;
    assert line[..|target|] == target;
    FirstColonAt(line, |target|);
    var j := |target| + |sep|;
    assert line[j..] == " " + after;
    LeadingSpacesOfOne(after);
    assert line[j + 1..] == after;
  }

  lemma FirstColonAt(s: string, i: nat)
    requires i < |s| && s[i] == ':' && ':' !in s[..i]
    ensures FirstColon(s) == Some(i)
  {
  }

  lemma LeadingSpacesOfOne(s: string)
    requires s != [] && s[0] != ' '
    ensures LeadingSpaces(" " + s) == 1
  {
    assert (" " + s)[1..] == s;
  }

  /** `a: b c` gives `["b", "c"]`. */
  lemma SingleColonExample(line: string)
    requires line == "a: b c\n"
    ensures SplitRule(line) == Some(("a", ["b", "c"]))
  {
    var ts := ["b", "c"];
    assert JoinSpaced(ts) == "b c" by {
      assert JoinSpaced(ts[1..]) == "c";
    }
    PrefixedJoin(ts);
    assert line == "a" + ":" + Prefixed(ts) + "\n";
    assert IsWord(ts[0]) && IsWord(ts[1]);
    RuleLineParses("a", ":", ts);
    NoBarExample(ts);
  }

  /** `foo.c:` (a target without prerequisites) gives `[]`. */
  lemma NoPrerequisitesExample(line: string)
    requires line == "foo.c:\n"
    ensures SplitRule(line) == Some(("foo.c", []))
  {
    var ts: seq<string> := [];
    assert line == "foo.c" + ":" + Prefixed(ts) + "\n";
    RuleLineParses("foo.c", ":", ts);
  }

  lemma NoBarExample(ts: seq<string>)
    requires ts == ["b", "c"]
    ensures DropBars(ts) == ts
  {
    assert DropBars(ts[1..]) == ["c"] by {
      assert DropBars(ts[1..][1..]) == [];
    }
  }

  /** `a:: b | c` gives `["b", "c"]`: the double colon and the bar are dropped. */
  lemma DoubleColonExample(line: string)
    requires line == "a:: b | c\n"
    ensures SplitRule(line) == Some(("a", ["b", "c"]))
  {
    var ts := ["b", "|", "c"];
    JoinedExample(ts);
    PrefixedJoin(ts);
    assert line == "a" + "::" + Prefixed(ts) + "\n";
    assert IsWord(ts[0]) && IsWord(ts[1]) && IsWord(ts[2]);
    RuleLineParses("a", "::", ts);
    BarDroppedExample(ts);
  }

  lemma JoinedExample(ts: seq<string>)
    requires ts == ["b", "|", "c"]
    ensures JoinSpaced(ts) == "b | c"
  {
    assert JoinSpaced(ts[1..]) == "| c" by {
      assert JoinSpaced(ts[1..][1..]) == "c";
    }
  }

  lemma BarDroppedExample(ts: seq<string>)
    requires ts == ["b", "|", "c"]
    ensures DropBars(ts) == ["b", "c"]
  {
    assert DropBars(ts[1..]) == ["c"] by {
      assert DropBars(ts[1..][1..]) == ["c"] by {
        assert DropBars(ts[1..][1..][1..]) == [];
      }
    }
  }

  // ---------------------------------------------------------------------
  // _parse_entries

  /** The cursor after `fp.readline()`: one line consumed, none at the end. */
  function AfterReadLine(lines: seq<string>, pos: nat): (r: nat)
    requires pos <= |lines|
  {
    if pos < |lines| then pos + 1 else pos
  }

  /** No line starts with two of the markers the parser tests for. */
  lemma MarkersExclusive(line: string)
    ensures StartsWith(line, NotTargetMarker) ==> !StartsWith(line, StatsMarker)
    ensures StartsWith(line, MakefileMarker) ==> !StartsWith(line, StatsMarker)
    ensures StartsWith(line, MakefileMarker) ==> !StartsWith(line, NotTargetMarker)
  {
    if StartsWith(line, StatsMarker) {
      assert line[2] == line[..|StatsMarker|][2] == StatsMarker[2];
    }
    if StartsWith(line, NotTargetMarker) {
      assert line[2] == line[..|NotTargetMarker|][2] == NotTargetMarker[2];
    }
    if StartsWith(line, MakefileMarker) {
      assert line[2] == line[..|MakefileMarker|][2] == MakefileMarker[2];
    }
  }

  /** `_parse_entry(graph, line)`: the graph with the line's rule recorded,
      or the error a line without a colon raises. */
  function ParseEntry(g: Graph, line: string): (r: Result<Graph>)
    ensures r.Err? <==> ':' !in line
    ensures r.Err? ==> r.error == MissingColon(line)
  {
    match SplitRule(line)
    case None => Err(MissingColon(line))
    case Some((target, deps)) => Ok(Put(g, target, deps))
  }

  /** A rule line sets its target to its prerequisites in the graph, and
      every other target keeps what it had. */
  lemma ParseEntryRecordsRule(g: Graph, line: string, k: string)
    requires ':' in line
    ensures var (target, deps) := SplitRule(line).value;
            && ParseEntry(g, line).Ok?
            && Lookup(ParseEntry(g, line).value, k) == if k == target then Some(deps) else Lookup(g, k)
  {
    var (target, deps) := SplitRule(line).value;
    PutLookup(g, target, deps, k);
  }

  /** The rest of `_parse_entries` from cursor `pos`, with the entries read
      so far in `g`: the graph it returns and where the cursor is left. */
  function EntriesFrom(lines: seq<string>, pos: nat, g: Graph): (r: Result<(Graph, nat)>)
    requires pos <= |lines|
    ensures r.Ok? ==> pos <= r.value.1 <= |lines|
    ensures r.Err? ==> r.error.MissingColon?
    decreases |lines| - pos
  {
    if pos == |lines| then Ok((g, pos))
    else
      var line := lines[pos];
      if StartsWith(line, StatsMarker) then Ok((g, pos + 1))
      else if StartsWith(line, NotTargetMarker) then EntriesFrom(lines, NextEntryStart(lines, pos + 1), g)
      else if StartsWith(line, MakefileMarker) then EntriesFrom(lines, AfterReadLine(lines, pos + 1), g)
      else
        var parsed := ParseEntry(g, line);
        if parsed.Err? then Err(parsed.error)
        else EntriesFrom(lines, NextEntryStart(lines, pos + 1), parsed.value)
  }

  /** The entries end at the end of the input or just past a statistics line. */
  lemma {:induction false} EntriesFromStops(lines: seq<string>, pos: nat, g: Graph)
    requires pos <= |lines|
    ensures var r := EntriesFrom(lines, pos, g);
            r.Ok? ==> r.value.1 == |lines| || (pos < r.value.1 && StartsWith(lines[r.value.1 - 1], StatsMarker))
    decreases |lines| - pos
  {
    if pos < |lines| {
      var next, g' := EntriesStep(lines, pos, g);
      if next > pos {
        EntriesFromStops(lines, next, g');
        var r' := EntriesFrom(lines, next, g');
        assert r'.Ok? ==> r'.value.1 == |lines| || (next < r'.value.1 && StartsWith(lines[r'.value.1 - 1], StatsMarker));
      }
    }
  }

  /** Where `_parse_entries` goes on after the line at `pos`, when it does
      not stop there: the cursor and the graph it resumes with. */
  lemma EntriesStep(lines: seq<string>, pos: nat, g: Graph) returns (next: nat, g': Graph)
    requires pos < |lines|
    ensures pos <= next
    ensures next == pos ==> EntriesFrom(lines, pos, g).Err? || EntriesFrom(lines, pos, g) == Ok((g, pos + 1))
    ensures next == pos ==> EntriesFrom(lines, pos, g).Ok? ==> StartsWith(lines[pos], StatsMarker)
    ensures next > pos ==> next <= |lines| && EntriesFrom(lines, pos, g) == EntriesFrom(lines, next, g')
  {
    var line := lines[pos];
    next, g' := pos, g;
    if StartsWith(line, StatsMarker) {
    } else if StartsWith(line, NotTargetMarker) {
      next := NextEntryStart(lines, pos + 1);
    } else if StartsWith(line, MakefileMarker) {
      next := AfterReadLine(lines, pos + 1);
    } else if ':' in line {
      next, g' := NextEntryStart(lines, pos + 1), ParseEntry(g, line).value;
    }
  }

  /** Reading entries keeps the targets of the graph unique. */
  lemma {:induction false} EntriesFromUnique(lines: seq<string>, pos: nat, g: Graph)
    requires pos <= |lines| && UniqueKeys(g)
    ensures var r := EntriesFrom(lines, pos, g);
            r.Ok? ==> UniqueKeys(r.value.0)
    decreases |lines| - pos
  {
    if pos < |lines| {
      var line := lines[pos];
      if StartsWith(line, StatsMarker) {
      } else if StartsWith(line, NotTargetMarker) {
        EntriesFromUnique(lines, NextEntryStart(lines, pos + 1), g);
      } else if StartsWith(line, MakefileMarker) {
        EntriesFromUnique(lines, AfterReadLine(lines, pos + 1), g);
      } else if ':' in line {
        var (target, deps) := SplitRule(line).value;
        PutUnique(g, target, deps);
        EntriesFromUnique(lines, NextEntryStart(lines, pos + 1), Put(g, target, deps));
      }
    }
  }

  method ParseEntries(lines: seq<string>, pos: nat) returns (r: Result<(Graph, nat)>)
    requires pos <= |lines|
    ensures r == EntriesFrom(lines, pos, EmptyGraph)
  {
    var graph := EmptyGraph;
    var cur := pos;
    while cur < |lines|
      invariant pos <= cur <= |lines|
      invariant EntriesFrom(lines, cur, graph) == EntriesFrom(lines, pos, EmptyGraph)
      decreases |lines| - cur
    {
      ghost var rest := EntriesFrom(lines, cur, graph);
      var line := lines[cur];
      cur := cur + 1;
      if StartsWith(line, StatsMarker) {
        return Ok((graph, cur));
      }
      if StartsWith(line, NotTargetMarker) {
        cur := SkipUntilNextEntry(lines, cur);
      } else if StartsWith(line, MakefileMarker) {
        if cur < |lines| {
          cur := cur + 1;  // fp.readline()
        }
      } else {
        var parsed := ParseEntry(graph, line);
        if parsed.Err? {
          return Err(parsed.error);
        }
        graph := parsed.value;
        cur := SkipUntilNextEntry(lines, cur);
      }
      assert EntriesFrom(lines, cur, graph) == rest;
    }
    return Ok((graph, cur));
  }

  /** A `# Not a target:` line and the rest of its block, up to and
      including the next blank line, add nothing to the graph. */
  lemma NotTargetBlockIgnored(lines: seq<string>, pos: nat, blank: nat, g: Graph)
    requires pos < blank < |lines|
    requires StartsWith(lines[pos], NotTargetMarker)
    requires NoNewEntryIn(lines, pos + 1, blank) && IsNewEntry(lines[blank])
    ensures EntriesFrom(lines, pos, g) == EntriesFrom(lines, blank + 1, g)
  {
    MarkersExclusive(lines[pos]);
    NextEntryAt(lines, pos + 1, blank);
  }

  /** A rule line records its target and prerequisites, then the rest of
      its block, up to and including the next blank line, is passed over. */
  lemma RuleEntryRecorded(lines: seq<string>, pos: nat, blank: nat, g: Graph)
    requires pos < blank < |lines|
    requires !StartsWith(lines[pos], StatsMarker)
    requires !StartsWith(lines[pos], NotTargetMarker)
    requires !StartsWith(lines[pos], MakefileMarker)
    requires ':' in lines[pos]
    requires NoNewEntryIn(lines, pos + 1, blank) && IsNewEntry(lines[blank])
    ensures var (target, deps) := SplitRule(lines[pos]).value;
            EntriesFrom(lines, pos, g) == EntriesFrom(lines, blank + 1, Put(g, target, deps))
  {
    var (target, deps) := SplitRule(lines[pos]).value;
    NextEntryAt(lines, pos + 1, blank);
    assert EntriesFrom(lines, pos, g)
        == EntriesFrom(lines, NextEntryStart(lines, pos + 1), Put(g, target, deps));
  }

  /** A line that is none of the markers and has no colon stops the parse. */
  lemma RuleLineWithoutColon(lines: seq<string>, pos: nat, g: Graph)
    requires pos < |lines|
    requires !StartsWith(lines[pos], StatsMarker)
    requires !StartsWith(lines[pos], NotTargetMarker)
    requires !StartsWith(lines[pos], MakefileMarker)
    requires ':' !in lines[pos]
    ensures EntriesFrom(lines, pos, g) == Err(MissingColon(lines[pos]))
  {
  }

  /** A `# makefile (from '` line discards exactly the one line after it;
      neither is read as an entry. */
  lemma MakefileLineSkipsOne(lines: seq<string>, pos: nat, g: Graph)
    requires pos < |lines|
    requires StartsWith(lines[pos], MakefileMarker)
    ensures EntriesFrom(lines, pos, g)
            == EntriesFrom(lines, if pos + 2 <= |lines| then pos + 2 else |lines|, g)
  {
    MarkersExclusive(lines[pos]);
  }

  /** The section ends, with the graph read so far, at the statistics line. */
  lemma StatsLineEndsSection(lines: seq<string>, pos: nat, g: Graph)
    requires pos < |lines|
    requires StartsWith(lines[pos], StatsMarker)
    ensures EntriesFrom(lines, pos, g) == Ok((g, pos + 1))
  {
  }

  // ---------------------------------------------------------------------
  // _parse_db

  /** The rest of `_parse_db` from cursor `pos`. */
  function DbFrom(lines: seq<string>, pos: nat): (r: Result<(Graph, nat)>)
    requires pos <= |lines|
    ensures r.Ok? ==> pos <= r.value.1 <= |lines|
    ensures r.Err? ==> r.error.MissingColon?
    decreases |lines| - pos
  {
    if pos == |lines| then Ok((EmptyGraph, pos))
    else if StartsWith(lines[pos], FilesMarker) then
      EntriesFrom(lines, AfterReadLine(lines, pos + 1), EmptyGraph)
    else DbFrom(lines, pos + 1)
  }

  /** Each section's graph has unique targets. */
  lemma {:induction false} DbFromUnique(lines: seq<string>, pos: nat)
    requires pos <= |lines|
    ensures var r := DbFrom(lines, pos);
            r.Ok? ==> UniqueKeys(r.value.0)
    decreases |lines| - pos
  {
    if pos < |lines| {
      if StartsWith(lines[pos], FilesMarker) {
        assert Keys(EmptyGraph) == [];
        EntriesFromUnique(lines, AfterReadLine(lines, pos + 1), EmptyGraph);
      } else {
        DbFromUnique(lines, pos + 1);
      }
    }
  }

  method ParseDb(lines: seq<string>, pos: nat) returns (r: Result<(Graph, nat)>)
    requires pos <= |lines|
    ensures r == DbFrom(lines, pos)
  {
    var cur := pos;
    while cur < |lines|
      invariant pos <= cur <= |lines|
      invariant DbFrom(lines, cur) == DbFrom(lines, pos)
      decreases |lines| - cur
    {
      var line := lines[cur];
      cur := cur + 1;
      if StartsWith(line, FilesMarker) {
        if cur < |lines| {
          cur := cur + 1;  // fp.readline(): the empty line after `# Files`
        }
        r := ParseEntries(lines, cur);
        return;
      }
    }
    return Ok((EmptyGraph, cur));
  }

  /** Without a `# Files` line the section gives the empty graph, and the
      whole input is consumed looking for one. */
  lemma {:induction false} DbWithoutFilesIsEmpty(lines: seq<string>, pos: nat)
    requires pos <= |lines|
    requires forall k :: pos <= k < |lines| ==> !StartsWith(lines[k], FilesMarker)
    ensures DbFrom(lines, pos) == Ok((EmptyGraph, |lines|))
    decreases |lines| - pos
  {
    if pos < |lines| {
      DbWithoutFilesIsEmpty(lines, pos + 1);
    }
  }

  /** At the first `# Files` line, exactly one more line is dropped and the
      entries are read from the line after that. */
  lemma {:induction false} DbAtFirstFiles(lines: seq<string>, pos: nat, files: nat)
    requires pos <= files < |lines|
    requires StartsWith(lines[files], FilesMarker)
    requires forall k :: pos <= k < files ==> !StartsWith(lines[k], FilesMarker)
    ensures DbFrom(lines, pos)
            == EntriesFrom(lines, if files + 2 <= |lines| then files + 2 else |lines|, EmptyGraph)
    decreases files - pos
  {
    if pos < files {
      DbAtFirstFiles(lines, pos + 1, files);
    }
  }

  // ---------------------------------------------------------------------
  // parse_make_p

  /** How many lines from `pos` on start a database dump. */
  function MarkerCount(lines: seq<string>, pos: nat): nat
    requires pos <= |lines|
    decreases |lines| - pos
  {
    if pos == |lines| then 0
    else (if StartsWith(lines[pos], DatabaseMarker) then 1 else 0) + MarkerCount(lines, pos + 1)
  }

  lemma {:induction false} MarkerCountMonotone(lines: seq<string>, lo: nat, hi: nat)
    requires lo <= hi <= |lines|
    ensures MarkerCount(lines, hi) <= MarkerCount(lines, lo)
    decreases hi - lo
  {
    if lo < hi {
      MarkerCountMonotone(lines, lo + 1, hi);
    }
  }

  /** The rest of the loop of `parse_make_p` from cursor `pos`, with the
      graphs collected so far: each dump marker contributes the graph of its
      section when that graph is not empty, in the order met. */
  function SectionsFrom(lines: seq<string>, pos: nat, graphs: seq<Graph>): (r: Result<seq<Graph>>)
    requires pos <= |lines|
    ensures r.Ok? ==> graphs <= r.value
    ensures r.Err? ==> r.error.MissingColon?
    decreases |lines| - pos
  {
    if pos == |lines| then Ok(graphs)
    else if StartsWith(lines[pos], DatabaseMarker) then
      match DbFrom(lines, pos + 1)
      case Err(e) => Err(e)
      case Ok((g, next)) => SectionsFrom(lines, next, if |g.entries| > 0 then graphs + [g] else graphs)
    else SectionsFrom(lines, pos + 1, graphs)
  }

  /** Every graph the loop adds is non-empty with unique targets, and there
      are at most as many as there are dump markers left. */
  lemma {:induction false} SectionsFromGraphs(lines: seq<string>, pos: nat, graphs: seq<Graph>)
    requires pos <= |lines|
    ensures var r := SectionsFrom(lines, pos, graphs);
            r.Ok? ==> && (forall k :: |graphs| <= k < |r.value| ==> |r.value[k].entries| > 0 && UniqueKeys(r.value[k]))
                      && |r.value| <= |graphs| + MarkerCount(lines, pos)
    decreases |lines| - pos
  {
    if pos < |lines| {
      if StartsWith(lines[pos], DatabaseMarker) {
        match DbFrom(lines, pos + 1)
        case Err(_) =>
        case Ok((g, next)) =>
          DbFromUnique(lines, pos + 1);
          MarkerCountMonotone(lines, pos + 1, next);
          var gs := if |g.entries| > 0 then graphs + [g] else graphs;
          SectionsFromGraphs(lines, next, gs);
          var r := SectionsFrom(lines, next, gs);
          if r.Ok? {
            assert gs <= r.value;
            forall k | |graphs| <= k < |r.value| ensures |r.value[k].entries| > 0 && UniqueKeys(r.value[k]) {
              if k < |gs| {
                assert r.value[k] == gs[k] == g;
              }
            }
          }
      } else {
        SectionsFromGraphs(lines, pos + 1, graphs);
      }
    }
  }

  /** What `parse_make_p(fp, graphs)` returns or raises. */
  function ParseResult(lines: seq<string>, graphs: seq<Graph>): (r: Result<seq<Graph>>)
    ensures r.Ok? ==> r.value != [] && graphs <= r.value
    ensures r == Err(NotMakeDatabase) <==> SectionsFrom(lines, 0, graphs) == Ok([])
  {
    match SectionsFrom(lines, 0, graphs)
    case Err(e) => Err(e)
    case Ok(gs) => if gs == [] then Err(NotMakeDatabase) else Ok(gs)
  }

  method ParseMakeP(lines: seq<string>, graphs: seq<Graph>) returns (r: Result<seq<Graph>>)
    ensures r == ParseResult(lines, graphs)
  {
    var gs := graphs;
    var cur := 0;
    while cur < |lines|
      invariant cur <= |lines|
      invariant SectionsFrom(lines, cur, gs) == SectionsFrom(lines, 0, graphs)
      decreases |lines| - cur
    {
      var line := lines[cur];
      cur := cur + 1;
      if StartsWith(line, DatabaseMarker) {
        var db := ParseDb(lines, cur);
        match db {
          case Err(e) =>
            return Err(e);
          case Ok((graph, next)) =>
            cur := next;
            if |graph.entries| > 0 {
              gs := gs + [graph];
            }
        }
      }
    }
    if gs == [] {
      return Err(NotMakeDatabase);
    }
    return Ok(gs);
  }
}

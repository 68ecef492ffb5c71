# makefile-visualizer, modelled in Dafny

makefile-visualizer turns the database that `LANG=C make -p` prints into a
Graphviz drawing of the build's dependency graph. It uses three small
programs:

- `make_p_to_json.py` scans the database dump line by line. Each
  `# Make data base, printed on ...` section gives one dependency graph:
  a dict from target name to its prerequisites, read from the rule lines
  of the `# Files` listing.
- `collapse_deps.py` rewrites a decoded JSON value. In every list, paths
  under a configured prefix (`src/` by default) are rewritten to one
  placeholder `prefix + ".."`, and the duplicates this creates are
  dropped.
- `json_to_dot.py` prints one `subgraph cluster<n>{ ... }` per graph
  inside one `digraph G { ... }`. Every name it registers becomes one
  node line `n<id>[label="<escaped name>", ...]`, and every drawn target
  gets an edge line to each of its prerequisites. The graph's own
  targets are filled `none` and other names `grey`. One counter supplies
  the cluster and node ids for the whole run.
  - The targets `.PHONY` and `.SUFFIXES` are skipped. A skipped target
    gets no node line of its own and no edges. Its prerequisites are
    still registered, so each of them still gets a node line.

The model has six modules:

- `Wrappers` (`wrappers.dfy`) holds the `Option` datatype, which stands
  for Python's `None` or a present value.
- `Text` (`text.dfy`) holds string helpers: `startswith`, `str.split()`
  and decimal rendering of numbers.
- `DepGraph` (`dep_graph.dfy`) is the insertion-ordered dict the parser
  builds.
- `MakeDb` (`make_db.dfy`) is the parser.
  - The input is the sequence of lines that iterating a text file yields,
    each line still ending in its newline.
  - The file object's position is a cursor, passed in and returned.
  - Each function that specifies a loop has one method beside it, and that
    method runs the same loop with a `while`.
- `Dot` (`dot.dfy`) is the emitter.
  - `Id` is a class with a counter field `current`. Its method `Next`
    increments the counter and returns the new value.
  - The per-graph printing is a set of methods over the `name_to_node`
    registry and the printed lines. Each is proved equal to a function
    (`Register`, `DepsPass`, `TargetsPass`, `EmitGraph`, `Document`).
  - Printed lines are structured `DotLine` values. `Render` gives each
    line's exact text.
- `Collapse` (`collapse.dfy`) is the collapser on a JSON datatype.
  - `unique` and the loops of `collapse_strings` are methods.
  - `filter_paths` and the list helpers are functions.

What is proved:

- The parser:
  - retraces `_parse_entries`' branches and records each rule line's
    target and prerequisites;
  - keeps every graph's keys unique;
  - keeps only non-empty sections;
  - fails exactly when no section has entries, and fails on a rule line
    without a colon.
- The emitter:
  - gives every name one node and the fill its role decides;
  - declares each edge's endpoints before the edge and prints exactly the
    expected edges;
  - uses ids 1, 2, 3, ... in output order across the whole document.
- Escaping can be undone, so distinct names stay distinct.
- `unique` keeps the elements, once each, in first-occurrence order.
- `collapse_strings` takes the first matching prefix.
- `filter_paths`:
  - puts the strings of a list in front of its other elements;
  - keeps an object's keys and their order;
  - is idempotent when the prefixes are "stable", which always holds for
    one prefix. A lemma shows that it is not idempotent for
    `["src/.", "src/"]`.

## Model

| member | source | states |
|---|---|---|
| Text.Tokens | make_p_to_json.py:21 | `deps.split()` yields only non-empty tokens without whitespace |
| Text.TokensOfJoin | make_p_to_json.py:21 | splitting words joined by single spaces gives back exactly those words |
| Text.TokensAppendSpace | make_p_to_json.py:21 | the trailing newline of a line adds no token |
| DepGraph.Keys | make_p_to_json.py:21 | the dict's keys are its targets, one per entry, in insertion order |
| DepGraph.Lookup | make_p_to_json.py:21 | looking a key up gives nothing exactly when the key is absent |
| DepGraph.PutKeys | make_p_to_json.py:21 | `graph[target] = deps` appends a new key at the end and leaves an existing key where it is |
| DepGraph.PutLookup | make_p_to_json.py:21 | after `graph[target] = deps`, the target maps to `deps` and every other key keeps its value |
| DepGraph.PutUnique | make_p_to_json.py:21 | assignment keeps the keys unique |
| DepGraph.PutTwice | make_p_to_json.py:21 | a second assignment to a target overrides the first value and keeps the first position |
| MakeDb.NextEntryStartStops | make_p_to_json.py:8-13 | the skip consumes lines up to and including the first line that starts with a newline, and no earlier line starts with one; or, when there is no such line, it consumes the rest |
| MakeDb.NextEntryAt | make_p_to_json.py:8-13 | when the first newline line is at `blank`, reading resumes at `blank + 1` |
| MakeDb.SkipUntilNextEntry | make_p_to_json.py:8-13 | the loop stops where `NextEntryStart` says |
| MakeDb.FirstColon | make_p_to_json.py:17-20 | finds the first `:` of the line, or reports that there is none |
| MakeDb.SplitAtColonRun | make_p_to_json.py:17-20 | `re.split(':{1,2} *', line, 1)` splits when the line has a colon, and only then. The part before the separator has no colon. The separator is one or two colons and then every following space. After a single-colon separator, the rest does not start with a colon |
| MakeDb.ColonRunSplits | make_p_to_json.py:17-20 | cutting at the first colon, the run of at most two colons and the spaces after it, gives a split that meets the conditions of `SplitAtColonRun` |
| MakeDb.DropBars | make_p_to_json.py:21 | the `\|` tokens removed, every other token kept |
| MakeDb.DropBarsAppend | make_p_to_json.py:21 | the comprehension works token by token: filtering a concatenation is the concatenation of the filtered parts, so order and repeated tokens are kept (`a: b b` gives `["b", "b"]`) |
| MakeDb.DropBarsSingleton | make_p_to_json.py:21 | a single token is dropped exactly when it is `\|` |
| MakeDb.SplitRule | make_p_to_json.py:19-21 | a line with a colon gives a target without a colon and a list of words, none of them `\|`. A line without a colon gives nothing |
| MakeDb.RuleLineParses | make_p_to_json.py:19-21 | a rule line `target:` or `target::` followed by ` w` for each word `w` gives back the target and the words without `\|`. With no words this is `target:`, which gives an empty list |
| MakeDb.SplitAtRuleSeparator | make_p_to_json.py:17-20 | `target` + `:` or `::` + a space + text starting with a non-space splits into the target and that text |
| MakeDb.SingleColonExample | make_p_to_json.py:19-21 | `a: b c` gives target `a` with prerequisites `b`, `c` |
| MakeDb.DoubleColonExample | make_p_to_json.py:19-21 | `a:: b \| c` gives target `a` with prerequisites `b`, `c` |
| MakeDb.NoPrerequisitesExample | make_p_to_json.py:19-21 | `foo.c:` gives target `foo.c` with no prerequisites |
| MakeDb.BarDroppedExample | make_p_to_json.py:21 | the tokens `b \| c` keep `b`, `c` |
| MakeDb.MarkersExclusive | make_p_to_json.py:25-29 | no line starts with two of the stats, not-a-target and makefile markers, so the order of the tests does not matter |
| MakeDb.ParseEntry | make_p_to_json.py:19-21 | `_parse_entry` fails, with the line as the error, exactly when the line has no colon |
| MakeDb.ParseEntryRecordsRule | make_p_to_json.py:19-21 | on a line with a colon, the parsed target gets the parsed prerequisites and every other key keeps its value |
| MakeDb.EntriesFrom | make_p_to_json.py:16-34 | the entry loop finishes inside the input, and its only error is a rule line without a colon |
| MakeDb.EntriesFromStops | make_p_to_json.py:24-34 | the entry loop ends at the end of the input or just after a stats line |
| MakeDb.EntriesFromUnique | make_p_to_json.py:16-34 | the graph the loop builds has unique keys |
| MakeDb.ParseEntries | make_p_to_json.py:16-34 | the `for line in fp` loop of `_parse_entries` computes `EntriesFrom` from an empty dict |
| MakeDb.StatsLineEndsSection | make_p_to_json.py:25-26 | a stats line returns the graph as it is and consumes just that line |
| MakeDb.NotTargetBlockIgnored | make_p_to_json.py:27-28 | a not-a-target line skips its block up to the next blank line without recording anything |
| MakeDb.MakefileLineSkipsOne | make_p_to_json.py:29-30 | a makefile annotation line consumes itself and the next line, and records nothing |
| MakeDb.RuleEntryRecorded | make_p_to_json.py:31-33 | any other line with a colon records its rule and skips to after the next blank line |
| MakeDb.RuleLineWithoutColon | make_p_to_json.py:31-32 | any other line without a colon stops the parse with an error naming the line |
| MakeDb.DbFrom | make_p_to_json.py:37-42 | `_parse_db` stays inside the input, and its only error is a rule line without a colon |
| MakeDb.DbFromUnique | make_p_to_json.py:37-42 | the graph of a section has unique keys |
| MakeDb.ParseDb | make_p_to_json.py:37-42 | the loop of `_parse_db` computes `DbFrom` |
| MakeDb.DbWithoutFilesIsEmpty | make_p_to_json.py:38-42 | with no `# Files` line left, `_parse_db` consumes the rest of the input and returns an empty graph |
| MakeDb.DbAtFirstFiles | make_p_to_json.py:38-41 | at the first `# Files` line, the line after it is skipped and the entries are parsed from the line after that |
| MakeDb.SectionsFrom | make_p_to_json.py:48-53 | the loop only appends to the graphs passed in. Its only error comes from a rule line |
| MakeDb.SectionsFromGraphs | make_p_to_json.py:48-53 | every graph the loop appends is non-empty with unique keys, and there are at most as many graphs as database markers |
| MakeDb.ParseResult | make_p_to_json.py:45-56 | success returns a non-empty list that extends the one passed in. The `ValueError` of line 55 is returned exactly when no graphs result |
| MakeDb.ParseMakeP | make_p_to_json.py:45-56 | the loop of `parse_make_p` computes `ParseResult` |
| Dot.Id.constructor | json_to_dot.py:9-11 | the counter starts at 0 |
| Dot.Id.Next | json_to_dot.py:13-16 | reading `id` increments the counter and returns the new value |
| Dot.EscapeRoundTrip | json_to_dot.py:22-23 | the quoted, backslash-escaped name can be unescaped back to the name |
| Dot.EscapeInjective | json_to_dot.py:22-23 | distinct names have distinct escaped forms |
| Dot.EscapePlain | json_to_dot.py:22-23 | a name without `"` just gets wrapped in quotes |
| Dot.Register | json_to_dot.py:25-29 | after `_register_node` the name is registered |
| Dot.RegisterFacts | json_to_dot.py:25-29 | registering keeps the earlier ids, prints no edge, and prints a node line with the name |
| Dot.RegisterInv | json_to_dot.py:25-29 | registering keeps the emitter invariant: the next ids in order, one node line per name agreeing with the registry and the fill rule, edges only between declared nodes |
| Dot.RegisterNode | json_to_dot.py:25-29 | the method changes the registry, counter and output as `Register` says |
| Dot.EdgeInv | json_to_dot.py:52-53 | printing an edge between declared nodes keeps the invariant |
| Dot.InitialInv | json_to_dot.py:20-31 | an empty registry and the cluster line satisfy the invariant |
| Dot.DepsPassInv | json_to_dot.py:46-53 | the prerequisite loop keeps the invariant |
| Dot.DepsPassNames | json_to_dot.py:46-51 | the prerequisite loop keeps earlier ids and registers every escaped prerequisite |
| Dot.DepsPassLabels | json_to_dot.py:46-51 | the prerequisite loop adds node lines exactly for the escaped prerequisites |
| Dot.DepsPassEdges | json_to_dot.py:46-53 | for a drawn target, the loop prints the edges from the target's node to each prerequisite's node, in order. For a skipped target it prints none |
| Dot.PrintDeps | json_to_dot.py:46-53 | the method computes `DepsPass` |
| Dot.EscapedKeys | json_to_dot.py:33-36 | `parents` holds the escaped targets in order |
| Dot.EscapeTargets | json_to_dot.py:33-36 | the loop computes `EscapedKeys` |
| Dot.TargetStepInv | json_to_dot.py:41-53 | handling one target keeps the invariant |
| Dot.TargetsPassInv | json_to_dot.py:41-53 | the target loop keeps the invariant |
| Dot.TargetStepFacts | json_to_dot.py:41-53 | one target keeps earlier ids and registers the target when it is drawn and all of its prerequisites. It prints the target's edges when it is drawn, and none otherwise |
| Dot.TargetStepLabels | json_to_dot.py:41-51 | one target adds node lines exactly for the target when drawn and for its prerequisites |
| Dot.TargetsPassNames | json_to_dot.py:41-53 | the target loop keeps earlier ids |
| Dot.TargetsPassEdges | json_to_dot.py:41-53 | the target loop prints the edges `ExpectedEdges` lists: for each drawn target in order, one edge to each prerequisite |
| Dot.TargetsPassLabels | json_to_dot.py:41-51 | the target loop prints node lines exactly for the drawn targets and all prerequisites |
| Dot.PrintTargets | json_to_dot.py:41-53 | the loop computes `TargetsPass` |
| Dot.ClusterBodyInv | json_to_dot.py:19-54 | the body of one cluster satisfies the invariant, and the cluster is that body plus `}` |
| Dot.EmitGraphShape | json_to_dot.py:31-54 | a cluster opens with `subgraph cluster<start+1>{` and closes with `}`, and holds only node and edge lines |
| Dot.EmitGraphIds | json_to_dot.py:25-31 | a cluster takes the ids after `start`, consecutively and in output order |
| Dot.EmitGraphNodes | json_to_dot.py:19-54 | every name has exactly one node line, with the registered id. A name is filled `none` exactly when it is one of the graph's targets, and `grey` exactly when it is not. The names drawn are the drawn targets and all prerequisites |
| Dot.EmitGraphEdges | json_to_dot.py:41-53 | each edge comes after the node lines of both its ends, and the edges are exactly the expected edges |
| Dot.EscapedNamesMembers | json_to_dot.py:46-51 | a name is among the escaped prerequisites exactly when it escapes one of them |
| Dot.RegisteredNamesMembers | json_to_dot.py:41-51 | a name is drawn exactly when it escapes a non-skipped target or a prerequisite of any target |
| Dot.PrintSingleGraph | json_to_dot.py:19-54 | `print_single_graph` prints `EmitGraph` and leaves the counter at that cluster's last id. An absent skip list counts as empty |
| Dot.MainEmit | json_to_dot.py:77-79 | one graph printed by `main` takes the ids right after the counter, consecutively and in output order |
| Dot.GraphsLoopIds | json_to_dot.py:78-79 | when every graph takes the ids after the counter, the whole loop takes them consecutively in output order |
| Dot.GraphsFromIds | json_to_dot.py:76-79 | the graphs loop takes further ids consecutively in output order |
| Dot.DocumentIds | json_to_dot.py:64-80 | the document starts with the preamble and ends with `}`. Its cluster and node ids are 1, 2, 3, ... in output order, so they are distinct and increasing |
| Dot.PrintGraphs | json_to_dot.py:64-80 | `main` prints `Document`, with `.PHONY` and `.SUFFIXES` skipped |
| Collapse.GetOthers | collapse_deps.py:23-24 | every element of `get_others` is a non-string of the input |
| Collapse.Partition | collapse_deps.py:19-24 | `get_strings` holds exactly the strings and `get_others` exactly the non-strings, and their lengths add up to the input's |
| Collapse.PartitionAppend | collapse_deps.py:19-24 | both keep the input order: they distribute over concatenation |
| Collapse.PartitionOfJoined | collapse_deps.py:19-24 | a list of strings followed by non-strings splits back into those two parts |
| Collapse.DedupElements | collapse_deps.py:27-34 | `unique` keeps exactly the input's elements and is no longer than its input |
| Collapse.DedupNoDup | collapse_deps.py:27-34 | `unique` keeps no element twice |
| Collapse.DedupOrder | collapse_deps.py:27-34 | `unique` keeps the elements in the order of their first occurrence |
| Collapse.DedupOfNoDup | collapse_deps.py:27-34 | on a list without duplicates `unique` changes nothing |
| Collapse.Unique | collapse_deps.py:27-34 | the loop with the `seen` set computes `Dedup` |
| Collapse.CollapseOneNoMatch | collapse_deps.py:40-45 | an item that starts with no prefix is kept as it is |
| Collapse.CollapseOneFirstMatch | collapse_deps.py:41-44 | an item becomes the FIRST prefix it starts with, followed by `replace` |
| Collapse.CollapseOneImage | collapse_deps.py:40-44 | an item becomes itself or some prefix followed by `replace` |
| Collapse.CollapseItem | collapse_deps.py:40-44 | the inner loop with its `break` computes `CollapseOne` |
| Collapse.CollapseStrings | collapse_deps.py:37-46 | `collapse_strings` computes `Collapsed`: every item rewritten, then deduplicated |
| Collapse.CollapsedFacts | collapse_deps.py:37-46 | the result has no duplicates and is no longer than the input. Its elements are exactly the rewritten forms of the items |
| Collapse.CollapsedExample | collapse_deps.py:37-46 | `["src/a.c", "src/b.c", "lib/x.c"]` with `["src/"]` gives `["src/..", "lib/x.c"]` |
| Collapse.FilterKind | collapse_deps.py:49-58 | `filter_paths` keeps lists as lists and dicts as dicts, and returns any other value unchanged. A bare string is never collapsed |
| Collapse.FilterList | collapse_deps.py:50-55 | on a list, all strings come before all non-strings. The strings are the collapsed strings of the input, the non-strings are the input's non-strings filtered one by one, and the list does not grow |
| Collapse.FilterObject | collapse_deps.py:56-57 | on a dict, the keys and their order stay, and each value is filtered |
| Collapse.SinglePrefixStable | collapse_deps.py:14 | a one-prefix list, such as the default `['src/']`, is stable |
| Collapse.CollapseOneTwice | collapse_deps.py:40-45 | under stable prefixes, rewriting a rewritten item changes nothing |
| Collapse.CollapsedTwice | collapse_deps.py:37-46 | under stable prefixes, collapsing a collapsed list changes nothing |
| Collapse.FilterIdempotent | collapse_deps.py:49-58 | under stable prefixes, `filter_paths` applied twice gives what it gives once |
| Collapse.DefaultIdempotent | collapse_deps.py:49-58 | with the default prefix, `filter_paths` is idempotent |
| Collapse.OverlappingCollapse | collapse_deps.py:40-45 | with `["src/.", "src/"]`, `src/x` becomes `src/..` and `src/..` becomes `src/...` |
| Collapse.FilterSingleton | collapse_deps.py:50-55 | a one-string list filters to that string rewritten |
| Collapse.NotIdempotentInGeneral | collapse_deps.py:37-58 | with `["src/.", "src/"]`, filtering `["src/x"]` once and twice give different results, and those prefixes are not stable |

## Left out

- The command line is not modelled: `_parse_args`, `_get_iostreams`,
  `argparse`, the usage messages and `sys.exit`.
- File and stream I/O is not modelled. The parser receives the lines a
  text file yields, and `fp.readline()` is an advance of the cursor. The
  emitter returns its lines instead of printing them.
- `json.load` and `json.dump` are not modelled. The emitter receives
  decoded graphs and the collapser a decoded `Json` value, and the
  parser's graph list is the value that would be dumped. How JSON numbers
  become Python ints and floats is not modelled: integers are `int`, and
  floats are approximated by `real`. Both pass through unchanged. An
  object is the ordered list of its members as `json.load` builds it, so
  duplicate keys in the JSON text are not modelled.
- The regular expression engine is not modelled. `re.split(':{1,2} *',
  line, 1)` is written out as a search for the first colon run.
  `SplitAtColonRun` states which split it makes.
- Render: the exact text of every line is defined, but nothing is proved
  about it as text. For example, no lemma says that decimal ids never
  collide. The properties are stated on the structured `DotLine` values.
- MakeDb.ParseMakeP: Python appends to the caller's `graphs` list in
  place. The model returns the extended list instead, so aliasing of that
  list is not captured.
- Dot.PrintSingleGraph: the two `for target, deps in graph.items()` loops
  are written as the methods `EscapeTargets` and `PrintTargets`, which it
  calls. The registry `name_to_node`, a closure variable in Python, is
  passed to them and returned by them.
- The commented-out post-filter at `make_p_to_json.py:51` is not
  modelled, since it is not executed.

## Behaviour of the code worth noting

- A `# makefile (from '` line is handled by an `elif` branch of
  `_parse_entries` (`make_p_to_json.py:29-30`). That branch consumes the
  marker line and the line after it, and nothing else is parsed on that
  iteration (`MakeDb.MakefileLineSkipsOne`).
- `filter_paths` is idempotent only when each `prefix + ".."` collapses
  to itself (`Collapse.Stable`, `Collapse.FilterIdempotent`). That always
  holds for a single prefix, so it holds for the default `["src/"]`
  (`Collapse.DefaultIdempotent`). For the prefixes `["src/.", "src/"]`,
  filtering twice differs from filtering once
  (`Collapse.NotIdempotentInGeneral`).
- Sections of the dump that yield no entries are dropped
  (`make_p_to_json.py:52`). A dump with N `# Files` sections therefore
  gives at most N graphs (`MakeDb.SectionsFromGraphs`).

/** The DOT emitter of json_to_dot.py: every dependency graph becomes one
    `subgraph clusterN{...}` of a single `digraph`, with one node line per
    distinct (escaped) name and one edge line per prerequisite of every
    target that is not skipped.

    Each `print` call of the source appends one `DotLine` to the output;
    `Render` gives the text that call prints, without its newline. */
module Dot {
  import opened Wrappers
  import opened Text
  import opened DepGraph

  /** The targets `main` passes as `skiptargets`. */
  const SkipTargets: seq<string> := [".PHONY", ".SUFFIXES"]

  const NoFill := "none"
  const GreyFill := "grey"

  // ---------------------------------------------------------------------
  // The `Id` counter

  /** `Id`: `id` increments the counter and returns the new value, so the
      first id handed out is 1. */
  class Id {
    var current: nat

    constructor ()
      ensures current == 0
    {
      current := 0;
    }

    method Next() returns (n: nat)
      modifies this
      ensures current == old(current) + 1
      ensures n == current
    {
      current := current + 1;
      n := current;
    }
  }

  // ---------------------------------------------------------------------
  // _escape

  /** `s.replace('"', '\\"')`. */
  function QuoteEscaped(s: string): string
    decreases |s|
  {
    if s == [] then []
    else (if s[0] == '"' then "\\\"" else [s[0]]) + QuoteEscaped(s[1..])
  }

  /** `_escape(s)`: the name between double quotes, with each double quote
      inside it preceded by a backslash; backslashes are left as they are. */
  function Escape(s: string): string {
    "\"" + QuoteEscaped(s) + "\""
  }

  /** Reads `\"` back as `"` and every other character as itself. */
  function Unquote(t: string): string
    decreases |t|
  {
    if t == [] then []
    else if |t| >= 2 && t[0] == '\\' && t[1] == '"' then "\"" + Unquote(t[2..])
    else [t[0]] + Unquote(t[1..])
  }

  /** Strips the outer quotes of an escaped name and undoes the escaping. */
  function Unescape(t: string): string {
    if |t| >= 2 then Unquote(t[1..|t| - 1]) else t
  }

  /** An escaped text never starts with a bare quote: each quote in it is
      preceded by a backslash. */
  lemma QuoteEscapedStart(s: string)
    ensures QuoteEscaped(s) == [] || QuoteEscaped(s)[0] != '"'
  {
    if s != [] {
      var head := if s[0] == '"' then "\\\"" else [s[0]];
      assert QuoteEscaped(s) == head + QuoteEscaped(s[1..]);
      assert (head + QuoteEscaped(s[1..]))[0] == head[0];
    }
  }

  lemma {:induction false} UnquoteOfQuoteEscaped(s: string)
    ensures Unquote(QuoteEscaped(s)) == s
    decreases |s|
  {
    if s != [] {
      var rest := QuoteEscaped(s[1..]);
      UnquoteOfQuoteEscaped(s[1..]);
      if s[0] == '"' {
        var t := "\\\"" + rest;
        assert QuoteEscaped(s) == t;
        assert t[2..] == rest;
      } else {
        var t := [s[0]] + rest;
        assert QuoteEscaped(s) == t;
        assert t[1..] == rest;
        if s[0] == '\\' && |t| >= 2 {
          QuoteEscapedStart(s[1..]);
          assert t[1] == rest[0];
        }
      }
      assert s == [s[0]] + s[1..];
    }
  }

  /** Escaping loses nothing: the name can be read back from its escaped form. */
  lemma EscapeRoundTrip(s: string)
    ensures Unescape(Escape(s)) == s
  {
    var e := Escape(s);
    assert e[1..|e| - 1] == QuoteEscaped(s);
    UnquoteOfQuoteEscaped(s);
  }

  /** Different names have different escaped forms, so registering escaped
      names tells the original names apart. */
  lemma EscapeInjective(s: string, t: string)
    ensures Escape(s) == Escape(t) ==> s == t
  {
    EscapeRoundTrip(s);
    EscapeRoundTrip(t);
  }

  /** A name without double quotes is only wrapped in quotes. */
  lemma {:induction false} EscapePlain(s: string)
    requires '"' !in s
    ensures Escape(s) == "\"" + s + "\""
    decreases |s|
  {
    QuoteEscapedPlain(s);
  }

  lemma {:induction false} QuoteEscapedPlain(s: string)
    requires '"' !in s
    ensures QuoteEscaped(s) == s
    decreases |s|
  {
    if s != [] {
      assert s[0] in s;
      assert forall c :: c in s[1..] ==> c in s;
      QuoteEscapedPlain(s[1..]);
      assert s == [s[0]] + s[1..];
    }
  }

  // ---------------------------------------------------------------------
  // The printed lines

  datatype DotLine =
    /** The `digraph G {` preamble `main` prints first. */
    | Header
    /** `subgraph cluster<cluster>{` */
    | ClusterOpen(cluster: nat)
    /** `n<id>[label=<name>, style = "solid,filled", fillcolor="<fill>"]` */
    | NodeDecl(id: nat, name: string, fill: string)
    /** `n<src> -> n<dst>` */
    | EdgeLine(src: nat, dst: nat)
    /** `}` */
    | Close

  const HeaderText := "\ndigraph G {\n    graph [rankdir=LR]\n    node [shape=box,\n    style=solid\n    ]\n    edge [color=\"#00000088\",\n    dir=back\n    ]\n    "

  /** The text one `print` call writes, without the newline it adds. */
  function Render(l: DotLine): string {
    match l
    case Header => HeaderText
    case ClusterOpen(c) => "subgraph cluster" + NatToString(c) + "{"
    case NodeDecl(id, name, fill) =>
      "n" + NatToString(id) + "[label=" + name + ", style = \"solid,filled\", fillcolor=\"" + fill + "\"]"
    case EdgeLine(src, dst) => "n" + NatToString(src) + " -> " + "n" + NatToString(dst)
    case Close => "}"
  }

  /** The counter value a cluster or node line took. */
  function IdOf(l: DotLine): nat {
    match l
    case ClusterOpen(c) => c
    case NodeDecl(id, _, _) => id
    case _ => 0
  }

  predicate TakesId(l: DotLine) {
    l.ClusterOpen? || l.NodeDecl?
  }

  function LineIds(l: DotLine): seq<nat> {
    if TakesId(l) then [IdOf(l)] else []
  }

  /** All counter values used in `out`, in output order. */
  function Ids(out: seq<DotLine>): seq<nat>
    decreases |out|
  {
    if out == [] then [] else Ids(out[..|out| - 1]) + LineIds(out[|out| - 1])
  }

  /** The names that have a node line in `out`. */
  function Labels(out: seq<DotLine>): set<string>
    decreases |out|
  {
    if out == [] then {}
    else Labels(out[..|out| - 1]) + (if out[|out| - 1].NodeDecl? then {out[|out| - 1].name} else {})
  }

  /** The edge lines of `out` as pairs of node ids, in output order. */
  function Edges(out: seq<DotLine>): seq<(nat, nat)>
    decreases |out|
  {
    if out == [] then []
    else Edges(out[..|out| - 1]) + (if out[|out| - 1].EdgeLine? then [(out[|out| - 1].src, out[|out| - 1].dst)] else [])
  }

  /** `lo, lo + 1, ..., hi - 1`. */
  function Range(lo: nat, hi: nat): (r: seq<nat>)
    requires lo <= hi
    ensures |r| == hi - lo
    decreases hi - lo
  {
    if hi == lo then [] else Range(lo, hi - 1) + [hi - 1]
  }

  lemma {:induction false} RangeAt(lo: nat, hi: nat, k: nat)
    requires lo <= hi && k < hi - lo
    ensures Range(lo, hi)[k] == lo + k
    decreases hi - lo
  {
    if k < hi - 1 - lo {
      RangeAt(lo, hi - 1, k);
    }
  }

  /** The counter values taken in `out`, in output order, are `lo, lo + 1,
      ..., hi - 1`. */
  predicate Numbered(out: seq<DotLine>, lo: nat, hi: nat)
    decreases |out|
  {
    if out == [] then lo == hi
    else
      var x := out[|out| - 1];
      if TakesId(x) then lo < hi && IdOf(x) == hi - 1 && Numbered(out[..|out| - 1], lo, hi - 1)
      else Numbered(out[..|out| - 1], lo, hi)
  }

  lemma {:induction false} NumberedBounds(out: seq<DotLine>, lo: nat, hi: nat)
    requires Numbered(out, lo, hi)
    ensures lo <= hi
    decreases |out|
  {
    if out != [] {
      var x := out[|out| - 1];
      NumberedBounds(out[..|out| - 1], lo, if TakesId(x) then hi - 1 else hi);
    }
  }

  lemma NumberedAppend(out: seq<DotLine>, x: DotLine, lo: nat, hi: nat)
    requires Numbered(out, lo, hi)
    requires TakesId(x) ==> IdOf(x) == hi
    ensures Numbered(out + [x], lo, if TakesId(x) then hi + 1 else hi)
  {
    NumberedBounds(out, lo, hi);
    assert (out + [x])[..|out|] == out;
  }

  lemma {:induction false} NumberedConcat(a: seq<DotLine>, b: seq<DotLine>, lo: nat, mid: nat, hi: nat)
    requires Numbered(a, lo, mid) && Numbered(b, mid, hi)
    ensures Numbered(a + b, lo, hi)
    decreases |b|
  {
    if b == [] {
      assert a + b == a;
    } else {
      var b', x := b[..|b| - 1], b[|b| - 1];
      assert b == b' + [x];
      assert a + b == (a + b') + [x];
      var mid' := if TakesId(x) then hi - 1 else hi;
      NumberedConcat(a, b', lo, mid, mid');
      NumberedAppend(a + b', x, lo, mid');
    }
  }

  /** Numbered lines take exactly the ids of `Range`. */
  lemma {:induction false} NumberedIds(out: seq<DotLine>, lo: nat, hi: nat)
    requires Numbered(out, lo, hi)
    ensures lo <= hi && Ids(out) == Range(lo, hi)
    decreases |out|
  {
    NumberedBounds(out, lo, hi);
    if out != [] {
      var x := out[|out| - 1];
      NumberedIds(out[..|out| - 1], lo, if TakesId(x) then hi - 1 else hi);
    }
  }

  // ---------------------------------------------------------------------
  // print_single_graph, as a function of the counter value before it

  /** The state of one `print_single_graph` call: the `name_to_node`
      registry (escaped name to node id), the counter, and the lines
      printed so far. */
  datatype Pass = Pass(names: map<string, nat>, last: nat, out: seq<DotLine>)

  /** The fill colour given to a prerequisite: `"none"` when it is one of
      the graph's (escaped) targets, `"grey"` when it is not. */
  function FillFor(name: string, parents: seq<string>): string {
    if name in parents then NoFill else GreyFill
  }

  /** `_register_node(name, i, fill)`: a name seen for the first time takes
      the next id and prints its node line; a name seen before changes
      nothing. */
  function Register(p: Pass, name: string, fill: string): (r: Pass)
    ensures name in r.names
  {
    if name in p.names then p
    else Pass(p.names[name := p.last + 1], p.last + 1, p.out + [NodeDecl(p.last + 1, name, fill)])
  }

  /** The `for dep in deps` loop: every prerequisite is registered, and when
      the target is drawn (`from` holds its node id) an edge from the target
      to the prerequisite's node is printed. */
  function DepsPass(p: Pass, deps: seq<string>, parents: seq<string>, from: Option<nat>): Pass
    decreases |deps|
  {
    if deps == [] then p else DepsPass(DepStep(p, deps[0], parents, from), deps[1..], parents, from)
  }

  /** One turn of that loop, for the prerequisite `dep`. */
  function DepStep(p: Pass, dep: string, parents: seq<string>, from: Option<nat>): Pass {
    var d := Escape(dep);
    var q := Register(p, d, FillFor(d, parents));
    if from.Some? then q.(out := q.out + [EdgeLine(from.value, q.names[d])]) else q
  }

  /** The `for target, deps in graph.items()` loop from entry `entries[0]`
      on: a target that is not skipped is registered (with the default fill)
      and its node is the source of the edges of its prerequisites. */
  function TargetsPass(p: Pass, entries: seq<Entry>, skip: seq<string>, parents: seq<string>): Pass
    decreases |entries|
  {
    if entries == [] then p else TargetsPass(TargetStep(p, entries[0], skip, parents), entries[1..], skip, parents)
  }

  /** One turn of that loop, for the entry `(target, deps)`. */
  function TargetStep(p: Pass, entry: Entry, skip: seq<string>, parents: seq<string>): Pass {
    var (target, deps) := entry;
    if target in skip then DepsPass(p, deps, parents, None)
    else
      var t := Escape(target);
      var q := Register(p, t, NoFill);
      DepsPass(q, deps, parents, Some(q.names[t]))
  }

  /** `parents`: the escaped targets, in the graph's order. */
  function EscapedKeys(entries: seq<Entry>): (r: seq<string>)
    ensures |r| == |entries|
    ensures forall k :: 0 <= k < |r| ==> r[k] == Escape(entries[k].0)
    decreases |entries|
  {
    if entries == [] then [] else EscapedKeys(entries[..|entries| - 1]) + [Escape(entries[|entries| - 1].0)]
  }

  /** `print_single_graph(graph, i, skiptargets)` when the counter stands at
      `start`: the cluster line takes `start + 1`, then come the nodes and
      edges, then the closing brace. */
  function EmitGraph(g: Graph, skip: seq<string>, start: nat): Pass {
    var p := TargetsPass(Pass(map[], start + 1, [ClusterOpen(start + 1)]), g.entries, skip, EscapedKeys(g.entries));
    p.(out := p.out + [Close])
  }

  /** The pass printed with the counter at `start` takes the ids after
      `start`, consecutively and in output order, and moves the counter on. */
  predicate TakesIdsAfter(e: Pass, start: nat) {
    start < e.last && Numbered(e.out, start + 1, e.last + 1)
  }

  /** What `main` prints for one graph, with the counter at `start`: the
      cluster takes the ids after `start`, consecutively and in output
      order. */
  function MainEmit(g: Graph, start: nat): (e: Pass)
    ensures TakesIdsAfter(e, start)
  {
    var e := EmitGraph(g, SkipTargets, start);
    EmitGraphIds(g, SkipTargets, start, e);
    e
  }

  /** A loop over `graphs` that prints each one with `emit`, with the
      counter at `start` and the lines printed so far in `acc`. */
  function GraphsLoop(graphs: seq<Graph>, start: nat, acc: seq<DotLine>, emit: (Graph, nat) -> Pass): (seq<DotLine>, nat)
    decreases |graphs|
  {
    if graphs == [] then (acc, start)
    else
      var e := emit(graphs[0], start);
      GraphsLoop(graphs[1..], e.last, acc + e.out, emit)
  }

  /** The `for graph in ...` loop of `main` from `graphs[0]` on. */
  function GraphsFrom(graphs: seq<Graph>, start: nat, acc: seq<DotLine>): (seq<DotLine>, nat) {
    GraphsLoop(graphs, start, acc, MainEmit)
  }

  /** Everything `main` prints for the decoded list of graphs. */
  function Document(graphs: seq<Graph>): seq<DotLine> {
    GraphsFrom(graphs, 0, [Header]).0 + [Close]
  }

  // ---------------------------------------------------------------------
  // What one cluster keeps true

  /** Some node line of `out` has id `id`. */
  predicate Declared(out: seq<DotLine>, id: nat) {
    exists j :: 0 <= j < |out| && out[j].NodeDecl? && out[j].id == id
  }

  /** Every registered name's id has a node line. */
  predicate NamesDeclared(out: seq<DotLine>, names: map<string, nat>) {
    forall l :: l in names ==> Declared(out, names[l])
  }

  /** Each node line agrees with the registry and has the fill colour of
      its name. */
  predicate NodesAgree(out: seq<DotLine>, names: map<string, nat>, parents: seq<string>) {
    forall k :: 0 <= k < |out| && out[k].NodeDecl? ==>
      out[k].name in names && names[out[k].name] == out[k].id && out[k].fill == FillFor(out[k].name, parents)
  }

  /** No name has two node lines. */
  predicate DistinctNames(out: seq<DotLine>) {
    forall j, k :: 0 <= j < k < |out| && out[j].NodeDecl? && out[k].NodeDecl? ==> out[j].name != out[k].name
  }

  /** Both ends of every edge line have a node line before it. */
  predicate EdgesDeclared(out: seq<DotLine>) {
    forall k :: 0 <= k < |out| && out[k].EdgeLine? ==> Declared(out[..k], out[k].src) && Declared(out[..k], out[k].dst)
  }

  /** Only node and edge lines follow the cluster line. */
  predicate Body(out: seq<DotLine>) {
    forall k :: 0 < k < |out| ==> out[k].NodeDecl? || out[k].EdgeLine?
  }

  /** The state of `print_single_graph` after its cluster line took id
      `base`. */
  predicate Inv(p: Pass, base: nat, parents: seq<string>) {
    && base <= p.last
    && |p.out| > 0 && p.out[0] == ClusterOpen(base)
    && Body(p.out)
    && Ids(p.out) == Range(base, p.last + 1)
    && p.names.Keys == Labels(p.out)
    && NamesDeclared(p.out, p.names)
    && NodesAgree(p.out, p.names, parents)
    && DistinctNames(p.out)
    && EdgesDeclared(p.out)
  }

  /** `m` keeps every entry of `m0`. */
  predicate Extends(m: map<string, nat>, m0: map<string, nat>) {
    forall l :: l in m0 ==> l in m && m[l] == m0[l]
  }

  lemma AppendLast(out: seq<DotLine>, x: DotLine)
    ensures (out + [x])[..|out|] == out
    ensures Ids(out + [x]) == Ids(out) + LineIds(x)
    ensures Labels(out + [x]) == Labels(out) + (if x.NodeDecl? then {x.name} else {})
    ensures Edges(out + [x]) == Edges(out) + (if x.EdgeLine? then [(x.src, x.dst)] else [])
  {
    assert (out + [x])[..|out|] == out;
  }

  lemma DeclaredAppend(out: seq<DotLine>, x: DotLine, id: nat)
    requires Declared(out, id)
    ensures Declared(out + [x], id)
  {
    var j :| 0 <= j < |out| && out[j].NodeDecl? && out[j].id == id;
    assert (out + [x])[j] == out[j];
  }

  lemma ConcatAssoc<T>(a: seq<T>, b: seq<T>, c: seq<T>)
    ensures (a + b) + c == a + (b + c)
  {
  }

  lemma RangeStep(lo: nat, hi: nat)
    requires lo <= hi
    ensures Range(lo, hi) + [hi] == Range(lo, hi + 1)
  {
  }

  lemma InitialInv(base: nat, parents: seq<string>)
    ensures Inv(Pass(map[], base, [ClusterOpen(base)]), base, parents)
  {
    AppendLast([], ClusterOpen(base));
    assert [] + [ClusterOpen(base)] == [ClusterOpen(base)];
  }

  lemma BodyAppend(out: seq<DotLine>, x: DotLine)
    requires Body(out) && (x.NodeDecl? || x.EdgeLine?)
    ensures Body(out + [x])
  {
  }

  lemma NodesAgreeAppend(out: seq<DotLine>, names: map<string, nat>, names': map<string, nat>,
                         parents: seq<string>, x: DotLine)
    requires NodesAgree(out, names, parents) && Extends(names', names)
    requires x.NodeDecl? ==> x.name in names' && names'[x.name] == x.id && x.fill == FillFor(x.name, parents)
    ensures NodesAgree(out + [x], names', parents)
  {
    forall k | 0 <= k < |out| + 1 && (out + [x])[k].NodeDecl?
      ensures (out + [x])[k].name in names' && names'[(out + [x])[k].name] == (out + [x])[k].id
      ensures (out + [x])[k].fill == FillFor((out + [x])[k].name, parents)
    {
      if k < |out| {
        assert (out + [x])[k] == out[k];
      }
    }
  }

  lemma DistinctAppend(out: seq<DotLine>, names: map<string, nat>, parents: seq<string>, x: DotLine)
    requires DistinctNames(out) && NodesAgree(out, names, parents)
    requires x.NodeDecl? ==> x.name !in names
    ensures DistinctNames(out + [x])
  {
    var o := out + [x];
    forall j, k | 0 <= j < k < |o| && o[j].NodeDecl? && o[k].NodeDecl?
      ensures o[j].name != o[k].name
    {
      assert o[j] == out[j];
      if k < |out| {
        assert o[k] == out[k];
      }
    }
  }

  lemma EdgesDeclaredAppend(out: seq<DotLine>, x: DotLine)
    requires EdgesDeclared(out)
    requires x.EdgeLine? ==> Declared(out, x.src) && Declared(out, x.dst)
    ensures EdgesDeclared(out + [x])
  {
    var o := out + [x];
    forall k | 0 <= k < |o| && o[k].EdgeLine?
      ensures Declared(o[..k], o[k].src) && Declared(o[..k], o[k].dst)
    {
      if k < |out| {
        assert o[..k] == out[..k] && o[k] == out[k];
      } else {
        assert o[..k] == out;
      }
    }
  }

  lemma NamesDeclaredAppend(out: seq<DotLine>, names: map<string, nat>, names': map<string, nat>, x: DotLine)
    requires NamesDeclared(out, names)
    requires forall l :: l in names' ==> (l in names && names'[l] == names[l]) || (x.NodeDecl? && names'[l] == x.id)
    ensures NamesDeclared(out + [x], names')
    ensures forall id :: Declared(out, id) ==> Declared(out + [x], id)
  {
    forall id | Declared(out, id) ensures Declared(out + [x], id) {
      DeclaredAppend(out, x, id);
    }
    forall l | l in names' ensures Declared(out + [x], names'[l]) {
      if !(l in names && names'[l] == names[l]) {
        assert (out + [x])[|out|] == x;
      }
    }
  }

  /** Registering keeps the invariant and every node declared before. */
  lemma RegisterInv(p: Pass, base: nat, parents: seq<string>, name: string, fill: string)
    requires Inv(p, base, parents)
    requires fill == FillFor(name, parents)
    ensures var q := Register(p, name, fill);
            && Inv(q, base, parents)
            && (forall id :: Declared(p.out, id) ==> Declared(q.out, id))
  {
    if name !in p.names {
      var q := Register(p, name, fill);
      var x := NodeDecl(p.last + 1, name, fill);
      assert q.out == p.out + [x];
      AppendLast(p.out, x);
      RangeStep(base, p.last + 1);
      BodyAppend(p.out, x);
      NodesAgreeAppend(p.out, p.names, q.names, parents, x);
      DistinctAppend(p.out, p.names, parents, x);
      EdgesDeclaredAppend(p.out, x);
      NamesDeclaredAppend(p.out, p.names, q.names, x);
    }
  }

  /** Registering keeps every earlier registration, prints no edge, and
      the name is printed afterwards whether or not it was new. */
  lemma RegisterFacts(p: Pass, name: string, fill: string)
    ensures var q := Register(p, name, fill);
            && Extends(q.names, p.names)
            && Edges(q.out) == Edges(p.out)
            && (p.names.Keys == Labels(p.out) ==> q.names.Keys == Labels(q.out) == Labels(p.out) + {name})
  {
    if name !in p.names {
      AppendLast(p.out, NodeDecl(p.last + 1, name, fill));
    }
  }

  /** Printing an edge between two declared nodes keeps the invariant. */
  lemma EdgeInv(p: Pass, base: nat, parents: seq<string>, src: nat, dst: nat)
    requires Inv(p, base, parents)
    requires Declared(p.out, src) && Declared(p.out, dst)
    ensures var q := p.(out := p.out + [EdgeLine(src, dst)]);
            && Inv(q, base, parents)
            && (forall id :: Declared(p.out, id) ==> Declared(q.out, id))
  {
    var x := EdgeLine(src, dst);
    AppendLast(p.out, x);
    assert Ids(p.out) + [] == Ids(p.out);
    BodyAppend(p.out, x);
    NodesAgreeAppend(p.out, p.names, p.names, parents, x);
    DistinctAppend(p.out, p.names, parents, x);
    EdgesDeclaredAppend(p.out, x);
    NamesDeclaredAppend(p.out, p.names, p.names, x);
  }

  // ---------------------------------------------------------------------
  // What a cluster is expected to hold

  /** The escaped forms of `deps`. */
  function EscapedNames(deps: seq<string>): set<string>
    decreases |deps|
  {
    if deps == [] then {} else {Escape(deps[0])} + EscapedNames(deps[1..])
  }

  /** The names a graph registers: every target that is not skipped and
      every prerequisite, of skipped targets too. */
  function RegisteredNames(entries: seq<Entry>, skip: seq<string>): set<string>
    decreases |entries|
  {
    if entries == [] then {}
    else
      (if entries[0].0 in skip then {} else {Escape(entries[0].0)})
      + EscapedNames(entries[0].1) + RegisteredNames(entries[1..], skip)
  }

  /** `m[k]` when `k` is registered. */
  function NodeOf(m: map<string, nat>, k: string): nat {
    if k in m then m[k] else 0
  }

  /** One edge from `src` per prerequisite, in order, duplicates included. */
  function DepEdges(src: nat, deps: seq<string>, m: map<string, nat>): seq<(nat, nat)>
    decreases |deps|
  {
    if deps == [] then [] else [(src, NodeOf(m, Escape(deps[0])))] + DepEdges(src, deps[1..], m)
  }

  /** The edges a graph is expected to draw under the registry `m`: those of
      each target that is not skipped, in the graph's order. */
  function ExpectedEdges(entries: seq<Entry>, skip: seq<string>, m: map<string, nat>): seq<(nat, nat)>
    decreases |entries|
  {
    if entries == [] then []
    else
      (if entries[0].0 in skip then [] else DepEdges(NodeOf(m, Escape(entries[0].0)), entries[0].1, m))
      + ExpectedEdges(entries[1..], skip, m)
  }

  lemma {:induction false} DepEdgesExtend(src: nat, deps: seq<string>, m: map<string, nat>, m': map<string, nat>)
    requires Extends(m', m)
    requires forall k :: 0 <= k < |deps| ==> Escape(deps[k]) in m
    ensures DepEdges(src, deps, m) == DepEdges(src, deps, m')
    decreases |deps|
  {
    if deps != [] {
      DepEdgesExtend(src, deps[1..], m, m');
    }
  }

  lemma {:induction false} DepsPassInv(p: Pass, base: nat, parents: seq<string>, deps: seq<string>, from: Option<nat>)
    requires Inv(p, base, parents)
    requires from.Some? ==> Declared(p.out, from.value)
    ensures var q := DepsPass(p, deps, parents, from);
            && Inv(q, base, parents)
            && (forall id :: Declared(p.out, id) ==> Declared(q.out, id))
    decreases |deps|
  {
    if deps != [] {
      var d := Escape(deps[0]);
      var q := Register(p, d, FillFor(d, parents));
      RegisterInv(p, base, parents, d, FillFor(d, parents));
      var q' := DepStep(p, deps[0], parents, from);
      if from.Some? {
        assert Declared(q.out, q.names[d]);
        EdgeInv(q, base, parents, from.value, q.names[d]);
      }
      DepsPassInv(q', base, parents, deps[1..], from);
    }
  }

  /** The prerequisite loop keeps the earlier registrations and registers
      every prerequisite. */
  lemma {:induction false} DepsPassNames(p: Pass, parents: seq<string>, deps: seq<string>, from: Option<nat>)
    ensures var q := DepsPass(p, deps, parents, from);
            && Extends(q.names, p.names)
            && (forall k :: 0 <= k < |deps| ==> Escape(deps[k]) in q.names)
    decreases |deps|
  {
    if deps != [] {
      var d := Escape(deps[0]);
      var q := Register(p, d, FillFor(d, parents));
      RegisterFacts(p, d, FillFor(d, parents));
      var q' := DepStep(p, deps[0], parents, from);
      DepsPassNames(q', parents, deps[1..], from);
      assert forall k :: 1 <= k < |deps| ==> deps[k] == deps[1..][k - 1];
    }
  }

  /** After the prerequisite loop, each prerequisite's name has been
      printed (now or before). */
  lemma {:induction false} DepsPassLabels(p: Pass, parents: seq<string>, deps: seq<string>, from: Option<nat>)
    requires p.names.Keys == Labels(p.out)
    ensures var q := DepsPass(p, deps, parents, from);
            q.names.Keys == Labels(q.out) == Labels(p.out) + EscapedNames(deps)
    decreases |deps|
  {
    if deps != [] {
      var q' := DepStep(p, deps[0], parents, from);
      DepStepLabels(p, deps[0], parents, from);
      DepsPassLabels(q', parents, deps[1..], from);
      UnionAssoc(Labels(p.out), Escape(deps[0]), EscapedNames(deps[1..]));
    }
  }

  lemma UnionAssoc(a: set<string>, x: string, c: set<string>)
    ensures (a + {x}) + c == a + ({x} + c)
  {
  }

  lemma DepStepLabels(p: Pass, dep: string, parents: seq<string>, from: Option<nat>)
    requires p.names.Keys == Labels(p.out)
    ensures var q := DepStep(p, dep, parents, from);
            q.names.Keys == Labels(q.out) == Labels(p.out) + {Escape(dep)}
  {
    var d := Escape(dep);
    var q := Register(p, d, FillFor(d, parents));
    RegisterFacts(p, d, FillFor(d, parents));
    if from.Some? {
      AppendLast(q.out, EdgeLine(from.value, q.names[d]));
    }
  }

  /** When the target is drawn, the prerequisite loop prints one edge per
      prerequisite, in order, to the node registered for it. */
  lemma {:induction false} DepsPassEdges(p: Pass, parents: seq<string>, deps: seq<string>, from: Option<nat>)
    ensures var q := DepsPass(p, deps, parents, from);
            Edges(q.out) == Edges(p.out) + (if from.Some? then DepEdges(from.value, deps, q.names) else [])
    decreases |deps|
  {
    if deps != [] {
      var d := Escape(deps[0]);
      var q := Register(p, d, FillFor(d, parents));
      RegisterFacts(p, d, FillFor(d, parents));
      var q' := DepStep(p, deps[0], parents, from);
      if from.Some? {
        AppendLast(q.out, EdgeLine(from.value, q.names[d]));
      }
      DepsPassEdges(q', parents, deps[1..], from);
      DepsPassNames(q', parents, deps[1..], from);
      var r := DepsPass(q', deps[1..], parents, from);
      if from.Some? {
        assert NodeOf(r.names, d) == q.names[d];
        assert DepEdges(from.value, deps, r.names)
            == [(from.value, q.names[d])] + DepEdges(from.value, deps[1..], r.names);
        var a, b, c := Edges(p.out), [(from.value, q.names[d])], DepEdges(from.value, deps[1..], r.names);
        assert Edges(r.out) == (a + b) + c;
        ConcatAssoc(a, b, c);
      }
    }
  }

  lemma TargetStepInv(p: Pass, base: nat, parents: seq<string>, entry: Entry, skip: seq<string>)
    requires Inv(p, base, parents)
    requires Escape(entry.0) in parents
    ensures Inv(TargetStep(p, entry, skip, parents), base, parents)
  {
    var (target, deps) := entry;
    if target in skip {
      DepsPassInv(p, base, parents, deps, None);
    } else {
      var t := Escape(target);
      var q := Register(p, t, NoFill);
      RegisterInv(p, base, parents, t, NoFill);
      assert Declared(q.out, q.names[t]);
      DepsPassInv(q, base, parents, deps, Some(q.names[t]));
    }
  }

  lemma {:induction false} TargetsPassInv(p: Pass, base: nat, parents: seq<string>, entries: seq<Entry>, skip: seq<string>)
    requires Inv(p, base, parents)
    requires forall k :: 0 <= k < |entries| ==> Escape(entries[k].0) in parents
    ensures Inv(TargetsPass(p, entries, skip, parents), base, parents)
    decreases |entries|
  {
    if entries != [] {
      TargetStepInv(p, base, parents, entries[0], skip);
      assert forall k :: 0 <= k < |entries| - 1 ==> entries[1..][k] == entries[k + 1];
      TargetsPassInv(TargetStep(p, entries[0], skip, parents), base, parents, entries[1..], skip);
    }
  }

  /** One target keeps the earlier registrations, registers the target when
      it is drawn and every prerequisite, and prints the prerequisites' edges
      when the target is drawn. */
  lemma TargetStepFacts(p: Pass, parents: seq<string>, entry: Entry, skip: seq<string>)
    ensures var q := TargetStep(p, entry, skip, parents);
            && Extends(q.names, p.names)
            && (entry.0 !in skip ==> Escape(entry.0) in q.names)
            && (forall k :: 0 <= k < |entry.1| ==> Escape(entry.1[k]) in q.names)
            && Edges(q.out) == Edges(p.out)
                 + (if entry.0 in skip then [] else DepEdges(NodeOf(q.names, Escape(entry.0)), entry.1, q.names))
  {
    var (target, deps) := entry;
    if target in skip {
      DepsPassNames(p, parents, deps, None);
      DepsPassEdges(p, parents, deps, None);
      assert Edges(DepsPass(p, deps, parents, None).out) == Edges(p.out) + [];
    } else {
      var t := Escape(target);
      var q := Register(p, t, NoFill);
      RegisterFacts(p, t, NoFill);
      DepsPassNames(q, parents, deps, Some(q.names[t]));
      DepsPassEdges(q, parents, deps, Some(q.names[t]));
    }
  }

  /** One target prints the names it registers. */
  lemma TargetStepLabels(p: Pass, parents: seq<string>, entry: Entry, skip: seq<string>)
    requires p.names.Keys == Labels(p.out)
    ensures var q := TargetStep(p, entry, skip, parents);
            q.names.Keys == Labels(q.out)
            == Labels(p.out) + ((if entry.0 in skip then {} else {Escape(entry.0)}) + EscapedNames(entry.1))
  {
    var (target, deps) := entry;
    if target in skip {
      DepsPassLabels(p, parents, deps, None);
      assert {} + EscapedNames(deps) == EscapedNames(deps);
    } else {
      var t := Escape(target);
      var q := Register(p, t, NoFill);
      RegisterFacts(p, t, NoFill);
      DepsPassLabels(q, parents, deps, Some(q.names[t]));
      SetAssoc(Labels(p.out), {t}, EscapedNames(deps));
    }
  }

  lemma SetAssoc(a: set<string>, b: set<string>, c: set<string>)
    ensures (a + b) + c == a + (b + c)
  {
  }

  /** The target loop keeps the earlier registrations. */
  lemma {:induction false} TargetsPassNames(p: Pass, parents: seq<string>, entries: seq<Entry>, skip: seq<string>)
    ensures Extends(TargetsPass(p, entries, skip, parents).names, p.names)
    decreases |entries|
  {
    if entries != [] {
      TargetStepFacts(p, parents, entries[0], skip);
      TargetsPassNames(TargetStep(p, entries[0], skip, parents), parents, entries[1..], skip);
    }
  }

  /** The target loop prints the edges of `ExpectedEdges` under the final
      registry. */
  lemma {:induction false} TargetsPassEdges(p: Pass, parents: seq<string>, entries: seq<Entry>, skip: seq<string>)
    ensures var r := TargetsPass(p, entries, skip, parents);
            Edges(r.out) == Edges(p.out) + ExpectedEdges(entries, skip, r.names)
    decreases |entries|
  {
    if entries != [] {
      var (target, deps) := entries[0];
      var q := TargetStep(p, entries[0], skip, parents);
      var r := TargetsPass(q, entries[1..], skip, parents);
      TargetStepFacts(p, parents, entries[0], skip);
      TargetsPassEdges(q, parents, entries[1..], skip);
      TargetsPassNames(q, parents, entries[1..], skip);
      var b := if target in skip then [] else DepEdges(NodeOf(q.names, Escape(target)), deps, q.names);
      if target !in skip {
        DepEdgesExtend(NodeOf(q.names, Escape(target)), deps, q.names, r.names);
        assert NodeOf(r.names, Escape(target)) == NodeOf(q.names, Escape(target));
      }
      var a, c := Edges(p.out), ExpectedEdges(entries[1..], skip, r.names);
      assert ExpectedEdges(entries, skip, r.names) == b + c;
      ConcatAssoc(a, b, c);
    }
  }

  /** The target loop prints the names of `RegisteredNames`. */
  lemma {:induction false} TargetsPassLabels(p: Pass, parents: seq<string>, entries: seq<Entry>, skip: seq<string>)
    requires p.names.Keys == Labels(p.out)
    ensures var r := TargetsPass(p, entries, skip, parents);
            r.names.Keys == Labels(r.out) == Labels(p.out) + RegisteredNames(entries, skip)
    decreases |entries|
  {
    if entries != [] {
      var (target, deps) := entries[0];
      var q := TargetStep(p, entries[0], skip, parents);
      TargetStepLabels(p, parents, entries[0], skip);
      TargetsPassLabels(q, parents, entries[1..], skip);
      var here := (if target in skip then {} else {Escape(target)}) + EscapedNames(deps);
      SetAssoc(Labels(p.out), here, RegisteredNames(entries[1..], skip));
    }
  }

  // ---------------------------------------------------------------------
  // What print_single_graph and main print

  /** The registry and output of a cluster before its closing brace. */
  function ClusterBody(g: Graph, skip: seq<string>, start: nat): Pass {
    TargetsPass(Pass(map[], start + 1, [ClusterOpen(start + 1)]), g.entries, skip, EscapedKeys(g.entries))
  }

  lemma ClusterBodyInv(g: Graph, skip: seq<string>, start: nat)
    ensures Inv(ClusterBody(g, skip, start), start + 1, EscapedKeys(g.entries))
    ensures EmitGraph(g, skip, start) == ClusterBody(g, skip, start).(out := ClusterBody(g, skip, start).out + [Close])
  {
    var parents := EscapedKeys(g.entries);
    InitialInv(start + 1, parents);
    TargetsPassInv(Pass(map[], start + 1, [ClusterOpen(start + 1)]), start + 1, parents, g.entries, skip);
  }

  /** A cluster opens with `subgraph cluster<start + 1>{`, closes with `}`,
      and holds only node and edge lines in between. */
  lemma EmitGraphShape(g: Graph, skip: seq<string>, start: nat)
    ensures var e := EmitGraph(g, skip, start);
            && |e.out| >= 2 && e.out[0] == ClusterOpen(start + 1) && e.out[|e.out| - 1] == Close
            && (forall k :: 0 < k < |e.out| - 1 ==> e.out[k].NodeDecl? || e.out[k].EdgeLine?)
  {
    var p := ClusterBody(g, skip, start);
    ClusterBodyInv(g, skip, start);
    assert forall k :: 0 <= k < |p.out| ==> (p.out + [Close])[k] == p.out[k];
  }

  /** The ids a cluster takes are `start + 1` for the cluster line and then
      those of its nodes, one after the other. */
  lemma EmitGraphIds(g: Graph, skip: seq<string>, start: nat, e: Pass)
    requires e == EmitGraph(g, skip, start)
    ensures TakesIdsAfter(e, start)
  {
    var p := ClusterBody(g, skip, start);
    ClusterBodyNumbered(g, skip, start, p);
    assert e.out == p.out + [Close] && e.last == p.last;
    NumberedAppend(p.out, Close, start + 1, p.last + 1);
  }

  lemma ClusterBodyNumbered(g: Graph, skip: seq<string>, start: nat, p: Pass)
    requires p == ClusterBody(g, skip, start)
    ensures start < p.last && Numbered(p.out, start + 1, p.last + 1)
  {
    ClusterBodyIds(g, skip, start, p);
    IdsNumbered(p.out, start + 1, p.last + 1);
  }

  lemma ClusterBodyIds(g: Graph, skip: seq<string>, start: nat, p: Pass)
    requires p == ClusterBody(g, skip, start)
    ensures start < p.last && Ids(p.out) == Range(start + 1, p.last + 1)
  {
    ClusterBodyInv(g, skip, start);
  }

  /** Lines whose ids are `Range(lo, hi)` are numbered from `lo` to `hi`. */
  lemma {:induction false} IdsNumbered(out: seq<DotLine>, lo: nat, hi: nat)
    requires lo <= hi && Ids(out) == Range(lo, hi)
    ensures Numbered(out, lo, hi)
    decreases |out|
  {
    if out != [] {
      var out', x := out[..|out| - 1], out[|out| - 1];
      if TakesId(x) {
        assert hi > lo;
        var ids := Ids(out);
        assert ids == Ids(out') + [IdOf(x)];
        assert ids == Range(lo, hi - 1) + [hi - 1];
        assert Ids(out') == ids[..|ids| - 1] == Range(lo, hi - 1);
        assert IdOf(x) == ids[|ids| - 1] == hi - 1;
        IdsNumbered(out', lo, hi - 1);
      } else {
        assert Ids(out) == Ids(out') + [];
        IdsNumbered(out', lo, hi);
      }
    }
  }

  /** Each name has at most one node line, whose id is the one registered
      for it, whose fill is `"none"` exactly when the name is an escaped
      target of the graph and `"grey"` otherwise; the names drawn are those
      of `RegisteredNames`. */
  lemma EmitGraphNodes(g: Graph, skip: seq<string>, start: nat)
    ensures var e := EmitGraph(g, skip, start);
            && DistinctNames(e.out)
            && (forall k :: 0 <= k < |e.out| && e.out[k].NodeDecl? ==>
                  && e.out[k].name in e.names && e.names[e.out[k].name] == e.out[k].id
                  && (e.out[k].fill == NoFill <==> e.out[k].name in EscapedKeys(g.entries))
                  && (e.out[k].fill == GreyFill <==> e.out[k].name !in EscapedKeys(g.entries)))
            && e.names.Keys == Labels(e.out) == RegisteredNames(g.entries, skip)
  {
    var parents := EscapedKeys(g.entries);
    var p := ClusterBody(g, skip, start);
    ClusterBodyInv(g, skip, start);
    AppendLast(p.out, Close);
    NodesAgreeAppend(p.out, p.names, p.names, parents, Close);
    DistinctAppend(p.out, p.names, parents, Close);
    var p0 := Pass(map[], start + 1, [ClusterOpen(start + 1)]);
    AppendLast([], ClusterOpen(start + 1));
    assert [] + [ClusterOpen(start + 1)] == [ClusterOpen(start + 1)];
    TargetsPassLabels(p0, parents, g.entries, skip);
  }

  /** Every printed edge has both ends declared before it, and the edges are
      exactly `ExpectedEdges`: one per prerequisite of each target that is
      not skipped, in order, between the registered nodes. */
  lemma EmitGraphEdges(g: Graph, skip: seq<string>, start: nat)
    ensures var e := EmitGraph(g, skip, start);
            && EdgesDeclared(e.out)
            && Edges(e.out) == ExpectedEdges(g.entries, skip, e.names)
  {
    var parents := EscapedKeys(g.entries);
    var p := ClusterBody(g, skip, start);
    ClusterBodyInv(g, skip, start);
    AppendLast(p.out, Close);
    EdgesDeclaredAppend(p.out, Close);
    var p0 := Pass(map[], start + 1, [ClusterOpen(start + 1)]);
    AppendLast([], ClusterOpen(start + 1));
    TargetsPassEdges(p0, parents, g.entries, skip);
  }

  lemma {:induction false} EscapedNamesMembers(deps: seq<string>, x: string)
    ensures x in EscapedNames(deps) <==> exists j :: 0 <= j < |deps| && x == Escape(deps[j])
    decreases |deps|
  {
    if deps != [] {
      EscapedNamesMembers(deps[1..], x);
      if x in EscapedNames(deps[1..]) {
        var j :| 0 <= j < |deps[1..]| && x == Escape(deps[1..][j]);
        assert x == Escape(deps[j + 1]);
      }
      if exists j :: 0 <= j < |deps| && x == Escape(deps[j]) {
        var j :| 0 <= j < |deps| && x == Escape(deps[j]);
        if j > 0 {
          assert x == Escape(deps[1..][j - 1]);
        }
      }
    }
  }

  /** A name is registered exactly when it is the escaped form of a target
      that is not skipped or of any prerequisite, skipped targets' included. */
  lemma {:induction false} RegisteredNamesMembers(entries: seq<Entry>, skip: seq<string>, x: string)
    ensures x in RegisteredNames(entries, skip) <==>
            exists k :: 0 <= k < |entries| &&
              ((entries[k].0 !in skip && x == Escape(entries[k].0)) || x in EscapedNames(entries[k].1))
    decreases |entries|
  {
    if entries != [] {
      RegisteredNamesMembers(entries[1..], skip, x);
      if x in RegisteredNames(entries[1..], skip) {
        var k :| 0 <= k < |entries[1..]| &&
          ((entries[1..][k].0 !in skip && x == Escape(entries[1..][k].0)) || x in EscapedNames(entries[1..][k].1));
        assert entries[1..][k] == entries[k + 1];
      }
      if exists k :: 0 <= k < |entries| &&
           ((entries[k].0 !in skip && x == Escape(entries[k].0)) || x in EscapedNames(entries[k].1)) {
        var k :| 0 <= k < |entries| &&
          ((entries[k].0 !in skip && x == Escape(entries[k].0)) || x in EscapedNames(entries[k].1));
        if k > 0 {
          assert entries[1..][k - 1] == entries[k];
        }
      }
    }
  }

  /** Each graph `emit` prints takes the ids after the counter,
      consecutively and in output order. */
  ghost predicate EmitsNumbered(emit: (Graph, nat) -> Pass) {
    forall g, s: nat :: TakesIdsAfter(emit(g, s), s)
  }

  /** When each graph takes the ids after the counter, consecutively and
      in output order, so does the whole loop. */
  lemma {:induction false} GraphsLoopIds(graphs: seq<Graph>, start: nat, acc: seq<DotLine>, lo: nat,
                                         emit: (Graph, nat) -> Pass, r: (seq<DotLine>, nat))
    requires EmitsNumbered(emit)
    requires Numbered(acc, lo, start + 1)
    requires r == GraphsLoop(graphs, start, acc, emit)
    ensures start <= r.1 && Numbered(r.0, lo, r.1 + 1)
    decreases |graphs|
  {
    if graphs != [] {
      var e := emit(graphs[0], start);
      NumberedConcat(acc, e.out, lo, start + 1, e.last + 1);
      GraphsLoopIds(graphs[1..], e.last, acc + e.out, lo, emit, r);
    }
  }

  /** The graphs loop of `main` takes further ids consecutively in output order. */
  lemma GraphsFromIds(graphs: seq<Graph>, start: nat, acc: seq<DotLine>, lo: nat, r: (seq<DotLine>, nat))
    requires Numbered(acc, lo, start + 1)
    requires r == GraphsFrom(graphs, start, acc)
    ensures start <= r.1 && Numbered(r.0, lo, r.1 + 1)
  {
    MainEmitNumbered();
    GraphsLoopIds(graphs, start, acc, lo, MainEmit, r);
  }

  lemma MainEmitNumbered()
    ensures EmitsNumbered(MainEmit)
  {
    forall g, s: nat ensures TakesIdsAfter(MainEmit(g, s), s) {
    }
  }

  /** One counter serves the whole run: the cluster and node ids printed
      are 1, 2, 3, ... in output order, so no two are equal and each is
      larger than those before it. The output opens with the preamble and
      ends with the brace closing the digraph. */
  lemma DocumentIds(graphs: seq<Graph>)
    ensures var doc := Document(graphs);
            && doc[0] == Header && doc[|doc| - 1] == Close
            && Ids(doc) == Range(1, |Ids(doc)| + 1)
            && (forall a, b :: 0 <= a < b < |Ids(doc)| ==> Ids(doc)[a] < Ids(doc)[b])
  {
    var r := GraphsFrom(graphs, 0, [Header]);
    DocumentNumbered(graphs, r);
    NumberedIncreasing(r.0 + [Close], 1, r.1 + 1);
  }

  lemma DocumentNumbered(graphs: seq<Graph>, r: (seq<DotLine>, nat))
    requires r == GraphsFrom(graphs, 0, [Header])
    ensures Numbered(r.0 + [Close], 1, r.1 + 1)
    ensures (r.0 + [Close])[0] == Header
  {
    assert Numbered([Header], 1, 1) by {
      assert [Header][..0] == [];
    }
    GraphsFromIds(graphs, 0, [Header], 1, r);
    GraphsLoopHeader(graphs, 0, [Header], MainEmit);
    NumberedAppend(r.0, Close, 1, r.1 + 1);
  }

  /** Numbered lines take `lo, ..., hi - 1` in increasing order. */
  lemma NumberedIncreasing(out: seq<DotLine>, lo: nat, hi: nat)
    requires Numbered(out, lo, hi)
    ensures Ids(out) == Range(lo, lo + |Ids(out)|) && lo + |Ids(out)| == hi
    ensures forall a, b :: 0 <= a < b < |Ids(out)| ==> Ids(out)[a] < Ids(out)[b]
  {
    NumberedIds(out, lo, hi);
    forall a, b | 0 <= a < b < |Ids(out)| ensures Ids(out)[a] < Ids(out)[b] {
      RangeAt(lo, hi, a);
      RangeAt(lo, hi, b);
    }
  }

  /** The loop only appends to the lines printed before it. */
  lemma {:induction false} GraphsLoopHeader(graphs: seq<Graph>, start: nat, acc: seq<DotLine>, emit: (Graph, nat) -> Pass)
    requires |acc| > 0
    ensures |GraphsLoop(graphs, start, acc, emit).0| > 0 && GraphsLoop(graphs, start, acc, emit).0[0] == acc[0]
    decreases |graphs|
  {
    if graphs != [] {
      var e := emit(graphs[0], start);
      GraphsLoopHeader(graphs[1..], e.last, acc + e.out, emit);
    }
  }

  // ---------------------------------------------------------------------
  // The source's loops

  method RegisterNode(names: map<string, nat>, out: seq<DotLine>, name: string, i: Id, fill: string)
    returns (names': map<string, nat>, out': seq<DotLine>)
    modifies i
    ensures Pass(names', i.current, out') == Register(Pass(names, old(i.current), out), name, fill)
  {
    names', out' := names, out;
    if name !in names {
      var id := i.Next();
      names' := names[name := id];
      out' := out + [NodeDecl(id, name, fill)];
    }
  }

  /** The `for dep in deps` loop of `print_single_graph`; `from` is the
      target's node when the target is not skipped. */
  method PrintDeps(names: map<string, nat>, out: seq<DotLine>, deps: seq<string>, parents: seq<string>,
                   from: Option<nat>, i: Id)
    returns (names': map<string, nat>, out': seq<DotLine>)
    modifies i
    ensures Pass(names', i.current, out') == DepsPass(Pass(names, old(i.current), out), deps, parents, from)
  {
    names', out' := names, out;
    var j := 0;
    while j < |deps|
      invariant 0 <= j <= |deps|
      invariant DepsPass(Pass(names', i.current, out'), deps[j..], parents, from)
                == DepsPass(Pass(names, old(i.current), out), deps, parents, from)
    {
      assert deps[j..][1..] == deps[j + 1..];
      var depStr := Escape(deps[j]);
      if depStr in parents {
        names', out' := RegisterNode(names', out', depStr, i, NoFill);
      } else {
        names', out' := RegisterNode(names', out', depStr, i, GreyFill);
      }
      if from.Some? {
        out' := out' + [EdgeLine(from.value, names'[depStr])];
      }
      j := j + 1;
    }
  }

  /** The `parents` list of `print_single_graph`: each target, escaped, in
      the graph's order. */
  method EscapeTargets(entries: seq<Entry>) returns (parents: seq<string>)
    ensures parents == EscapedKeys(entries)
  {
    parents := [];
    var k := 0;
    while k < |entries|
      invariant 0 <= k <= |entries|
      invariant parents == EscapedKeys(entries[..k])
    {
      assert entries[..k + 1][..k] == entries[..k];
      parents := parents + [Escape(entries[k].0)];
      k := k + 1;
    }
    assert entries[..k] == entries;
  }

  method PrintSingleGraph(graph: Graph, i: Id, skiptargets: Option<seq<string>>) returns (out: seq<DotLine>)
    modifies i
    ensures var skip := if skiptargets.None? then [] else skiptargets.value;
            var e := EmitGraph(graph, skip, old(i.current));
            out == e.out && i.current == e.last
  {
    var cluster := i.Next();
    var parents := EscapeTargets(graph.entries);
    var skip := if skiptargets.None? then [] else skiptargets.value;
    var names;
    names, out := PrintTargets(map[], [ClusterOpen(cluster)], graph.entries, skip, parents, i);
    out := out + [Close];
  }

  /** The `for target, deps in graph.items()` loop of `print_single_graph`. */
  method PrintTargets(names: map<string, nat>, out: seq<DotLine>, entries: seq<Entry>, skip: seq<string>,
                      parents: seq<string>, i: Id)
    returns (names': map<string, nat>, out': seq<DotLine>)
    modifies i
    ensures Pass(names', i.current, out') == TargetsPass(Pass(names, old(i.current), out), entries, skip, parents)
  {
    names', out' := names, out;
    var k := 0;
    while k < |entries|
      invariant 0 <= k <= |entries|
      invariant TargetsPass(Pass(names', i.current, out'), entries[k..], skip, parents)
                == TargetsPass(Pass(names, old(i.current), out), entries, skip, parents)
    {
      ghost var here := Pass(names', i.current, out');
      var (target, deps) := entries[k];
      assert entries[k..][1..] == entries[k + 1..];
      var from: Option<nat> := None;
      if target !in skip {
        var targetStr := Escape(target);
        names', out' := RegisterNode(names', out', targetStr, i, NoFill);
        from := Some(names'[targetStr]);
      }
      ghost var before := Pass(names', i.current, out');
      names', out' := PrintDeps(names', out', deps, parents, from, i);
      assert Pass(names', i.current, out') == DepsPass(before, deps, parents, from);
      assert Pass(names', i.current, out') == TargetStep(here, entries[k], skip, parents);
      k := k + 1;
    }
  }

  /** `main`: one counter for the whole run, the skip list, and one cluster
      per graph between the preamble and the final brace. */
  method PrintGraphs(graphs: seq<Graph>) returns (out: seq<DotLine>)
    ensures out == Document(graphs)
  {
    out := [Header];
    var i := new Id();
    var skiptargets := SkipTargets;
    var k := 0;
    while k < |graphs|
      invariant 0 <= k <= |graphs|
      invariant GraphsFrom(graphs[k..], i.current, out) == GraphsFrom(graphs, 0, [Header])
    {
      assert graphs[k..][1..] == graphs[k + 1..];
      var lines := PrintSingleGraph(graphs[k], i, Some(skiptargets));
      out := out + lines;
      k := k + 1;
    }
    out := out + [Close];
  }
}

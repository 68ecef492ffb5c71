/** A dependency graph as the Python code holds it: a dict from target
    name to its list of prerequisites, which keeps the order in which
    targets were first inserted. */
module DepGraph {
  import opened Wrappers
  import opened Text

  type Entry = (string, seq<string>)

  datatype Graph = Graph(entries: seq<Entry>)

  const EmptyGraph := Graph([])

  /** The targets, in insertion order (`graph.keys()`). */
  function Keys(g: Graph): (r: seq<string>)
    ensures |r| == |g.entries|
    ensures forall i :: 0 <= i < |r| ==> r[i] == g.entries[i].0
    decreases |g.entries|
  {
    if g.entries == [] then [] else [g.entries[0].0] + Keys(Graph(g.entries[1..]))
  }

  /** Dict keys are unique. */
  predicate UniqueKeys(g: Graph)
    decreases |g.entries|
  {
    g.entries == [] || (g.entries[0].0 !in Keys(Graph(g.entries[1..])) && UniqueKeys(Graph(g.entries[1..])))
  }

  /** `graph.get(k)`. */
  function Lookup(g: Graph, k: string): (r: Option<seq<string>>)
    ensures r.None? <==> k !in Keys(g)
    decreases |g.entries|
  {
    if g.entries == [] then None
    else if g.entries[0].0 == k then Some(g.entries[0].1)
    else Lookup(Graph(g.entries[1..]), k)
  }

  /** `graph[k] = v`: a new key goes to the end, an existing key keeps its
      place and gets the new value. */
  function Put(g: Graph, k: string, v: seq<string>): Graph
    decreases |g.entries|
  {
    if g.entries == [] then Graph([(k, v)])
    else if g.entries[0].0 == k then Graph([(k, v)] + g.entries[1..])
    else Graph([g.entries[0]] + Put(Graph(g.entries[1..]), k, v).entries)
  }

  /** `graph[k] = v` appends a new key and leaves the order of the others alone. */
  lemma {:induction false} PutKeys(g: Graph, k: string, v: seq<string>)
    ensures Keys(Put(g, k, v)) == if k in Keys(g) then Keys(g) else Keys(g) + [k]
    decreases |g.entries|
  {
    if g.entries != [] {
      var r := Put(g, k, v);
      if g.entries[0].0 == k {
        assert r.entries[1..] == g.entries[1..];
      } else {
        var rest := Graph(g.entries[1..]);
        assert r.entries[1..] == Put(rest, k, v).entries;
        PutKeys(rest, k, v);
        assert Keys(g) == [g.entries[0].0] + Keys(rest);
      }
    }
  }

  /** After `graph[k] = v`, looking `k` up gives `v` and every other key
      gives what it gave before. */
  lemma {:induction false} PutLookup(g: Graph, k: string, v: seq<string>, k': string)
    ensures Lookup(Put(g, k, v), k') == if k' == k then Some(v) else Lookup(g, k')
    decreases |g.entries|
  {
    if g.entries != [] && g.entries[0].0 != k {
      var r := Put(g, k, v);
      assert r.entries[1..] == Put(Graph(g.entries[1..]), k, v).entries;
      PutLookup(Graph(g.entries[1..]), k, v, k');
    }
  }

  /** `graph[k] = v` keeps the keys unique. */
  lemma {:induction false} PutUnique(g: Graph, k: string, v: seq<string>)
    ensures UniqueKeys(g) ==> UniqueKeys(Put(g, k, v))
    decreases |g.entries|
  {
    if g.entries != [] && g.entries[0].0 != k {
      var r := Put(g, k, v);
      assert r.entries[1..] == Put(Graph(g.entries[1..]), k, v).entries;
      PutKeys(Graph(g.entries[1..]), k, v);
      PutUnique(Graph(g.entries[1..]), k, v);
    } else if g.entries != [] {
      assert Put(g, k, v).entries[1..] == g.entries[1..];
    }
  }

  /** Writing the same key twice keeps only the second value, at the
      place of the first. */
  lemma PutTwice(g: Graph, k: string, v1: seq<string>, v2: seq<string>)
    ensures Lookup(Put(Put(g, k, v1), k, v2), k) == Some(v2)
    ensures Keys(Put(Put(g, k, v1), k, v2)) == Keys(Put(g, k, v1))
  {
    PutLookup(Put(g, k, v1), k, v2, k);
    PutKeys(g, k, v1);
    PutKeys(Put(g, k, v1), k, v2);
  }
}

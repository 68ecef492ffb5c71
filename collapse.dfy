/** The prefix collapser: it walks a decoded JSON value and, in every list,
    rewrites each string that starts with one of the configured prefixes to
    `prefix + ".."`, drops the duplicates this creates, and moves the
    strings in front of the other elements. */
module Collapse {
  import opened Text

  /** A value as `json.load` returns it. An object keeps its members in
      insertion order, as a Python dict does. */
  datatype Json =
    | JNull
    | JBool(b: bool)
    | JInt(i: int)
    | JReal(r: real)
    | JStr(s: string)
    | JList(items: seq<Json>)
    | JObj(members: seq<(string, Json)>)

  /** The value of `--prefixes` when it is not given. */
  const DefaultPrefixes: seq<string> := ["src/"]

  /** What a collapsed string ends with (`replace=".."`). */
  const Replace: string := ".."

  // ---------------------------------------------------------------------
  // get_strings and get_others
  // ---------------------------------------------------------------------

  /** The strings of a list, in order. */
  function GetStrings(items: seq<Json>): seq<string>
    decreases |items|
  {
    if items == [] then []
    else (if items[0].JStr? then [items[0].s] else []) + GetStrings(items[1..])
  }

  /** The elements of a list that are not strings, in order. */
  function GetOthers(items: seq<Json>): (r: seq<Json>)
    ensures forall x :: x in r ==> x in items && !x.JStr?
    decreases |items|
  {
    if items == [] then []
    else (if items[0].JStr? then [] else [items[0]]) + GetOthers(items[1..])
  }

  /** Strings as list elements. */
  function Strs(ss: seq<string>): seq<Json> {
    seq(|ss|, i requires 0 <= i < |ss| => JStr(ss[i]))
  }

  /** The two lists split the input: every element lands in exactly one of
      them, so their lengths add up to the input's. */
  lemma {:induction false} Partition(items: seq<Json>)
    ensures |GetStrings(items)| + |GetOthers(items)| == |items|
    ensures forall s :: s in GetStrings(items) <==> JStr(s) in items
    ensures forall x :: x in GetOthers(items) <==> x in items && !x.JStr?
    decreases |items|
  {
    if items != [] {
      Partition(items[1..]);
      assert items == [items[0]] + items[1..];
    }
  }

  /** Both keep the order of the input: they distribute over concatenation. */
  lemma {:induction false} PartitionAppend(a: seq<Json>, b: seq<Json>)
    ensures GetStrings(a + b) == GetStrings(a) + GetStrings(b)
    ensures GetOthers(a + b) == GetOthers(a) + GetOthers(b)
    decreases |a|
  {
    if a != [] {
      var h := a[0];
      assert (a + b)[0] == h;
      assert (a + b)[1..] == a[1..] + b;
      PartitionAppend(a[1..], b);
      assert GetStrings(a + b) == (if h.JStr? then [h.s] else []) + (GetStrings(a[1..]) + GetStrings(b));
      assert GetOthers(a + b) == (if h.JStr? then [] else [h]) + (GetOthers(a[1..]) + GetOthers(b));
    } else {
      assert a + b == b;
    }
  }

  /** A list of strings followed by non-strings splits back into those two parts. */
  lemma {:induction false} PartitionOfJoined(ss: seq<string>, others: seq<Json>)
    requires forall k :: 0 <= k < |others| ==> !others[k].JStr?
    ensures GetStrings(Strs(ss) + others) == ss
    ensures GetOthers(Strs(ss) + others) == others
  {
    PartitionAppend(Strs(ss), others);
    StrsSplit(ss);
    NonStringsSplit(others);
  }

  lemma {:induction false} StrsSplit(ss: seq<string>)
    ensures GetStrings(Strs(ss)) == ss && GetOthers(Strs(ss)) == []
    decreases |ss|
  {
    if ss != [] {
      assert Strs(ss)[1..] == Strs(ss[1..]);
      StrsSplit(ss[1..]);
      assert ss == [ss[0]] + ss[1..];
    }
  }

  lemma NonStringsSplit(others: seq<Json>)
    requires forall k :: 0 <= k < |others| ==> !others[k].JStr?
    ensures GetStrings(others) == [] && GetOthers(others) == others
  {
    NoStringsIn(others);
    AllOthers(others);
  }

  lemma {:induction false} NoStringsIn(others: seq<Json>)
    requires forall k :: 0 <= k < |others| ==> !others[k].JStr?
    ensures GetStrings(others) == []
    decreases |others|
  {
    if others != [] {
      var t := others[1..];
      assert forall k :: 0 <= k < |t| ==> !t[k].JStr?;
      NoStringsIn(t);
    }
  }

  lemma {:induction false} AllOthers(others: seq<Json>)
    requires forall k :: 0 <= k < |others| ==> !others[k].JStr?
    ensures GetOthers(others) == others
    decreases |others|
  {
    if others != [] {
      var t := others[1..];
      assert forall k :: 0 <= k < |t| ==> !t[k].JStr?;
      AllOthers(t);
      assert others == [others[0]] + t;
    }
  }

  // ---------------------------------------------------------------------
  // unique
  // ---------------------------------------------------------------------

  /** No element occurs twice. */
  predicate NoDup<T(==)>(s: seq<T>) {
    forall i, j :: 0 <= i < j < |s| ==> s[i] != s[j]
  }

  /** The elements of `s` in the order of their first occurrence, each once. */
  function Dedup<T(==)>(s: seq<T>): seq<T>
    decreases |s|
  {
    if s == [] then []
    else
      var d := Dedup(s[..|s| - 1]);
      if s[|s| - 1] in d then d else d + [s[|s| - 1]]
  }

  /** The position of the first occurrence of `x` in `s`. */
  function FirstIndex<T(==)>(s: seq<T>, x: T): (r: nat)
    requires x in s
    ensures r < |s| && s[r] == x && x !in s[..r]
  {
    if s[0] == x then 0
    else
      var r := 1 + FirstIndex(s[1..], x);
      assert s[..r] == [s[0]] + s[1..][..r - 1];
      r
  }

  /** Deduplicating keeps exactly the elements of the input, and never
      makes a list longer. */
  lemma {:induction false} DedupElements<T>(s: seq<T>)
    ensures forall x :: x in Dedup(s) <==> x in s
    ensures |Dedup(s)| <= |s|
    decreases |s|
  {
    if s != [] {
      DedupElements(s[..|s| - 1]);
      assert s == s[..|s| - 1] + [s[|s| - 1]];
    }
  }

  /** No element is kept twice. */
  lemma {:induction false} DedupNoDup<T>(s: seq<T>)
    ensures NoDup(Dedup(s))
    decreases |s|
  {
    if s != [] {
      DedupNoDup(s[..|s| - 1]);
    }
  }

  /** The kept elements come in the order of their first occurrence. */
  lemma {:induction false} DedupOrder<T>(s: seq<T>)
    ensures forall x :: x in Dedup(s) ==> x in s
    ensures forall i, j :: 0 <= i < j < |Dedup(s)| ==> FirstIndex(s, Dedup(s)[i]) < FirstIndex(s, Dedup(s)[j])
    decreases |s|
  {
    DedupElements(s);
    if s != [] {
      var init, y := s[..|s| - 1], s[|s| - 1];
      var d := Dedup(init);
      DedupOrder(init);
      DedupElements(init);
      assert s == init + [y];
      forall x | x in init ensures FirstIndex(s, x) == FirstIndex(init, x) {
        FirstIndexAppend(init, y, x);
      }
      if y !in d {
        assert FirstIndex(s, y) == |init|;
      }
    }
  }

  lemma FirstIndexAppend<T>(s: seq<T>, y: T, x: T)
    requires x in s
    ensures FirstIndex(s + [y], x) == FirstIndex(s, x)
  {
    var i, k := FirstIndex(s, x), FirstIndex(s + [y], x);
    assert (s + [y])[i] == x;
    assert forall m :: 0 <= m < k ==> (s + [y])[..k][m] == (s + [y])[m] != x;
    assert forall m :: 0 <= m < i ==> s[..i][m] == s[m] != x;
  }

  /** A list without duplicates is its own deduplication. */
  lemma {:induction false} DedupOfNoDup<T>(s: seq<T>)
    requires NoDup(s)
    ensures Dedup(s) == s
    decreases |s|
  {
    if s != [] {
      var init := s[..|s| - 1];
      DedupOfNoDup(init);
      assert s[|s| - 1] !in init;
      assert s == init + [s[|s| - 1]];
    }
  }

  /** `unique(items)`: one pass with a `seen` set. */
  method Unique<T(==)>(items: seq<T>) returns (result: seq<T>)
    ensures result == Dedup(items)
  {
    var seen: set<T> := {};
    result := [];
    for k := 0 to |items|
      invariant result == Dedup(items[..k])
      invariant forall x :: x in seen <==> x in items[..k]
    {
      var x := items[k];
      assert items[..k + 1][..k] == items[..k];
      DedupElements(items[..k]);
      if x !in seen {
        result := result + [x];
      }
      seen := seen + {x};
      assert items[..k + 1] == items[..k] + [x];
    }
    assert items[..|items|] == items;
  }

  // ---------------------------------------------------------------------
  // collapse_strings
  // ---------------------------------------------------------------------

  /** What the inner loop of `collapse_strings` makes of one item: the first
      prefix it starts with, followed by `replace`, or the item itself. */
  function CollapseOne(item: string, prefixes: seq<string>, replace: string): string
    decreases |prefixes|
  {
    if prefixes == [] then item
    else if StartsWith(item, prefixes[0]) then prefixes[0] + replace
    else CollapseOne(item, prefixes[1..], replace)
  }

  /** Every item rewritten, in order. */
  function Rewrite(items: seq<string>, prefixes: seq<string>, replace: string): seq<string> {
    seq(|items|, i requires 0 <= i < |items| => CollapseOne(items[i], prefixes, replace))
  }

  /** `collapse_strings(items, prefixes, replace)`. */
  function Collapsed(items: seq<string>, prefixes: seq<string>, replace: string): seq<string> {
    Dedup(Rewrite(items, prefixes, replace))
  }

  /** An item that starts with no prefix is left alone. */
  lemma {:induction false} CollapseOneNoMatch(item: string, prefixes: seq<string>, replace: string)
    requires forall j :: 0 <= j < |prefixes| ==> !StartsWith(item, prefixes[j])
    ensures CollapseOne(item, prefixes, replace) == item
    decreases |prefixes|
  {
    if prefixes != [] {
      assert !StartsWith(item, prefixes[0]);
      assert forall j :: 0 <= j < |prefixes| - 1 ==> prefixes[1..][j] == prefixes[j + 1];
      CollapseOneNoMatch(item, prefixes[1..], replace);
    }
  }

  /** Otherwise the FIRST prefix it starts with decides what it becomes. */
  lemma {:induction false} CollapseOneFirstMatch(item: string, prefixes: seq<string>, replace: string, i: nat)
    requires i < |prefixes| && StartsWith(item, prefixes[i])
    requires forall j :: 0 <= j < i ==> !StartsWith(item, prefixes[j])
    ensures CollapseOne(item, prefixes, replace) == prefixes[i] + replace
    decreases i
  {
    if i > 0 {
      assert !StartsWith(item, prefixes[0]);
      assert forall j :: 0 <= j < i - 1 ==> prefixes[1..][j] == prefixes[j + 1];
      CollapseOneFirstMatch(item, prefixes[1..], replace, i - 1);
    }
  }

  /** So the result is the item or one of the prefixes followed by `replace`. */
  lemma {:induction false} CollapseOneImage(item: string, prefixes: seq<string>, replace: string)
    ensures var r := CollapseOne(item, prefixes, replace);
            r == item || exists i :: 0 <= i < |prefixes| && r == prefixes[i] + replace
    decreases |prefixes|
  {
    if prefixes != [] && !StartsWith(item, prefixes[0]) {
      CollapseOneImage(item, prefixes[1..], replace);
      var r := CollapseOne(item, prefixes, replace);
      if r != item {
        var i :| 0 <= i < |prefixes| - 1 && r == prefixes[1..][i] + replace;
        assert r == prefixes[i + 1] + replace;
      }
    }
  }

  /** The inner loop of `collapse_strings`, with its `break`. */
  method CollapseItem(item: string, prefixes: seq<string>, replace: string) returns (result: string)
    ensures result == CollapseOne(item, prefixes, replace)
  {
    result := item;
    var m := 0;
    while m < |prefixes|
      invariant 0 <= m <= |prefixes|
      invariant CollapseOne(item, prefixes[m..], replace) == CollapseOne(item, prefixes, replace)
      invariant result == item
    {
      if StartsWith(item, prefixes[m]) {
        result := prefixes[m] + replace;
        break;
      }
      assert prefixes[m..][1..] == prefixes[m + 1..];
      m := m + 1;
    }
  }

  /** `collapse_strings(items, prefixes, replace)`: rewrite every item, then `unique`. */
  method CollapseStrings(items: seq<string>, prefixes: seq<string>, replace: string) returns (r: seq<string>)
    ensures r == Collapsed(items, prefixes, replace)
  {
    var results := [];
    for k := 0 to |items|
      invariant results == Rewrite(items[..k], prefixes, replace)
    {
      var result := CollapseItem(items[k], prefixes, replace);
      results := results + [result];
    }
    assert items[..|items|] == items;
    r := Unique(results);
  }

  /** The collapsed list holds no duplicates, one rewritten form per item,
      in the order in which the forms first appear, and is never longer
      than its input. */
  lemma CollapsedFacts(items: seq<string>, prefixes: seq<string>, replace: string)
    ensures var r := Collapsed(items, prefixes, replace);
            && NoDup(r)
            && |r| <= |items|
            && (forall x :: x in r <==> exists i :: 0 <= i < |items| && x == CollapseOne(items[i], prefixes, replace))
  {
    var rw := Rewrite(items, prefixes, replace);
    DedupNoDup(rw);
    DedupElements(rw);
    forall x ensures x in rw <==> exists i :: 0 <= i < |items| && x == CollapseOne(items[i], prefixes, replace) {
      if x in rw {
        var i :| 0 <= i < |rw| && rw[i] == x;
        assert x == CollapseOne(items[i], prefixes, replace);
      }
      if exists i :: 0 <= i < |items| && x == CollapseOne(items[i], prefixes, replace) {
        var i :| 0 <= i < |items| && x == CollapseOne(items[i], prefixes, replace);
        assert rw[i] == x;
      }
    }
  }

  /** Two sources under `src/` become the one placeholder `src/..`, and the
      file outside the prefix is kept after it. */
  lemma CollapsedExample()
    ensures Collapsed(["src/a.c", "src/b.c", "lib/x.c"], DefaultPrefixes, Replace) == ["src/..", "lib/x.c"]
  {
    var items := ["src/a.c", "src/b.c", "lib/x.c"];
    assert StartsWith(items[0], "src/") && StartsWith(items[1], "src/");
    assert !StartsWith(items[2], "src/") by {
      assert items[2][..4][0] == 'l';
    }
    assert DefaultPrefixes[1..] == [];
    assert CollapseOne(items[0], DefaultPrefixes, Replace) == "src/..";
    assert CollapseOne(items[1], DefaultPrefixes, Replace) == "src/..";
    assert CollapseOne(items[2], DefaultPrefixes, Replace) == "lib/x.c";
    var rw := Rewrite(items, DefaultPrefixes, Replace);
    assert rw == ["src/..", "src/..", "lib/x.c"];
    assert rw[..1] == ["src/.."] && rw[..2] == ["src/..", "src/.."];
    assert Dedup(rw[..1]) == ["src/.."] by {
      assert rw[..1][..0] == [];
    }
    assert Dedup(rw[..2]) == ["src/.."] by {
      assert rw[..2][..1] == rw[..1];
    }
    assert "lib/x.c" != "src/.." by {
      assert "lib/x.c"[0] != "src/.."[0];
    }
    assert rw[..3][..2] == rw[..2];
  }

  // ---------------------------------------------------------------------
  // filter_paths
  // ---------------------------------------------------------------------

  /** `filter_paths(obj, prefixes)`. */
  function FilterPaths(j: Json, prefixes: seq<string>): Json
    decreases j
  {
    match j
    case JList(items) =>
      var strings := GetStrings(items);
      var others := GetOthers(items);
      var strings' := if strings != [] then Collapsed(strings, prefixes, Replace) else strings;
      JList(Strs(strings') + seq(|others|, i requires 0 <= i < |others| =>
        assert others[i] in others && others[i] in items;
        FilterPaths(others[i], prefixes)))
    case JObj(members) =>
      JObj(seq(|members|, i requires 0 <= i < |members| => (members[i].0, FilterPaths(members[i].1, prefixes))))
    case _ => j
  }

  /** The keys of an object's members, in order. */
  function MemberKeys(members: seq<(string, Json)>): seq<string> {
    seq(|members|, i requires 0 <= i < |members| => members[i].0)
  }

  /** Filtering keeps the kind of every value, and leaves every value other
      than a list or an object as it is: a string outside a list is not
      collapsed. */
  lemma FilterKind(j: Json, prefixes: seq<string>)
    ensures var r := FilterPaths(j, prefixes);
            && (r.JList? <==> j.JList?) && (r.JObj? <==> j.JObj?)
            && (!j.JList? && !j.JObj? ==> r == j)
  {
  }

  /** On a list, the strings come first and then the other elements: the
      strings are the collapsed strings of the input, the others are the
      input's non-strings filtered one by one, and the list does not grow. */
  lemma FilterList(items: seq<Json>, prefixes: seq<string>)
    ensures var r := FilterPaths(JList(items), prefixes);
            && r.JList?
            && |r.items| <= |items|
            && (forall a, b :: 0 <= a < b < |r.items| && !r.items[a].JStr? ==> !r.items[b].JStr?)
            && GetStrings(r.items) == (if GetStrings(items) == [] then [] else Collapsed(GetStrings(items), prefixes, Replace))
            && |GetOthers(r.items)| == |GetOthers(items)|
            && (forall k :: 0 <= k < |GetOthers(items)| ==> GetOthers(r.items)[k] == FilterPaths(GetOthers(items)[k], prefixes))
  {
    var strings, others := GetStrings(items), GetOthers(items);
    var strings' := if strings != [] then Collapsed(strings, prefixes, Replace) else strings;
    var others' := seq(|others|, i requires 0 <= i < |others| => FilterPaths(others[i], prefixes));
    var r := FilterPaths(JList(items), prefixes);
    assert r.items == Strs(strings') + others';
    Partition(items);
    if strings != [] {
      CollapsedFacts(strings, prefixes, Replace);
    }
    forall k | 0 <= k < |others'| ensures !others'[k].JStr? {
      FilterKind(others[k], prefixes);
    }
    PartitionOfJoined(strings', others');
  }

  /** On an object, the keys stay the same and in the same order, and each
      value is filtered. */
  lemma FilterObject(members: seq<(string, Json)>, prefixes: seq<string>)
    ensures var r := FilterPaths(JObj(members), prefixes);
            && r.JObj?
            && MemberKeys(r.members) == MemberKeys(members)
            && (forall k :: 0 <= k < |members| ==> r.members[k].1 == FilterPaths(members[k].1, prefixes))
  {
  }

  // ---------------------------------------------------------------------
  // Idempotence
  // ---------------------------------------------------------------------

  /** The prefixes under which a collapsed string collapses to itself: no
      earlier prefix is a prefix of a later prefix followed by "..". */
  predicate Stable(prefixes: seq<string>) {
    forall i :: 0 <= i < |prefixes| ==> CollapseOne(prefixes[i] + Replace, prefixes, Replace) == prefixes[i] + Replace
  }

  /** A single prefix is always stable, so the default one is. */
  lemma SinglePrefixStable(p: string)
    ensures Stable([p])
  {
    assert (p + Replace)[..|p|] == p;
  }

  /** Under stable prefixes, collapsing a collapsed string changes nothing. */
  lemma CollapseOneTwice(item: string, prefixes: seq<string>)
    requires Stable(prefixes)
    ensures CollapseOne(CollapseOne(item, prefixes, Replace), prefixes, Replace) == CollapseOne(item, prefixes, Replace)
  {
    CollapseOneImage(item, prefixes, Replace);
  }

  /** Under stable prefixes, a collapsed list collapses to itself. */
  lemma CollapsedTwice(items: seq<string>, prefixes: seq<string>)
    requires Stable(prefixes)
    ensures var c := Collapsed(items, prefixes, Replace);
            Collapsed(c, prefixes, Replace) == c
  {
    var c := Collapsed(items, prefixes, Replace);
    CollapsedFacts(items, prefixes, Replace);
    var rw := Rewrite(c, prefixes, Replace);
    forall k | 0 <= k < |c| ensures rw[k] == c[k] {
      assert c[k] in c;
      var i :| 0 <= i < |items| && c[k] == CollapseOne(items[i], prefixes, Replace);
      CollapseOneTwice(items[i], prefixes);
    }
    assert rw == c;
    DedupOfNoDup(c);
  }

  /** With stable prefixes, `filter_paths` is idempotent. */
  lemma {:induction false} FilterIdempotent(j: Json, prefixes: seq<string>)
    requires Stable(prefixes)
    ensures FilterPaths(FilterPaths(j, prefixes), prefixes) == FilterPaths(j, prefixes)
    decreases j
  {
    match j
    case JList(items) =>
      var others := GetOthers(items);
      forall k | 0 <= k < |others|
        ensures FilterPaths(FilterPaths(others[k], prefixes), prefixes) == FilterPaths(others[k], prefixes)
      {
        assert others[k] in others;
        FilterIdempotent(others[k], prefixes);
      }
      ListFixpoint(items, prefixes);
    case JObj(members) =>
      forall k | 0 <= k < |members|
        ensures FilterPaths(FilterPaths(members[k].1, prefixes), prefixes) == FilterPaths(members[k].1, prefixes)
      {
        FilterIdempotent(members[k].1, prefixes);
      }
      ObjectFixpoint(members, prefixes);
    case _ =>
  }

  /** The list step of `FilterIdempotent`, given idempotence on the
      non-string items. */
  lemma ListFixpoint(items: seq<Json>, prefixes: seq<string>)
    requires Stable(prefixes)
    requires forall k :: 0 <= k < |GetOthers(items)| ==>
      FilterPaths(FilterPaths(GetOthers(items)[k], prefixes), prefixes) == FilterPaths(GetOthers(items)[k], prefixes)
    ensures FilterPaths(FilterPaths(JList(items), prefixes), prefixes) == FilterPaths(JList(items), prefixes)
  {
    var strings, others := GetStrings(items), GetOthers(items);
    var strings' := if strings != [] then Collapsed(strings, prefixes, Replace) else strings;
    var others' := seq(|others|, i requires 0 <= i < |others| => FilterPaths(others[i], prefixes));
    var r := FilterPaths(JList(items), prefixes);
    assert r.items == Strs(strings') + others';
    forall k | 0 <= k < |others'| ensures !others'[k].JStr? && FilterPaths(others'[k], prefixes) == others'[k] {
      FilterKind(others[k], prefixes);
    }
    if strings != [] {
      CollapsedTwice(strings, prefixes);
    }
    JoinedFixpoint(strings', others', prefixes);
  }

  /** A list of strings that collapse to themselves, followed by non-string
      items that filtering leaves unchanged, is left unchanged. */
  lemma JoinedFixpoint(ss: seq<string>, others: seq<Json>, prefixes: seq<string>)
    requires ss != [] ==> Collapsed(ss, prefixes, Replace) == ss
    requires forall k :: 0 <= k < |others| ==> !others[k].JStr? && FilterPaths(others[k], prefixes) == others[k]
    ensures FilterPaths(JList(Strs(ss) + others), prefixes) == JList(Strs(ss) + others)
  {
    var items := Strs(ss) + others;
    PartitionOfJoined(ss, others);
    var strings' := if ss != [] then Collapsed(ss, prefixes, Replace) else ss;
    assert strings' == ss;
    var others' := seq(|others|, i requires 0 <= i < |others| => FilterPaths(others[i], prefixes));
    assert others' == others;
    assert FilterPaths(JList(items), prefixes).items == Strs(strings') + others';
  }

  /** The dict step of `FilterIdempotent`, given idempotence on the values. */
  lemma ObjectFixpoint(members: seq<(string, Json)>, prefixes: seq<string>)
    requires forall k :: 0 <= k < |members| ==>
      FilterPaths(FilterPaths(members[k].1, prefixes), prefixes) == FilterPaths(members[k].1, prefixes)
    ensures FilterPaths(FilterPaths(JObj(members), prefixes), prefixes) == FilterPaths(JObj(members), prefixes)
  {
    var r := FilterPaths(JObj(members), prefixes);
    assert forall k :: 0 <= k < |members| ==> FilterPaths(r.members[k].1, prefixes) == r.members[k].1;
  }

  /** With the default prefix, applying the collapser twice gives what
      applying it once gives. */
  lemma DefaultIdempotent(j: Json)
    ensures FilterPaths(FilterPaths(j, DefaultPrefixes), DefaultPrefixes) == FilterPaths(j, DefaultPrefixes)
  {
    SinglePrefixStable("src/");
    FilterIdempotent(j, DefaultPrefixes);
  }

  const OverlappingPrefixes: seq<string> := ["src/.", "src/"]

  /** With the prefixes `src/.` and `src/`, `src/x` becomes `src/..` (only
      `src/` matches), which then starts with `src/.` and becomes `src/...`. */
  lemma OverlappingCollapse()
    ensures CollapseOne("src/x", OverlappingPrefixes, Replace) == "src/.."
    ensures CollapseOne("src/..", OverlappingPrefixes, Replace) == "src/..."
  {
    assert !StartsWith("src/x", "src/.") by {
      assert "src/x"[..5][4] != "src/."[4];
    }
    assert StartsWith("src/x", "src/");
    assert OverlappingPrefixes[1..] == ["src/"];
    assert StartsWith("src/..", "src/.");
  }

  /** A list of one string filters to the one string collapsed. */
  lemma FilterSingleton(x: string, prefixes: seq<string>)
    ensures FilterPaths(JList([JStr(x)]), prefixes) == JList([JStr(CollapseOne(x, prefixes, Replace))])
  {
    var items := [JStr(x)];
    assert items[1..] == [];
    assert GetStrings(items) == [x] && GetOthers(items) == [];
    var c := CollapseOne(x, prefixes, Replace);
    assert Rewrite([x], prefixes, Replace) == [c];
    assert Dedup([c]) == [c] by {
      assert [c][..0] == [];
    }
    assert Strs([c]) + [] == [JStr(c)];
  }

  /** So with those prefixes the collapser is not idempotent, and they are
      not stable. */
  lemma NotIdempotentInGeneral()
    ensures var j := JList([JStr("src/x")]);
            && FilterPaths(j, OverlappingPrefixes) == JList([JStr("src/..")])
            && FilterPaths(FilterPaths(j, OverlappingPrefixes), OverlappingPrefixes) == JList([JStr("src/...")])
            && FilterPaths(FilterPaths(j, OverlappingPrefixes), OverlappingPrefixes) != FilterPaths(j, OverlappingPrefixes)
            && !Stable(OverlappingPrefixes)
  {
    OverlappingCollapse();
    FilterSingleton("src/x", OverlappingPrefixes);
    FilterSingleton("src/..", OverlappingPrefixes);
    assert "src/..." != "src/.." by {
      assert |"src/..."| != |"src/.."|;
    }
    assert OverlappingPrefixes[1] + Replace == "src/..";
  }
}

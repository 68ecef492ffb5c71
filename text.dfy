/** Small string helpers shared by the three transforms: prefixes,
    Python's `str.split()` tokenizer, and decimal rendering of numbers. */
module Text {

  /** Python's `s.startswith(prefix)`. */
  predicate StartsWith(s: string, prefix: string) {
    |prefix| <= |s| && s[..|prefix|] == prefix
  }

  /** The characters Python's `str.isspace()` accepts, which are exactly
      the separators of `str.split()` with no argument. */
  predicate IsSpace(c: char) {
    || ('\t' <= c <= '\r')
    || ('\U{1C}' <= c <= '\U{1F}')
    || c == ' ' || c == '\U{85}' || c == '\U{A0}' || c == '\U{1680}'
    || ('\U{2000}' <= c <= '\U{200A}')
    || c == '\U{2028}' || c == '\U{2029}' || c == '\U{202F}' || c == '\U{205F}'
    || c == '\U{3000}'
  }

  /** A token as `str.split()` returns it: non-empty, no whitespace. */
  predicate IsWord(w: string) {
    |w| > 0 && forall i :: 0 <= i < |w| ==> !IsSpace(w[i])
  }

  /** Length of the run of non-whitespace characters that starts `s`. */
  function WordLength(s: string): (n: nat)
    ensures n <= |s|
    ensures forall i :: 0 <= i < n ==> !IsSpace(s[i])
    ensures n < |s| ==> IsSpace(s[n])
  {
    if s == [] || IsSpace(s[0]) then 0 else 1 + WordLength(s[1..])
  }

  /** Python's `s.split()`: the maximal runs of non-whitespace characters, in order. */
  function Tokens(s: string): (r: seq<string>)
    ensures forall i :: 0 <= i < |r| ==> IsWord(r[i])
    decreases |s|
  {
    if s == [] then []
    else if IsSpace(s[0]) then Tokens(s[1..])
    else
      var n := WordLength(s);
      [s[..n]] + Tokens(s[n..])
  }

  /** `" ".join(ws)`. */
  function JoinSpaced(ws: seq<string>): string {
    if ws == [] then [] else if |ws| == 1 then ws[0] else ws[0] + " " + JoinSpaced(ws[1..])
  }

  /** Each word preceded by one space: `"".join(" " + w for w in ws)`. */
  function Prefixed(ws: seq<string>): string {
    if ws == [] then [] else " " + ws[0] + Prefixed(ws[1..])
  }

  /** A non-empty word list, each word spaced, is one space and the words
      joined by spaces. */
  lemma {:induction false} PrefixedJoin(ws: seq<string>)
    requires ws != []
    ensures Prefixed(ws) == " " + JoinSpaced(ws)
    decreases |ws|
  {
    if |ws| == 1 {
      assert Prefixed(ws[1..]) == [];
    } else {
      PrefixedJoin(ws[1..]);
      assert Prefixed(ws) == " " + ws[0] + (" " + JoinSpaced(ws[1..]));
      assert JoinSpaced(ws) == ws[0] + " " + JoinSpaced(ws[1..]);
    }
  }

  /** Words joined by spaces start with a non-space. */
  lemma JoinSpacedStart(ws: seq<string>)
    requires forall i :: 0 <= i < |ws| ==> IsWord(ws[i])
    ensures JoinSpaced(ws) == [] || !IsSpace(JoinSpaced(ws)[0])
  {
    if ws != [] {
      var w := ws[0];
      assert IsWord(w);
      assert !IsSpace(w[0]);
      if |ws| > 1 {
        var t := " " + JoinSpaced(ws[1..]);
        assert JoinSpaced(ws) == w + t;
        assert (w + t)[0] == w[0];
      }
    }
  }

  lemma WordLengthAppend(a: string, b: string)
    requires WordLength(a) < |a| || b == [] || IsSpace(b[0])
    ensures WordLength(a + b) == WordLength(a)
  {
    assert forall i :: 0 <= i < |a| ==> (a + b)[i] == a[i];
    assert b != [] ==> (a + b)[|a|] == b[0];
  }

  lemma WordLengthOfWord(w: string)
    requires IsWord(w)
    ensures WordLength(w) == |w|
  {
  }

  /** Trailing whitespace (such as a line's newline) adds no token. */
  lemma {:induction false} TokensAppendSpace(s: string, c: char)
    requires IsSpace(c)
    ensures Tokens(s + [c]) == Tokens(s)
    decreases |s|
  {
    var t := s + [c];
    if s == [] {
      assert t[1..] == [];
    } else if IsSpace(s[0]) {
      assert t[1..] == s[1..] + [c];
      TokensAppendSpace(s[1..], c);
    } else {
      WordLengthAppend(s, [c]);
      var n := WordLength(s);
      assert t[..n] == s[..n];
      assert t[n..] == s[n..] + [c];
      TokensAppendSpace(s[n..], c);
    }
  }

  /** Splitting words joined by single spaces gives the words back. */
  lemma {:induction false} TokensOfJoin(ws: seq<string>)
    requires forall i :: 0 <= i < |ws| ==> IsWord(ws[i])
    ensures Tokens(JoinSpaced(ws)) == ws
    decreases |ws|
  {
    if ws == [] {
    } else if |ws| == 1 {
      TokensOfWord(ws[0]);
    } else {
      var w := ws[0];
      var rest := JoinSpaced(ws[1..]);
      assert JoinSpaced(ws) == w + (" " + rest);
      TokensOfWordThen(w, " " + rest);
      TokensAfterSpace(rest);
      TokensOfJoin(ws[1..]);
      assert ws == [w] + ws[1..];
    }
  }

  /** A word on its own is one token. */
  lemma TokensOfWord(w: string)
    requires IsWord(w)
    ensures Tokens(w) == [w]
  {
    WordLengthOfWord(w);
    assert w[|w|..] == [] && w[..|w|] == w;
  }

  /** A word followed by whitespace is the first token. */
  lemma TokensOfWordThen(w: string, rest: string)
    requires IsWord(w)
    requires rest != [] && IsSpace(rest[0])
    ensures Tokens(w + rest) == [w] + Tokens(rest)
  {
    var s := w + rest;
    WordLengthOfWord(w);
    WordLengthAppend(w, rest);
    assert s[..|w|] == w;
    assert s[|w|..] == rest;
  }

  /** A leading space adds no token. */
  lemma TokensAfterSpace(s: string)
    ensures Tokens(" " + s) == Tokens(s)
  {
    assert (" " + s)[1..] == s;
  }

  function DigitChar(d: nat): char
    requires d < 10
  {
    "0123456789"[d]
  }

  /** Decimal notation of `n`, as Python's `str.format` writes an int. */
  function NatToString(n: nat): string
  {
    if n < 10 then [DigitChar(n)] else NatToString(n / 10) + [DigitChar(n % 10)]
  }
}

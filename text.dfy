/**
 * The handful of Python `str` operations the matcher relies on:
 * `lower()`, `strip()`, `split()` with no argument, and `sep.join(parts)`.
 * Case mapping covers ASCII letters only; whitespace is the set that
 * Python's `str.isspace` (and so `strip`, `split` and the regex class `\s`) uses.
 */
module Text {

  /** Python whitespace: the characters `str.isspace` accepts. */
  predicate IsSpace(c: char) {
    || c == ' '
    || '\t' <= c <= '\r'
    || '\U{1c}' <= c <= '\U{1f}'
    || c == '\U{85}' || c == '\U{a0}' || c == '\U{1680}'
    || '\U{2000}' <= c <= '\U{200a}'
    || c == '\U{2028}' || c == '\U{2029}' || c == '\U{202f}' || c == '\U{205f}' || c == '\U{3000}'
  }

  predicate IsUpper(c: char) { 'A' <= c <= 'Z' }

  function LowerChar(c: char): (d: char)
    ensures !IsUpper(d)
    ensures IsSpace(d) == IsSpace(c)
  {
    if IsUpper(c) then (c as int - 'A' as int + 'a' as int) as char else c
  }

  /** `s.lower()`, for ASCII letters. */
  function Lower(s: string): (r: string)
    ensures |r| == |s|
    ensures forall i :: 0 <= i < |s| ==> r[i] == LowerChar(s[i])
  {
    seq(|s|, i requires 0 <= i < |s| => LowerChar(s[i]))
  }

  predicate AllSpace(s: string) {
    forall k :: 0 <= k < |s| ==> IsSpace(s[k])
  }

  /** Neither end of s is whitespace. */
  predicate Trimmed(s: string) {
    s == [] || (!IsSpace(s[0]) && !IsSpace(s[|s| - 1]))
  }

  /** s without its leading whitespace. */
  function TrimLeft(s: string): (r: string)
    ensures |r| <= |s| && r == s[|s| - |r|..]
    ensures r == [] || !IsSpace(r[0])
  {
    if s != [] && IsSpace(s[0]) then TrimLeft(s[1..]) else s
  }

  /** s without its trailing whitespace. */
  function TrimRight(s: string): (r: string)
    ensures |r| <= |s| && r == s[..|r|]
    ensures r == [] || !IsSpace(r[|r| - 1])
  {
    if s != [] && IsSpace(s[|s| - 1]) then TrimRight(s[..|s| - 1]) else s
  }

  /** `s.strip()`: the part of s between its leading and its trailing whitespace. */
  function Strip(s: string): (r: string)
    ensures Trimmed(r)
    ensures |r| <= |s|
  {
    var t := TrimLeft(s);
    var r := TrimRight(t);
    assert r != [] ==> r[0] == t[0];
    r
  }

  /** A word of `split()`: non-empty and free of whitespace. */
  predicate Token(p: string) {
    p != [] && forall k :: 0 <= k < |p| ==> !IsSpace(p[k])
  }

  predicate Tokens(ps: seq<string>) {
    forall i :: 0 <= i < |ps| ==> Token(ps[i])
  }

  /** The longest prefix of s that holds no whitespace. */
  function Word(s: string): (w: string)
    ensures |w| <= |s| && w == s[..|w|]
    ensures forall k :: 0 <= k < |w| ==> !IsSpace(w[k])
    ensures |w| == |s| || IsSpace(s[|w|])
  {
    if s == [] || IsSpace(s[0]) then [] else [s[0]] + Word(s[1..])
  }

  /** `s.split()`: the maximal runs of non-whitespace characters, in order. */
  function Split(s: string): (parts: seq<string>)
    ensures Tokens(parts)
    decreases |s|
  {
    if s == [] then []
    else if IsSpace(s[0]) then Split(s[1..])
    else
      var w := Word(s);
      [w] + Split(s[|w|..])
  }

  /** `sep.join(parts)`. */
  function Join(parts: seq<string>, sep: string): string {
    if parts == [] then []
    else if |parts| == 1 then parts[0]
    else parts[0] + sep + Join(parts[1..], sep)
  }

  /** Every whitespace character is a plain space with a non-whitespace character on each side. */
  predicate SingleSpaced(s: string) {
    forall i :: 0 <= i < |s| && IsSpace(s[i]) ==>
      s[i] == ' ' && 0 < i < |s| - 1 && !IsSpace(s[i - 1]) && !IsSpace(s[i + 1])
  }

  lemma LowerIdempotent(s: string)
    ensures Lower(Lower(s)) == Lower(s)
  {
    assert forall i :: 0 <= i < |s| ==> LowerChar(LowerChar(s[i])) == LowerChar(s[i]);
  }

  lemma TrimmedLower(s: string)
    requires Trimmed(s)
    ensures Trimmed(Lower(s))
  {
  }

  lemma TrimmedIsStripped(s: string)
    requires Trimmed(s)
    ensures Strip(s) == s
  {
  }

  lemma {:induction false} TrimLeftLower(s: string)
    ensures TrimLeft(Lower(s)) == Lower(TrimLeft(s))
  {
    if s != [] {
      assert Lower(s)[1..] == Lower(s[1..]);
      TrimLeftLower(s[1..]);
    }
  }

  lemma {:induction false} TrimRightLower(s: string)
    ensures TrimRight(Lower(s)) == Lower(TrimRight(s))
  {
    if s != [] {
      assert Lower(s)[..|s| - 1] == Lower(s[..|s| - 1]);
      TrimRightLower(s[..|s| - 1]);
    }
  }

  /** Lower-casing and stripping commute. */
  lemma StripLower(s: string)
    ensures Strip(Lower(s)) == Lower(Strip(s))
  {
    TrimLeftLower(s);
    TrimRightLower(TrimLeft(s));
  }

  lemma {:induction false} TrimLeftAppend(s: string, q: string)
    ensures TrimLeft(s + q) == if AllSpace(s) then TrimLeft(q) else TrimLeft(s) + q
  {
    if s == [] {
      assert s + q == q;
    } else if IsSpace(s[0]) {
      assert (s + q)[0] == s[0] && (s + q)[1..] == s[1..] + q;
      assert TrimLeft(s + q) == TrimLeft(s[1..] + q);
      TrimLeftAppend(s[1..], q);
      AllSpaceTail(s);
    } else {
      assert (s + q)[0] == s[0];
      assert !AllSpace(s);
    }
  }

  lemma AllSpaceTail(s: string)
    requires s != [] && IsSpace(s[0])
    ensures AllSpace(s) == AllSpace(s[1..])
  {
    assert forall k :: 1 <= k < |s| ==> s[1..][k - 1] == s[k];
  }

  lemma AllSpaceFront(s: string)
    requires s != [] && IsSpace(s[|s| - 1])
    ensures AllSpace(s) == AllSpace(s[..|s| - 1])
  {
    assert forall k :: 0 <= k < |s| - 1 ==> s[..|s| - 1][k] == s[k];
  }

  lemma {:induction false} TrimRightPrepend(p: string, s: string)
    ensures TrimRight(p + s) == if AllSpace(s) then TrimRight(p) else p + TrimRight(s)
  {
    if s == [] {
      assert p + s == p;
    } else if IsSpace(s[|s| - 1]) {
      assert (p + s)[|p + s| - 1] == s[|s| - 1] && (p + s)[..|p + s| - 1] == p + s[..|s| - 1];
      assert TrimRight(p + s) == TrimRight(p + s[..|s| - 1]);
      TrimRightPrepend(p, s[..|s| - 1]);
      AllSpaceFront(s);
    } else {
      assert (p + s)[|p + s| - 1] == s[|s| - 1];
      assert !AllSpace(s);
    }
  }

  lemma AllSpaceTrimsToEmpty(q: string)
    requires AllSpace(q)
    ensures TrimLeft(q) == [] && TrimRight(q) == []
  {
  }

  /** Whitespace around s does not change `s.strip()`. */
  lemma StripPadded(p: string, s: string, q: string)
    requires AllSpace(p) && AllSpace(q)
    ensures Strip(p + s + q) == Strip(s)
  {
    var l := TrimLeft(p + s + q);
    assert p + s + q == p + (s + q);
    TrimLeftAppend(p, s + q);
    TrimLeftAppend(s, q);
    AllSpaceTrimsToEmpty(q);
    if AllSpace(s) {
      AllSpaceTrimsToEmpty(s);
      assert l == [] && TrimLeft(s) == [];
    } else {
      assert l == TrimLeft(s) + q;
      TrimRightPrepend(TrimLeft(s), q);
    }
    assert TrimRight(l) == TrimRight(TrimLeft(s));
  }

  lemma {:induction false} JoinTokens(parts: seq<string>)
    requires Tokens(parts)
    ensures var r := Join(parts, " ");
      && SingleSpaced(r)
      && (r == [] <==> parts == [])
      && (r != [] ==> r[0] == parts[0][0] && r[|r| - 1] == parts[|parts| - 1][|parts[|parts| - 1]| - 1])
  {
    if |parts| > 1 {
      var p, j := parts[0], Join(parts[1..], " ");
      JoinTokens(parts[1..]);
      var r := p + " " + j;
      assert r == Join(parts, " ");
      forall i | 0 <= i < |r|
        ensures IsSpace(r[i]) ==> r[i] == ' ' && 0 < i < |r| - 1 && !IsSpace(r[i - 1]) && !IsSpace(r[i + 1])
      {
        if i < |p| {
          assert r[i] == p[i];
        } else if i == |p| {
          assert r[i - 1] == p[|p| - 1] && r[i + 1] == j[0];
        } else {
          assert r[i] == j[i - |p| - 1];
          if IsSpace(r[i]) {
            assert r[i - 1] == j[i - |p| - 2] && r[i + 1] == j[i - |p|];
          }
        }
      }
    }
  }

  /** Joining tokens with single spaces gives a single-spaced string. */
  lemma JoinSingleSpaced(parts: seq<string>)
    requires Tokens(parts)
    ensures SingleSpaced(Join(parts, " "))
  {
    JoinTokens(parts);
  }

  lemma {:induction false} WordOfToken(p: string, s: string)
    requires Token(p) && (s == [] || IsSpace(s[0]))
    ensures Word(p + s) == p
  {
    if |p| > 1 {
      assert (p + s)[1..] == p[1..] + s;
      WordOfToken(p[1..], s);
    }
  }

  lemma SplitToken(w: string, rest: string)
    requires Token(w) && (rest == [] || IsSpace(rest[0]))
    ensures Split(w + rest) == [w] + Split(rest)
  {
    WordOfToken(w, rest);
    assert (w + rest)[0] == w[0];
    assert (w + rest)[|w|..] == rest;
  }

  lemma SplitSpace(j: string)
    ensures Split(" " + j) == Split(j)
  {
    assert (" " + j)[0] == ' ' && (" " + j)[1..] == j;
  }

  lemma {:induction false} JoinStartsWithToken(parts: seq<string>)
    requires Tokens(parts) && parts != []
    ensures Join(parts, " ") != [] && Join(parts, " ")[0] == parts[0][0]
  {
    if |parts| > 1 {
      assert Join(parts, " ") == parts[0] + " " + Join(parts[1..], " ");
    }
  }

  /** Splitting a token, a space and the rest gives the token, then the words of the rest. */
  lemma SplitCons(p: string, j: string)
    ensures Token(p) ==> Split(p + (" " + j)) == [p] + Split(j)
  {
    if Token(p) {
      SplitToken(p, " " + j);
      SplitSpace(j);
    }
  }

  lemma SplitOne(parts: seq<string>)
    requires Tokens(parts) && |parts| == 1
    ensures Split(Join(parts, " ")) == parts
  {
    SplitToken(parts[0], []);
    assert parts[0] + [] == parts[0];
    assert [parts[0]] == parts;
  }

  lemma SplitJoinTail(parts: seq<string>)
    requires Tokens(parts) && |parts| > 1
    ensures Split(Join(parts, " ")) == [parts[0]] + Split(Join(parts[1..], " "))
  {
    var j := Join(parts[1..], " ");
    assert Join(parts, " ") == parts[0] + (" " + j);
    SplitCons(parts[0], j);
  }

  lemma SplitJoinCons(parts: seq<string>)
    requires Tokens(parts) && |parts| > 1
    requires Split(Join(parts[1..], " ")) == parts[1..]
    ensures Split(Join(parts, " ")) == parts
  {
    SplitJoinTail(parts);
    assert [parts[0]] + parts[1..] == parts;
  }

  /** Splitting a single-spaced join of tokens gives the tokens back. */
  lemma {:induction false} SplitJoin(parts: seq<string>)
    requires Tokens(parts)
    ensures Split(Join(parts, " ")) == parts
  {
    if |parts| == 1 {
      SplitOne(parts);
    } else if |parts| > 1 {
      assert Tokens(parts[1..]);
      SplitJoin(parts[1..]);
      SplitJoinCons(parts);
    }
  }
}

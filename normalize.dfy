/**
 * Field normalisation: the canonical forms of an address, a city or state,
 * and a zip code, from which the join key of a record is built.
 *
 * The address clean-up uses three regular expressions whose backslashes are
 * doubled inside raw strings. `Reading` selects how they are read: `Literal`
 * is the text as written (a doubled backslash matches a backslash character),
 * `WordBoundary` is the evidently intended reading (word boundary, `\s`, `\w`).
 */
module Normalize {
  import opened Results
  import opened Text

  /** Street-type abbreviations and the full words they stand for. */
  const SuffixTable: map<string, string> := map[
    "st" := "street", "ave" := "avenue", "av" := "avenue", "blvd" := "boulevard", "dr" := "drive",
    "ln" := "lane", "rd" := "road", "trl" := "trail", "ter" := "terrace", "cir" := "circle",
    "ct" := "court", "hwy" := "highway", "pkwy" := "parkway", "pl" := "place", "way" := "way", "sq" := "square"]

  /** Unit and suite markers, removed in this order. */
  const UnitKeys: seq<string> := ["apt", "unit", "#", "ste", "suite"]

  datatype Reading = Literal | WordBoundary

  /** A regex word character (ASCII letters, digits and underscore). */
  predicate IsWordChar(c: char) {
    'a' <= c <= 'z' || 'A' <= c <= 'Z' || '0' <= c <= '9' || c == '_'
  }

  /** Regex `\b` at position i: a word character on exactly one side. */
  predicate AtBoundary(s: string, i: nat)
    requires i <= |s|
  {
    (0 < i && IsWordChar(s[i - 1])) != (i < |s| && IsWordChar(s[i]))
  }

  /** The number of characters from position i on that satisfy p, up to the first that does not. */
  function Span(s: string, i: nat, p: char -> bool): (n: nat)
    requires i <= |s|
    ensures i + n <= |s|
    ensures forall k :: i <= k < i + n ==> p(s[k])
    ensures i + n == |s| || !p(s[i + n])
    decreases |s| - i
  {
    if i < |s| && p(s[i]) then 1 + Span(s, i + 1, p) else 0
  }

  /** The unit-marker pattern for key and the whitespace-run pattern, each under one reading. */
  datatype Pattern = UnitMarker(rd: Reading, key: string) | Blanks(rd: Reading)

  /**
   * Intended unit-marker pattern: word boundary, key, word boundary, an
   * optional '.', optional whitespace, then a run of word characters.
   * Its quantifiers cannot backtrack into a different match, so the match
   * is determined greedily.
   */
  function BoundaryMarkerEnd(s: string, i: nat, key: string): (e: Option<nat>)
    requires i <= |s|
    ensures e.Some? ==> i < e.value <= |s|
  {
    var e := i + |key|;
    if e <= |s| && s[i..e] == key && AtBoundary(s, i) && AtBoundary(s, e) then
      var d := if e < |s| && s[e] == '.' then e + 1 else e;
      var w := d + Span(s, d, IsSpace);
      var n := Span(s, w, IsWordChar);
      if n > 0 then Some(w + n) else None
    else None
  }

  /** A backslash, any number of 's', a backslash, then one or more 'w'. */
  function LiteralTail(s: string, j: nat): (e: Option<nat>)
    requires j <= |s|
    ensures e.Some? ==> j < e.value <= |s|
  {
    if j < |s| && s[j] == '\\' then
      var k := j + 1 + Span(s, j + 1, c => c == 's');
      if k < |s| && s[k] == '\\' then
        var n := Span(s, k + 1, c => c == 'w');
        if n > 0 then Some(k + 1 + n) else None
      else None
    else None
  }

  /**
   * The unit-marker pattern as written: the text backslash-b, key,
   * backslash-b, backslash, then one optional character other than a
   * newline (tried first with the character, then without) and LiteralTail.
   */
  function LiteralMarkerEnd(s: string, i: nat, key: string): (e: Option<nat>)
    requires i <= |s|
    ensures e.Some? ==> i < e.value <= |s|
  {
    var lit := "\\b" + key + "\\b\\";
    var e := i + |lit|;
    if e <= |s| && s[i..e] == lit then
      var taken := if e < |s| && s[e] != '\n' then LiteralTail(s, e + 1) else None;
      if taken.Some? then taken else LiteralTail(s, e)
    else None
  }

  /** Where a match of p that starts at position i ends, if there is one. */
  function MatchEnd(p: Pattern, s: string, i: nat): (e: Option<nat>)
    requires i <= |s|
    ensures e.Some? ==> i < e.value <= |s|
  {
    match p
    case UnitMarker(Literal, key) => LiteralMarkerEnd(s, i, key)
    case UnitMarker(WordBoundary, key) => BoundaryMarkerEnd(s, i, key)
    case Blanks(WordBoundary) =>
      var n := Span(s, i, IsSpace);
      if n > 0 then Some(i + n) else None
    case Blanks(Literal) =>
      if i < |s| && s[i] == '\\' then
        var n := Span(s, i + 1, c => c == 's');
        if n > 0 then Some(i + 1 + n) else None
      else None
  }

  /** `re.sub(p, repl, s)` applied to s from position i on: leftmost, non-overlapping matches. */
  function SubFrom(p: Pattern, s: string, repl: string, i: nat): string
    requires i <= |s|
    decreases |s| - i
  {
    if i == |s| then []
    else match MatchEnd(p, s, i)
      case Some(e) => repl + SubFrom(p, s, repl, e)
      case None => [s[i]] + SubFrom(p, s, repl, i + 1)
  }

  function Sub(p: Pattern, s: string, repl: string): string {
    SubFrom(p, s, repl, 0)
  }

  /** Deletes every match of the unit-marker pattern for key. */
  function RemoveUnitMarker(rd: Reading, s: string, key: string): string {
    Sub(UnitMarker(rd, key), s, "")
  }

  /** The unit-marker deletions for keys, applied in order. */
  function RemoveUnitMarkers(rd: Reading, s: string, keys: seq<string>): string
    decreases |keys|
  {
    if keys == [] then s
    else RemoveUnitMarker(rd, RemoveUnitMarkers(rd, s, keys[..|keys| - 1]), keys[|keys| - 1])
  }

  /** `replace("&", " and ")`. */
  function ExpandAmpersand(s: string): (r: string)
    ensures '&' !in r
    ensures '&' !in s ==> r == s
  {
    if s == [] then []
    else (if s[0] == '&' then " and " else [s[0]]) + ExpandAmpersand(s[1..])
  }

  /** The characters the punctuation pass keeps; it turns every other into a space. */
  predicate KeptCharacter(rd: Reading, c: char) {
    || 'a' <= c <= 'z' || '0' <= c <= '9'
    || (rd == Literal && c == '\\')
    || (rd == WordBoundary && IsSpace(c))
  }

  function Depunctuate(rd: Reading, s: string): (r: string)
    ensures |r| == |s|
    ensures forall k :: 0 <= k < |s| ==> r[k] == if KeptCharacter(rd, s[k]) then s[k] else ' '
  {
    seq(|s|, k requires 0 <= k < |s| => if KeptCharacter(rd, s[k]) then s[k] else ' ')
  }

  /** The address text after unit removal, punctuation, whitespace collapsing and stripping. */
  function AddressText(rd: Reading, t: string): string {
    var s := RemoveUnitMarkers(rd, ExpandAmpersand(Lower(t)), UnitKeys);
    Strip(Sub(Blanks(rd), Depunctuate(rd, s), " "))
  }

  /** The words with the last one replaced by its full form when it is a street-type abbreviation. */
  function ExpandSuffix(parts: seq<string>): (r: seq<string>)
    ensures |r| == |parts|
    ensures parts == [] || r[..|r| - 1] == parts[..|parts| - 1]
    ensures parts != [] ==> var last := parts[|parts| - 1];
      r[|r| - 1] == if last in SuffixTable then SuffixTable[last] else last
  {
    if parts != [] && parts[|parts| - 1] in SuffixTable then parts[|parts| - 1 := SuffixTable[parts[|parts| - 1]]]
    else parts
  }

  /** The canonical form of an address cell; a missing (non-string) cell gives "". */
  function CleanedAddress(a: Option<string>, rd: Reading): string {
    match a
    case None => ""
    case Some(t) => Join(ExpandSuffix(Split(AddressText(rd, t))), " ")
  }

  /**
   * Address clean-up: lower-case, expand '&', remove unit markers key by key,
   * replace punctuation with spaces, collapse whitespace, strip, and expand a
   * trailing street-type abbreviation.
   */
  method CleanAddress(a: Option<string>, rd: Reading) returns (r: string)
    ensures r == CleanedAddress(a, rd)
    ensures SingleSpaced(r)
  {
    if a.None? {
      return "";
    }
    var s := CleanText(rd, a.value);
    var parts := ExpandLastWord(Split(s));
    r := Join(parts, " ");
    CleanedAddressSingleSpaced(a, rd);
  }

  /** The words, with the last one replaced in place by its full form when it is a street-type abbreviation. */
  method ExpandLastWord(words: seq<string>) returns (parts: seq<string>)
    ensures parts == ExpandSuffix(words)
  {
    parts := words;
    if |parts| > 0 {
      var last := parts[|parts| - 1];
      if last in SuffixTable {
        parts := parts[|parts| - 1 := SuffixTable[last]];
      }
    }
  }

  /** The address text: lower-case, expand '&', remove unit markers, replace punctuation, collapse whitespace, strip. */
  method CleanText(rd: Reading, t: string) returns (s: string)
    ensures s == AddressText(rd, t)
  {
    s := RemoveUnits(rd, ExpandAmpersand(Lower(t)));
    s := Strip(Sub(Blanks(rd), Depunctuate(rd, s), " "));
  }

  /** The unit-marker deletions, one key after the other. */
  method RemoveUnits(rd: Reading, s0: string) returns (s: string)
    ensures s == RemoveUnitMarkers(rd, s0, UnitKeys)
  {
    s := s0;
    for k := 0 to |UnitKeys|
      invariant s == RemoveUnitMarkers(rd, s0, UnitKeys[..k])
    {
      assert UnitKeys[..k + 1][..k] == UnitKeys[..k];
      s := RemoveUnitMarker(rd, s, UnitKeys[k]);
    }
    assert UnitKeys[..|UnitKeys|] == UnitKeys;
  }

  /**
   * `str(x or "")` for a cell as read from a CSV file: a missing cell is a
   * floating-point NaN, which is truthy and prints as "nan".
   */
  function CellText(x: Option<string>): string {
    match x
    case Some(t) => t
    case None => "nan"
  }

  /** `_norm`: the cell's text trimmed, then lower-cased. */
  function Norm(x: Option<string>): (r: string)
    ensures Trimmed(r)
    ensures forall k :: 0 <= k < |r| ==> !IsUpper(r[k])
    ensures x.None? ==> r == "nan"
  {
    var t := Strip(CellText(x));
    TrimmedLower(t);
    Lower(t)
  }

  /** `_zip5`: the first five characters of the cell's trimmed text. */
  function Zip5(x: Option<string>): (r: string)
    ensures var z := Strip(CellText(x));
      && r <= z
      && |r| == if |z| < 5 then |z| else 5
  {
    var z := Strip(CellText(x));
    if z == [] then [] else z[..if |z| < 5 then |z| else 5]
  }

  // ---------------------------------------------------------------------------
  // Properties
  // ---------------------------------------------------------------------------

  /** Every full word in the street-type table is a non-empty run of lower-case letters, hence one word of `split()`. */
  lemma SuffixValuesAreTokens()
    ensures forall k :: k in SuffixTable ==> Token(SuffixTable[k])
    ensures forall k, i :: k in SuffixTable && 0 <= i < |SuffixTable[k]| ==> 'a' <= SuffixTable[k][i] <= 'z'
  {
    forall k | k in SuffixTable
      ensures Token(SuffixTable[k])
    {
      LettersAreToken(SuffixTable[k]);
    }
  }

  /** A non-empty run of lower-case letters is a word of `split()`. */
  lemma LettersAreToken(w: string)
    requires w != [] && forall i :: 0 <= i < |w| ==> 'a' <= w[i] <= 'z'
    ensures Token(w)
  {
  }

  /** Every full word in the table is either not an abbreviation itself or maps to itself ("way"). */
  lemma SuffixValuesSettled()
    ensures forall k :: k in SuffixTable ==>
      SuffixTable[k] !in SuffixTable || SuffixTable[SuffixTable[k]] == SuffixTable[k]
  {
  }

  /** Expanding the trailing abbreviation twice is the same as expanding it once. */
  lemma ExpandSuffixIdempotent(parts: seq<string>)
    ensures ExpandSuffix(ExpandSuffix(parts)) == ExpandSuffix(parts)
  {
    SuffixValuesSettled();
  }

  lemma ExpandSuffixTokens(parts: seq<string>)
    requires Tokens(parts)
    ensures Tokens(ExpandSuffix(parts))
  {
    SuffixValuesAreTokens();
  }

  /** The address is single-spaced: no leading, trailing or doubled space, no other whitespace. */
  lemma CleanedAddressSingleSpaced(a: Option<string>, rd: Reading)
    ensures SingleSpaced(CleanedAddress(a, rd))
  {
    if a.Some? {
      var parts := ExpandSuffix(Split(AddressText(rd, a.value)));
      ExpandSuffixTokens(Split(AddressText(rd, a.value)));
      JoinSingleSpaced(parts);
    }
  }

  /**
   * The words of the cleaned address are the words of the cleaned text with
   * the last one expanded, so the address never ends with an abbreviation
   * that the table would still expand.
   */
  lemma CleanedAddressWords(t: string, rd: Reading)
    ensures Split(CleanedAddress(Some(t), rd)) == ExpandSuffix(Split(AddressText(rd, t)))
    ensures var w := Split(CleanedAddress(Some(t), rd));
      w != [] ==> w[|w| - 1] !in SuffixTable || SuffixTable[w[|w| - 1]] == w[|w| - 1]
  {
    var words := Split(AddressText(rd, t));
    var parts := ExpandSuffix(words);
    ExpandSuffixTokens(words);
    SplitJoin(parts);
    assert CleanedAddress(Some(t), rd) == Join(parts, " ");
    LastWordSettled(words);
  }

  /** After the expansion, the last word is not an abbreviation that would expand to something else. */
  lemma LastWordSettled(words: seq<string>)
    ensures var r := ExpandSuffix(words);
      r != [] ==> r[|r| - 1] !in SuffixTable || SuffixTable[r[|r| - 1]] == r[|r| - 1]
  {
    SuffixValuesSettled();
  }

  /** No match of p starts at position i or later. */
  predicate NoMatchFrom(p: Pattern, s: string, i: nat)
    requires i <= |s|
  {
    forall k :: i <= k < |s| ==> MatchEnd(p, s, k).None?
  }

  /** Deleting matches never lengthens the text, and shortens it when something matches. */
  lemma {:induction false} RemovalShortens(p: Pattern, s: string, i: nat)
    requires i <= |s|
    ensures |SubFrom(p, s, "", i)| <= |s| - i
    ensures !NoMatchFrom(p, s, i) ==> |SubFrom(p, s, "", i)| < |s| - i
    decreases |s| - i
  {
    if i < |s| {
      var m := MatchEnd(p, s, i);
      if m.Some? {
        assert SubFrom(p, s, "", i) == "" + SubFrom(p, s, "", m.value);
        RemovalShortens(p, s, m.value);
      } else {
        assert SubFrom(p, s, "", i) == [s[i]] + SubFrom(p, s, "", i + 1);
        RemovalShortens(p, s, i + 1);
        if !NoMatchFrom(p, s, i) {
          var k :| i <= k < |s| && MatchEnd(p, s, k).Some?;
          assert k != i;
          assert !NoMatchFrom(p, s, i + 1);
        }
      }
    }
  }

  /** Deleting matches leaves s unchanged exactly when nothing matches anywhere. */
  lemma RemovalUnchangedIff(p: Pattern, s: string)
    ensures Sub(p, s, "") == s <==> NoMatchFrom(p, s, 0)
  {
    RemovalShortens(p, s, 0);
    if NoMatchFrom(p, s, 0) {
      SubFromNoMatch(p, s, "", 0);
    }
  }

  /** Where nothing matches, substitution copies the text. */
  lemma {:induction false} SubFromNoMatch(p: Pattern, s: string, repl: string, i: nat)
    requires i <= |s|
    requires NoMatchFrom(p, s, i)
    ensures SubFrom(p, s, repl, i) == s[i..]
    decreases |s| - i
  {
    if i < |s| {
      SubFromNoMatch(p, s, repl, i + 1);
      assert s[i..] == [s[i]] + s[i + 1..];
    }
  }

  /** As written, the whitespace pattern matches only a backslash followed by 's', so it leaves backslash-free text alone. */
  lemma LiteralBlanksInert(s: string, repl: string)
    requires '\\' !in s
    ensures Sub(Blanks(Literal), s, repl) == s
  {
    SubFromNoMatch(Blanks(Literal), s, repl, 0);
  }

  /** As written, the unit-marker pattern can only match where the text has a backslash. */
  lemma LiteralMarkerNeedsBackslash(s: string, i: nat, key: string)
    requires i <= |s|
    requires MatchEnd(UnitMarker(Literal, key), s, i).Some?
    ensures s[i] == '\\'
  {
    var lit := "\\b" + key + "\\b\\";
    assert s[i..i + |lit|][0] == lit[0];
  }

  lemma {:induction false} LiteralUnitRemovalInert(s: string, keys: seq<string>)
    requires '\\' !in s
    ensures RemoveUnitMarkers(Literal, s, keys) == s
    decreases |keys|
  {
    if keys != [] {
      LiteralUnitRemovalInert(s, keys[..|keys| - 1]);
      var key := keys[|keys| - 1];
      forall k | 0 <= k < |s|
        ensures MatchEnd(UnitMarker(Literal, key), s, k).None?
      {
        if MatchEnd(UnitMarker(Literal, key), s, k).Some? {
          LiteralMarkerNeedsBackslash(s, k, key);
        }
      }
      SubFromNoMatch(UnitMarker(Literal, key), s, "", 0);
    }
  }

  /** No unit marker for key occurs anywhere in s. */
  predicate NoMarker(rd: Reading, s: string, key: string) {
    NoMatchFrom(UnitMarker(rd, key), s, 0)
  }

  /** Text in which no key's marker occurs comes through the unit-marker deletions unchanged. */
  lemma {:induction false} NoMarkersUnchanged(rd: Reading, s: string, keys: seq<string>)
    requires forall j :: 0 <= j < |keys| ==> NoMarker(rd, s, keys[j])
    ensures RemoveUnitMarkers(rd, s, keys) == s
    decreases |keys|
  {
    if keys != [] {
      NoMarkersUnchanged(rd, s, keys[..|keys| - 1]);
      assert NoMarker(rd, s, keys[|keys| - 1]);
      SubFromNoMatch(UnitMarker(rd, keys[|keys| - 1]), s, "", 0);
    }
  }

  lemma RemoveUnitMarkersSnoc(rd: Reading, s: string, keys: seq<string>, key: string)
    ensures RemoveUnitMarkers(rd, s, keys + [key]) == RemoveUnitMarker(rd, RemoveUnitMarkers(rd, s, keys), key)
  {
    assert (keys + [key])[..|keys|] == keys;
  }

  /** Removing the markers of ks1 + ks2 removes those of ks1 first, then those of ks2. */
  lemma {:induction false} RemoveUnitMarkersAppend(rd: Reading, s: string, ks1: seq<string>, ks2: seq<string>)
    ensures RemoveUnitMarkers(rd, s, ks1 + ks2) == RemoveUnitMarkers(rd, RemoveUnitMarkers(rd, s, ks1), ks2)
    decreases |ks2|
  {
    if ks2 == [] {
      assert ks1 + ks2 == ks1;
    } else {
      var ks, init, last := ks1 + ks2, ks2[..|ks2| - 1], ks2[|ks2| - 1];
      assert ks == (ks1 + init) + [last];
      RemoveUnitMarkersSnoc(rd, s, ks1 + init, last);
      RemoveUnitMarkersAppend(rd, s, ks1, init);
      assert ks2 == init + [last];
      RemoveUnitMarkersSnoc(rd, RemoveUnitMarkers(rd, s, ks1), init, last);
    }
  }

  /** With word boundaries, no marker for key occurs in text that lacks one of the key's characters. */
  lemma NoMarkerWithoutChar(s: string, key: string, q: nat)
    requires q < |key| && key[q] !in s
    ensures NoMarker(WordBoundary, s, key)
  {
    forall k | 0 <= k < |s|
      ensures MatchEnd(UnitMarker(WordBoundary, key), s, k).None?
    {
      if k + |key| <= |s| {
        assert s[k..k + |key|][q] == s[k + q];
      }
    }
  }

  /**
   * With word boundaries, no marker for key occurs in x + [key[0]] + y when
   * neither x nor y holds the key's first character and the text at that
   * one occurrence is not the key.
   */
  lemma NoMarkerAtUniqueInitial(s: string, key: string, x: string, y: string)
    requires key != [] && s == x + [key[0]] + y
    requires key[0] !in x && key[0] !in y
    requires !(|x| + |key| <= |s| && s[|x|..|x| + |key|] == key)
    ensures NoMarker(WordBoundary, s, key)
  {
    forall k | 0 <= k < |s|
      ensures MatchEnd(UnitMarker(WordBoundary, key), s, k).None?
    {
      if k + |key| <= |s| {
        assert s[k..k + |key|][0] == s[k];
        assert k < |x| ==> s[k] == x[k];
        assert k > |x| ==> s[k] == y[k - |x| - 1];
      }
    }
  }

  /** Collapsing whitespace runs changes nothing in text that is already single-spaced. */
  lemma {:induction false} CollapseSingleSpaced(u: string, i: nat)
    requires SingleSpaced(u) && i <= |u|
    ensures SubFrom(Blanks(WordBoundary), u, " ", i) == u[i..]
    decreases |u| - i
  {
    if i < |u| {
      assert u[i..] == [u[i]] + u[i + 1..];
      if IsSpace(u[i]) {
        assert Span(u, i + 1, IsSpace) == 0;
        assert MatchEnd(Blanks(WordBoundary), u, i) == Some(i + 1);
        CollapseSingleSpaced(u, i + 1);
      } else {
        CollapseSingleSpaced(u, i + 1);
      }
    }
  }

  /**
   * An address whose cleaned-up text (lower-cased, regexes applied) already is
   * a single-spaced join of words, not ending in an abbreviation, keeps that
   * cleaned-up text as its canonical form.
   */
  lemma CleanedFromText(t: string, rd: Reading, ps: seq<string>)
    requires Tokens(ps) && AddressText(rd, t) == Join(ps, " ")
    requires ps == [] || ps[|ps| - 1] !in SuffixTable
    ensures CleanedAddress(Some(t), rd) == Join(ps, " ")
  {
    SplitJoin(ps);
  }

  /**
   * Two addresses whose texts differ only in spelling the last word as an
   * abbreviation or as its full form have the same canonical form.
   */
  lemma AbbreviationMatchesFullWord(t1: string, t2: string, rd: Reading, ws: seq<string>, k: string)
    requires k in SuffixTable
    requires Split(AddressText(rd, t1)) == ws + [k]
    requires Split(AddressText(rd, t2)) == ws + [SuffixTable[k]]
    ensures CleanedAddress(Some(t1), rd) == CleanedAddress(Some(t2), rd)
  {
    ExpandSuffixSpelling(ws, k);
  }

  lemma ExpandSuffixSpelling(ws: seq<string>, k: string)
    requires k in SuffixTable
    ensures ExpandSuffix(ws + [k]) == ExpandSuffix(ws + [SuffixTable[k]])
  {
    var v := SuffixTable[k];
    SuffixValuesSettled();
    assert v !in SuffixTable || SuffixTable[v] == v;
    assert ExpandSuffix(ws + [k]) == ws + [v];
  }

  lemma LowerKeepsBackslashFree(s: string)
    requires '\\' !in s
    ensures '\\' !in Lower(s)
  {
  }

  lemma {:induction false} AmpersandKeepsBackslashFree(s: string)
    requires '\\' !in s
    ensures '\\' !in ExpandAmpersand(s)
  {
    if s != [] {
      AmpersandKeepsBackslashFree(s[1..]);
    }
  }

  /**
   * As written, the unit-marker deletions never change a backslash-free
   * address: on such input the address text is the lower-cased, '&'-expanded,
   * depunctuated text, stripped, with every unit marker still in place.
   */
  lemma AsWrittenIgnoresUnitMarkers(t: string)
    requires '\\' !in t
    ensures RemoveUnitMarkers(Literal, ExpandAmpersand(Lower(t)), UnitKeys) == ExpandAmpersand(Lower(t))
  {
    LowerKeepsBackslashFree(t);
    AmpersandKeepsBackslashFree(Lower(t));
    LiteralUnitRemovalInert(ExpandAmpersand(Lower(t)), UnitKeys);
  }

  lemma DepunctuateKeepsBackslashFree(rd: Reading, s: string)
    requires '\\' !in s
    ensures '\\' !in Depunctuate(rd, s)
  {
    var r := Depunctuate(rd, s);
    forall k | 0 <= k < |r|
      ensures r[k] != '\\'
    {
      assert s[k] in s;
    }
  }

  /**
   * As written, neither the unit-marker nor the whitespace pattern changes
   * backslash-free text: its address text is the lower-cased, '&'-expanded,
   * depunctuated text, stripped.
   */
  lemma AsWrittenText(t: string)
    requires '\\' !in t
    ensures AddressText(Literal, t) == Strip(Depunctuate(Literal, ExpandAmpersand(Lower(t))))
  {
    var e := ExpandAmpersand(Lower(t));
    AsWrittenIgnoresUnitMarkers(t);
    LowerKeepsBackslashFree(t);
    AmpersandKeepsBackslashFree(Lower(t));
    DepunctuateKeepsBackslashFree(Literal, e);
    LiteralBlanksInert(Depunctuate(Literal, e), " ");
  }

  /** Trimming is idempotent, and lower-casing a lower-cased string changes nothing. */
  lemma NormIdempotent(x: Option<string>)
    ensures Norm(Some(Norm(x))) == Norm(x)
  {
    var n := Norm(x);
    TrimmedIsStripped(n);
    LowerIdempotent(Strip(CellText(x)));
  }

  /** Case does not matter to `_norm`. */
  lemma NormIgnoresCase(t: string)
    ensures Norm(Some(Lower(t))) == Norm(Some(t))
  {
    StripLower(t);
    LowerIdempotent(Strip(t));
  }

  /** Surrounding whitespace does not matter to `_norm`. */
  lemma NormIgnoresPadding(p: string, t: string, q: string)
    requires AllSpace(p) && AllSpace(q)
    ensures Norm(Some(p + t + q)) == Norm(Some(t))
  {
    StripPadded(p, t, q);
  }

  /** The zip is at most five characters, empty only for an empty trimmed cell, and the whole trimmed cell when that is short. */
  lemma Zip5Bounds(x: Option<string>)
    ensures |Zip5(x)| <= 5
    ensures Zip5(x) == [] <==> Strip(CellText(x)) == []
    ensures |Strip(CellText(x))| <= 5 ==> Zip5(x) == Strip(CellText(x))
  {
  }

  /** A missing cell cannot be told apart from the text "NaN" in any case once normalised, so missing values match each other. */
  lemma MissingIsNan(p: string, t: string, q: string)
    requires AllSpace(p) && AllSpace(q) && Lower(t) == "nan"
    ensures Norm(Some(p + t + q)) == Norm(None)
  {
    NormIgnoresPadding(p, t, q);
    NanNorm(t);
  }

  lemma NanNorm(t: string)
    requires Lower(t) == "nan"
    ensures Norm(Some(t)) == "nan"
  {
    assert |t| == 3;
    assert Lower(t)[0] == 'n' && Lower(t)[2] == 'n';
    LowersToLetter(t[0], 'n');
    LowersToLetter(t[2], 'n');
    assert Trimmed(t);
    TrimmedIsStripped(t);
    assert Strip(CellText(Some(t))) == t;
  }

  lemma LowersToLetter(c: char, d: char)
    requires LowerChar(c) == d && 'a' <= d <= 'z'
    ensures !IsSpace(c)
  {
  }

  lemma MissingZipIsNan(x: Option<string>)
    requires x.None?
    ensures Zip5(x) == "nan"
  {
    var z := CellText(x);
    assert z == "nan";
    assert Trimmed(z);
    TrimmedIsStripped(z);
  }

  predicate IsDigit(c: char) { '0' <= c <= '9' }

  /** A ZIP+4 code reduces to its five-digit base, whatever whitespace surrounds it. */
  lemma ZipPlusFour(p: string, base: string, ext: string, q: string)
    requires AllSpace(p) && AllSpace(q)
    requires |base| == 5 && |ext| == 4
    requires forall k :: 0 <= k < 5 ==> IsDigit(base[k])
    requires forall k :: 0 <= k < 4 ==> IsDigit(ext[k])
    ensures Zip5(Some(p + (base + "-" + ext) + q)) == base
  {
    var z := base + "-" + ext;
    assert |z| == 10 && z[0] == base[0] && z[9] == ext[3] && z[..5] == base;
    assert IsDigit(z[0]) && IsDigit(z[9]);
    assert Trimmed(z);
    TrimmedIsStripped(z);
    StripPadded(p, z, q);
    assert Strip(p + z + q) == z;
  }

  /** Surrounding whitespace does not change the zip. */
  lemma Zip5IgnoresPadding(p: string, z: string, q: string)
    requires AllSpace(p) && AllSpace(q)
    ensures Zip5(Some(p + z + q)) == Zip5(Some(z))
  {
    StripPadded(p, z, q);
  }
}

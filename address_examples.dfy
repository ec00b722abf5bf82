/**
 * Worked addresses: what the clean-up does under each reading of its
 * regular expressions, and why applying it twice can change the result.
 */
module AddressExamples {
  import opened Results
  import opened Text
  import opened Normalize

  /** When the "apt" deletion gives u and no other key's marker occurs in u, all five deletions give u. */
  lemma OnlyApt(rd: Reading, s: string, u: string)
    requires RemoveUnitMarker(rd, s, "apt") == u
    requires NoMarker(rd, u, "unit") && NoMarker(rd, u, "#") && NoMarker(rd, u, "ste") && NoMarker(rd, u, "suite")
    ensures RemoveUnitMarkers(rd, s, UnitKeys) == u
  {
    var first, rest := ["apt"], ["unit", "#", "ste", "suite"];
    assert UnitKeys == first + rest;
    RemoveUnitMarkersAppend(rd, s, first, rest);
    FirstKeyRemoval(rd, s, first);
    OtherKeysUnchanged(rd, u, rest);
  }

  lemma FirstKeyRemoval(rd: Reading, s: string, first: seq<string>)
    requires first == ["apt"]
    ensures RemoveUnitMarkers(rd, s, first) == RemoveUnitMarker(rd, s, "apt")
  {
    assert first[..0] == [];
  }

  lemma OtherKeysUnchanged(rd: Reading, u: string, rest: seq<string>)
    requires rest == ["unit", "#", "ste", "suite"]
    requires NoMarker(rd, u, "unit") && NoMarker(rd, u, "#") && NoMarker(rd, u, "ste") && NoMarker(rd, u, "suite")
    ensures RemoveUnitMarkers(rd, u, rest) == u
  {
    assert forall j :: 0 <= j < |rest| ==> NoMarker(rd, u, rest[j]);
    NoMarkersUnchanged(rd, u, rest);
  }

  /** No key other than "apt" has its first character in s. */
  lemma OtherKeysAbsent(s: string)
    requires 'u' !in s && '#' !in s && 's' !in s
    ensures NoMarker(WordBoundary, s, "unit") && NoMarker(WordBoundary, s, "#")
    ensures NoMarker(WordBoundary, s, "ste") && NoMarker(WordBoundary, s, "suite")
  {
    NoMarkerWithoutChar(s, "unit", 0);
    NoMarkerWithoutChar(s, "#", 0);
    NoMarkerWithoutChar(s, "ste", 0);
    NoMarkerWithoutChar(s, "suite", 0);
  }

  // "1 apt 5": the unit marker and its number.

  /** As written, the text of "1 apt 5" keeps the marker. */
  lemma AsWrittenUnitText(t: string)
    requires t == "1 apt 5"
    ensures AddressText(Literal, t) == t
  {
    assert '\\' !in t;
    AsWrittenText(t);
    UnitAddressPlain(t);
    TrimmedIsStripped(t);
  }

  lemma UnitAddressPlain(t: string)
    requires t == "1 apt 5"
    ensures Lower(t) == t && ExpandAmpersand(t) == t && Depunctuate(Literal, t) == t && Trimmed(t)
  {
    PlainUnchanged(Literal, t);
    assert '&' !in t;
  }

  /** Lower-case letters, digits and single spaces come through lower-casing and the punctuation pass unchanged. */
  lemma PlainUnchanged(rd: Reading, s: string)
    requires forall k :: 0 <= k < |s| ==> 'a' <= s[k] <= 'z' || '0' <= s[k] <= '9' || s[k] == ' '
    ensures Lower(s) == s && Depunctuate(rd, s) == s
  {
    assert forall k :: 0 <= k < |s| ==> Lower(s)[k] == s[k];
    assert forall k :: 0 <= k < |s| ==> Depunctuate(rd, s)[k] == s[k];
  }

  /** The words of "1 apt 5", which do not end in a street-type abbreviation. */
  lemma UnitAddressWords(u: string)
    requires u == "1 apt 5"
    ensures u == Join(["1", "apt", "5"], " ") && Tokens(["1", "apt", "5"]) && "5" !in SuffixTable
  {
  }

  lemma NumberWords(u: string)
    requires u == "1"
    ensures u == Join(["1"], " ") && Tokens(["1"]) && "1" !in SuffixTable
  {
  }

  lemma SpacedUnitWords(u: string)
    requires u == "apt 5"
    ensures u == Join(["apt", "5"], " ") && Tokens(["apt", "5"]) && "5" !in SuffixTable
  {
  }

  /** As written, "1 apt 5" keeps its unit marker. */
  lemma AsWrittenKeepsUnitMarker(t: string)
    requires t == "1 apt 5"
    ensures CleanedAddress(Some(t), Literal) == t
  {
    AsWrittenUnitText(t);
    var ps := ["1", "apt", "5"];
    UnitAddressWords(t);
    CleanedFromText(t, Literal, ps);
  }

  lemma AptMatchInUnitAddress(s: string)
    requires s == "1 apt 5"
    ensures MatchEnd(UnitMarker(WordBoundary, "apt"), s, 2) == Some(7)
  {
    assert s[2..5] == "apt";
    assert AtBoundary(s, 2) && AtBoundary(s, 5);
    assert Span(s, 7, IsSpace) == 0;
    assert Span(s, 6, IsSpace) == 0;
    assert Span(s, 5, IsSpace) == 1;
    assert Span(s, 7, IsWordChar) == 0;
    assert Span(s, 6, IsWordChar) == 1;
  }

  lemma IntendedUnitRemoval(s: string)
    requires s == "1 apt 5"
    ensures RemoveUnitMarkers(WordBoundary, s, UnitKeys) == "1 "
  {
    var p := UnitMarker(WordBoundary, "apt");
    AptMatchInUnitAddress(s);
    assert SubFrom(p, s, "", 2) == "";
    assert s[0..3] != "apt" && s[1..4] != "apt";
    assert SubFrom(p, s, "", 0) == "1 ";
    var u := "1 ";
    OtherKeysAbsent(u);
    OnlyApt(WordBoundary, s, u);
  }

  lemma IntendedUnitText(t: string)
    requires t == "1 apt 5"
    ensures AddressText(WordBoundary, t) == "1"
  {
    assert Lower(t) == t;
    assert '&' !in t;
    IntendedUnitRemoval(t);
    TrailingSpaceStripped("1 ");
  }

  /** "1 " has no punctuation and no run of whitespace to collapse; stripping leaves "1". */
  lemma TrailingSpaceStripped(u: string)
    requires u == "1 "
    ensures Strip(Sub(Blanks(WordBoundary), Depunctuate(WordBoundary, u), " ")) == "1"
  {
    assert Depunctuate(WordBoundary, u) == u;
    SingleBlankKept(u);
    assert u == "" + "1" + " ";
    StripPadded("", "1", " ");
    TrimmedIsStripped("1");
  }

  lemma SingleBlankKept(u: string)
    requires u == "1 "
    ensures Sub(Blanks(WordBoundary), u, " ") == u
  {
    var p := Blanks(WordBoundary);
    assert Span(u, 2, IsSpace) == 0;
    assert Span(u, 1, IsSpace) == 1;
    assert MatchEnd(p, u, 1) == Some(2);
    assert SubFrom(p, u, " ", 1) == " ";
    assert Span(u, 0, IsSpace) == 0;
    assert MatchEnd(p, u, 0) == None;
    assert SubFrom(p, u, " ", 0) == [u[0]] + " ";
  }

  /** With word boundaries, the marker and the unit number after it are dropped from "1 apt 5". */
  lemma IntendedDropsUnitMarker(t: string)
    requires t == "1 apt 5"
    ensures CleanedAddress(Some(t), WordBoundary) == "1"
  {
    IntendedUnitText(t);
    var u, ps := "1", ["1"];
    NumberWords(u);
    CleanedFromText(t, WordBoundary, ps);
  }

  // "apt-5": cleaning once and cleaning twice.

  lemma HyphenatedUnitHasNoMarker(s: string)
    requires s == "apt-5"
    ensures RemoveUnitMarkers(WordBoundary, s, UnitKeys) == s
  {
    HyphenatedUnitHasNoApt(s);
    SubFromNoMatch(UnitMarker(WordBoundary, "apt"), s, "", 0);
    OtherKeysAbsent(s);
    OnlyApt(WordBoundary, s, s);
  }

  /** "apt" in "apt-5" is followed by a hyphen, not by whitespace and a word. */
  lemma HyphenatedUnitHasNoApt(s: string)
    requires s == "apt-5"
    ensures NoMarker(WordBoundary, s, "apt")
  {
    assert s[0..3] == "apt" && AtBoundary(s, 0) && AtBoundary(s, 3);
    assert Span(s, 3, IsSpace) == 0 && Span(s, 3, IsWordChar) == 0;
    assert MatchEnd(UnitMarker(WordBoundary, "apt"), s, 0).None?;
    assert s[1..4] != "apt" && s[2..5] != "apt";
  }

  lemma HyphenatedUnitText(t: string)
    requires t == "apt-5"
    ensures AddressText(WordBoundary, t) == "apt 5"
  {
    assert Lower(t) == t;
    assert '&' !in t;
    HyphenatedUnitHasNoMarker(t);
    var u := "apt 5";
    HyphenBecomesSpace(t, u);
    CollapseSingleSpaced(u, 0);
    TrimmedIsStripped(u);
  }

  lemma HyphenBecomesSpace(t: string, u: string)
    requires t == "apt-5" && u == "apt 5"
    ensures Depunctuate(WordBoundary, t) == u && SingleSpaced(u) && Trimmed(u)
  {
    assert Depunctuate(WordBoundary, t) == u;
    assert forall i :: 0 <= i < |u| && IsSpace(u[i]) ==> i == 3;
  }

  /** "apt-5" has no marker followed by whitespace, so cleaning keeps it, with the hyphen turned into a space. */
  lemma HyphenatedUnitCleaned(t: string)
    requires t == "apt-5"
    ensures CleanedAddress(Some(t), WordBoundary) == "apt 5"
  {
    HyphenatedUnitText(t);
    var u, ps := "apt 5", ["apt", "5"];
    SpacedUnitWords(u);
    CleanedFromText(t, WordBoundary, ps);
  }

  lemma SpacedUnitText(t: string)
    requires t == "apt 5"
    ensures AddressText(WordBoundary, t) == ""
  {
    assert Lower(t) == t;
    assert '&' !in t;
    var p := UnitMarker(WordBoundary, "apt");
    assert t[0..3] == "apt" && AtBoundary(t, 0) && AtBoundary(t, 3);
    assert Span(t, 5, IsSpace) == 0 && Span(t, 4, IsSpace) == 0 && Span(t, 3, IsSpace) == 1;
    assert Span(t, 5, IsWordChar) == 0 && Span(t, 4, IsWordChar) == 1;
    assert MatchEnd(p, t, 0) == Some(5);
    assert SubFrom(p, t, "", 0) == "";
    OtherKeysAbsent("");
    OnlyApt(WordBoundary, t, "");
    assert Depunctuate(WordBoundary, "") == "";
  }

  /** "apt 5" is read as a unit marker and its number, and cleans to nothing. */
  lemma SpacedUnitCleaned(t: string)
    requires t == "apt 5"
    ensures CleanedAddress(Some(t), WordBoundary) == ""
  {
    SpacedUnitText(t);
    CleanedFromText(t, WordBoundary, []);
  }

  /** The clean-up is not idempotent: cleaning the canonical form of "apt-5" again changes it. */
  lemma CleaningIsNotIdempotent(t: string)
    requires t == "apt-5"
    ensures var once := CleanedAddress(Some(t), WordBoundary);
      CleanedAddress(Some(once), WordBoundary) != once
  {
    HyphenatedUnitCleaned(t);
    SpacedUnitCleaned("apt 5");
  }
}

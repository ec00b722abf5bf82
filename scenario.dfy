/**
 * A worked example: a mailing-list record and a CRM record that spell the same address, city, state and zip differently, under
 * different header names, produce exactly one match.
 */
module Scenario {
  import opened Results
  import opened Text
  import opened Schema
  import opened Normalize
  import opened Matcher

  const MailHeaders: seq<string> := ["Address", "City", "State", "Zip"]
  const CrmHeaders: seq<string> := ["Address", "city", "st", "zipcode"]

  // ---------------------------------------------------------------------------
  // Schema resolution
  // ---------------------------------------------------------------------------

  const MailForms: seq<string> := ["address", "city", "state", "zip"]
  const CrmForms: seq<string> := ["address", "city", "st", "zipcode"]

  /** A capitalised word simplifies to its lower-case spelling. */
  lemma CapitalizedForm(h: string, s: string)
    requires |h| == |s| > 0 && Lower(h[..1]) == s[..1] && h[1..] == s[1..]
    requires forall k :: 0 <= k < |s| ==> IsLowerAlnum(s[k])
    ensures Simplify(h) == s
  {
    assert Lower(h) == s by {
      assert Lower(h[..1])[0] == LowerChar(h[0]) == s[0];
      forall k | 1 <= k < |h|
        ensures LowerChar(h[k]) == s[k]
      {
        assert h[1..][k - 1] == s[1..][k - 1];
      }
    }
    PlainSimplify(h, s);
  }

  /** The simplified forms of the mail headers, position by position. */
  lemma MailHeaderForms(headers: seq<string>, forms: seq<string>)
    requires headers == MailHeaders && forms == MailForms
    ensures forall i :: 0 <= i < |headers| ==> Simplify(headers[i]) == forms[i]
  {
    forall i | 0 <= i < |headers|
      ensures Simplify(headers[i]) == forms[i]
    {
      CapitalizedForm(headers[i], forms[i]);
    }
  }

  /** The simplified forms of the CRM headers, position by position. */
  lemma CrmHeaderForms(headers: seq<string>, forms: seq<string>)
    requires headers == CrmHeaders && forms == CrmForms
    ensures forall i :: 0 <= i < |headers| ==> Simplify(headers[i]) == forms[i]
  {
    forall i | 0 <= i < |headers|
      ensures Simplify(headers[i]) == forms[i]
    {
      if i == 0 {
        CapitalizedForm(headers[0], forms[0]);
      } else {
        assert headers[i] == forms[i];
        PlainForm(headers[i]);
      }
    }
  }

  /** A string of lower-case letters and digits is its own simplified form. */
  lemma PlainForm(h: string)
    requires forall k :: 0 <= k < |h| ==> IsLowerAlnum(h[k])
    ensures Simplify(h) == h
  {
    assert Lower(h) == h;
    PlainSimplify(h, h);
  }

  /** The simplified forms of the zip aliases, position by position. */
  lemma ZipAliasForms(aliases: seq<string>, forms: seq<string>)
    requires aliases == ["zip", "zipcode", "zip_code", "postal", "postalcode"]
    requires forms == ["zip", "zipcode", "zipcode", "postal", "postalcode"]
    ensures forall i :: 0 <= i < |aliases| ==> Simplify(aliases[i]) == forms[i]
  {
    forall i | 0 <= i < |aliases|
      ensures Simplify(aliases[i]) == forms[i]
    {
      if i == 2 {
        assert Lower(aliases[2]) == "zip" + ['_'] + "code";
        SimplifiesAroundSeparator(aliases[2], '_');
      } else {
        assert aliases[i] == forms[i];
        PlainForm(aliases[i]);
      }
    }
  }

  /** The simplified forms of the zip aliases: "zip_code" and "zipcode" coincide. */
  const ZipForms: seq<string> := ["zip", "zipcode", "zipcode", "postal", "postalcode"]

  /** Forms that start differently from every alias form are not among them. */
  lemma InitialsDiffer(forms: seq<string>, aforms: seq<string>, k: nat)
    requires k <= |forms|
    requires forall j, i :: 0 <= j < k && 0 <= i < |aforms| ==>
      forms[j] != [] && aforms[i] != [] && forms[j][0] != aforms[i][0]
    ensures forall j :: 0 <= j < k ==> forms[j] !in aforms
  {
  }

  lemma MailAddressAliasForms()
    ensures forall i :: 0 <= i < |MailAddress.aliases| ==> Simplify(MailAddress.aliases[i]) == MailAddress.aliases[i]
  {
    PlainAliases(MailAddress.aliases);
  }

  /** The mail address column is "Address". */
  lemma MailAddressPick()
    ensures Pick(MailHeaders, MailAddress.aliases) == Some("Address")
  {
    MailHeaderForms(MailHeaders, MailForms);
    MailAddressAliasForms();
    PickAt(MailHeaders, MailAddress.aliases, MailForms, MailAddress.aliases, 0);
  }

  lemma MailCityAliasForms()
    ensures forall i :: 0 <= i < |MailCity.aliases| ==> Simplify(MailCity.aliases[i]) == MailCity.aliases[i]
  {
    PlainAliases(MailCity.aliases);
  }

  lemma MailCityNotEarlier()
    ensures forall j :: 0 <= j < 1 ==> MailForms[j] !in MailCity.aliases
  {
    InitialsDiffer(MailForms, MailCity.aliases, 1);
  }

  /** The mail city column is "City". */
  lemma MailCityPick()
    ensures Pick(MailHeaders, MailCity.aliases) == Some("City")
  {
    MailHeaderForms(MailHeaders, MailForms);
    MailCityAliasForms();
    MailCityNotEarlier();
    PickAt(MailHeaders, MailCity.aliases, MailForms, MailCity.aliases, 1);
  }

  lemma MailStateAliasForms()
    ensures forall i :: 0 <= i < |MailState.aliases| ==> Simplify(MailState.aliases[i]) == MailState.aliases[i]
  {
    PlainAliases(MailState.aliases);
  }

  lemma MailStateNotEarlier()
    ensures forall j :: 0 <= j < 2 ==> MailForms[j] !in MailState.aliases
  {
    InitialsDiffer(MailForms, MailState.aliases, 2);
  }

  /** The mail state column is "State". */
  lemma MailStatePick()
    ensures Pick(MailHeaders, MailState.aliases) == Some("State")
  {
    MailHeaderForms(MailHeaders, MailForms);
    MailStateAliasForms();
    MailStateNotEarlier();
    PickAt(MailHeaders, MailState.aliases, MailForms, MailState.aliases, 2);
  }

  lemma MailZipNotEarlier()
    ensures forall j :: 0 <= j < 3 ==> MailForms[j] !in ZipForms
  {
    InitialsDiffer(MailForms, ZipForms, 3);
  }

  /** The mail zip column is "Zip". */
  lemma MailZipPick()
    ensures Pick(MailHeaders, MailZip.aliases) == Some("Zip")
  {
    MailHeaderForms(MailHeaders, MailForms);
    ZipAliasForms(MailZip.aliases, ZipForms);
    MailZipNotEarlier();
    PickAt(MailHeaders, MailZip.aliases, MailForms, ZipForms, 3);
  }

  lemma CrmAddressAliasForms()
    ensures forall i :: 0 <= i < |CrmAddress.aliases| ==> Simplify(CrmAddress.aliases[i]) == CrmAddress.aliases[i]
  {
    PlainAliases(CrmAddress.aliases);
  }

  /** The CRM address column is "Address". */
  lemma CrmAddressPick()
    ensures Pick(CrmHeaders, CrmAddress.aliases) == Some("Address")
  {
    CrmHeaderForms(CrmHeaders, CrmForms);
    CrmAddressAliasForms();
    PickAt(CrmHeaders, CrmAddress.aliases, CrmForms, CrmAddress.aliases, 0);
  }

  lemma CrmCityAliasForms()
    ensures forall i :: 0 <= i < |CrmCity.aliases| ==> Simplify(CrmCity.aliases[i]) == CrmCity.aliases[i]
  {
    PlainAliases(CrmCity.aliases);
  }

  lemma CrmCityNotEarlier()
    ensures forall j :: 0 <= j < 1 ==> CrmForms[j] !in CrmCity.aliases
  {
    InitialsDiffer(CrmForms, CrmCity.aliases, 1);
  }

  /** The CRM city column is "city". */
  lemma CrmCityPick()
    ensures Pick(CrmHeaders, CrmCity.aliases) == Some("city")
  {
    CrmHeaderForms(CrmHeaders, CrmForms);
    CrmCityAliasForms();
    CrmCityNotEarlier();
    PickAt(CrmHeaders, CrmCity.aliases, CrmForms, CrmCity.aliases, 1);
  }

  lemma CrmStateAliasForms()
    ensures forall i :: 0 <= i < |CrmState.aliases| ==> Simplify(CrmState.aliases[i]) == CrmState.aliases[i]
  {
    PlainAliases(CrmState.aliases);
  }

  lemma CrmStateNotEarlier()
    ensures forall j :: 0 <= j < 2 ==> CrmForms[j] !in CrmState.aliases
  {
    InitialsDiffer(CrmForms, CrmState.aliases, 2);
  }

  /** The CRM state column is "st". */
  lemma CrmStatePick()
    ensures Pick(CrmHeaders, CrmState.aliases) == Some("st")
  {
    CrmHeaderForms(CrmHeaders, CrmForms);
    CrmStateAliasForms();
    CrmStateNotEarlier();
    PickAt(CrmHeaders, CrmState.aliases, CrmForms, CrmState.aliases, 2);
  }

  lemma CrmZipNotEarlier()
    ensures forall j :: 0 <= j < 3 ==> CrmForms[j] !in ZipForms
  {
    InitialsDiffer(CrmForms, ZipForms, 3);
  }

  /** The CRM zip column is "zipcode". */
  lemma CrmZipPick()
    ensures Pick(CrmHeaders, CrmZip.aliases) == Some("zipcode")
  {
    CrmHeaderForms(CrmHeaders, CrmForms);
    ZipAliasForms(CrmZip.aliases, ZipForms);
    CrmZipNotEarlier();
    PickAt(CrmHeaders, CrmZip.aliases, CrmForms, ZipForms, 3);
  }

  lemma ResolvedColumns(cols: seq<string>)
    requires cols == ["Address", "City", "State", "Zip", "Address", "city", "st", "zipcode"]
    ensures |cols| == 8 && forall k :: 0 <= k < 8 ==> cols[k] != ""
    ensures cols[0] == "Address" && cols[1] == "City" && cols[2] == "State" && cols[3] == "Zip"
    ensures cols[4] == "Address" && cols[5] == "city" && cols[6] == "st" && cols[7] == "zipcode"
  {
  }

  /** Both header rows resolve; the required columns are the ones the example names. */
  lemma ScenarioResolves()
    ensures var r := Resolve(MailHeaders, CrmHeaders);
      && r.Success?
      && r.value.mail.addr == "Address" && r.value.mail.city == "City"
      && r.value.mail.state == "State" && r.value.mail.zip == "Zip"
      && r.value.crm.addr == "Address" && r.value.crm.city == "city"
      && r.value.crm.state == "st" && r.value.crm.zip == "zipcode"
  {
    MailAddressPick();
    MailCityPick();
    MailStatePick();
    MailZipPick();
    CrmAddressPick();
    CrmCityPick();
    CrmStatePick();
    CrmZipPick();
    var cols := ["Address", "City", "State", "Zip", "Address", "city", "st", "zipcode"];
    ResolvedColumns(cols);
    ResolveSucceeds(MailHeaders, CrmHeaders, cols);
  }

  // ---------------------------------------------------------------------------
  // Match keys
  // ---------------------------------------------------------------------------

  /**
   * Text that lower-cases to a single-spaced join of words made of lower-case
   * letters, digits and spaces, with no '&' and no unit marker, is its own
   * cleaned text.
   */
  lemma CanonicalText(t: string, s: string, ps: seq<string>)
    requires Lower(t) == s && Tokens(ps) && s == Text.Join(ps, " ") && '&' !in s
    requires forall k :: 0 <= k < |s| ==> KeptCharacter(WordBoundary, s[k])
    requires NoMarker(WordBoundary, s, "apt") && NoMarker(WordBoundary, s, "unit") && NoMarker(WordBoundary, s, "#")
    requires NoMarker(WordBoundary, s, "ste") && NoMarker(WordBoundary, s, "suite")
    ensures AddressText(WordBoundary, t) == s && Split(s) == ps
  {
    UnitKeysAbsent(s);
    assert Depunctuate(WordBoundary, s) == s;
    JoinSingleSpaced(ps);
    CollapseSingleSpaced(s, 0);
    assert s[0..] == s;
    TrimmedIsStripped(s);
    SplitJoin(ps);
  }

  lemma UnitKeysAbsent(s: string)
    requires NoMarker(WordBoundary, s, "apt") && NoMarker(WordBoundary, s, "unit") && NoMarker(WordBoundary, s, "#")
    requires NoMarker(WordBoundary, s, "ste") && NoMarker(WordBoundary, s, "suite")
    ensures RemoveUnitMarkers(WordBoundary, s, UnitKeys) == s
  {
    assert forall j :: 0 <= j < |UnitKeys| ==> NoMarker(WordBoundary, s, UnitKeys[j]);
    NoMarkersUnchanged(WordBoundary, s, UnitKeys);
  }

  /** Lower-casing "123 Main St" or "123 Main Street" gives the all-lower-case spelling. */
  lemma MainStreetLower(t: string, s: string)
    requires (t == "123 Main St" && s == "123 main st") || (t == "123 Main Street" && s == "123 main street")
    ensures Lower(t) == s
  {
    if t == "123 Main St" {
      assert Lower(t) == s;
    } else {
      assert Lower(t) == s;
    }
  }

  /** "123 main " followed by a street word is the single-spaced join of its three words. */
  lemma NumberedStreetWords(s: string, w: string, ps: seq<string>)
    requires w == "st" || w == "street"
    requires s == "123 main " + w && ps == ["123", "main", w]
    ensures s == Text.Join(ps, " ") && Tokens(ps) && '&' !in s
    ensures forall k :: 0 <= k < |s| ==> KeptCharacter(WordBoundary, s[k])
  {
    assert Text.Join(ps, " ") == "123" + " " + Text.Join(["main", w], " ");
    assert Text.Join(["main", w], " ") == "main" + " " + Text.Join([w], " ");
  }

  lemma MainStNoMarkers(s: string)
    requires s == "123 main st"
    ensures NoMarker(WordBoundary, s, "apt") && NoMarker(WordBoundary, s, "unit") && NoMarker(WordBoundary, s, "#")
    ensures NoMarker(WordBoundary, s, "ste") && NoMarker(WordBoundary, s, "suite")
  {
    NoMarkerWithoutChar(s, "apt", 1);
    NoMarkerWithoutChar(s, "unit", 0);
    NoMarkerWithoutChar(s, "#", 0);
    NoMarkerWithoutChar(s, "ste", 2);
    NoMarkerWithoutChar(s, "suite", 1);
  }

  lemma MainStreetNoMarkers(s: string)
    requires s == "123 main street"
    ensures NoMarker(WordBoundary, s, "apt") && NoMarker(WordBoundary, s, "unit") && NoMarker(WordBoundary, s, "#")
    ensures NoMarker(WordBoundary, s, "ste") && NoMarker(WordBoundary, s, "suite")
  {
    NoMarkerWithoutChar(s, "apt", 1);
    NoMarkerWithoutChar(s, "unit", 0);
    NoMarkerWithoutChar(s, "#", 0);
    MainStreetNoSte(s);
    NoMarkerWithoutChar(s, "suite", 1);
  }

  /** The only 's' of "123 main street" starts "str", not "ste". */
  lemma MainStreetNoSte(s: string)
    requires s == "123 main street"
    ensures NoMarker(WordBoundary, s, "ste")
  {
    assert s == "123 main " + ['s'] + "treet";
    assert s[9..12] == "str";
    assert 's' !in "123 main " && 's' !in "treet";
    NoMarkerAtUniqueInitial(s, "ste", "123 main ", "treet");
  }

  lemma MainStText(t: string)
    requires t == "123 Main St"
    ensures Split(AddressText(WordBoundary, t)) == ["123", "main", "st"]
  {
    var s, ps := "123 main st", ["123", "main", "st"];
    MainStreetLower(t, s);
    NumberedStreetWords(s, "st", ps);
    MainStNoMarkers(s);
    CanonicalText(t, s, ps);
  }

  lemma MainStreetText(t: string)
    requires t == "123 Main Street"
    ensures Split(AddressText(WordBoundary, t)) == ["123", "main", "street"]
  {
    var s, ps := "123 main street", ["123", "main", "street"];
    MainStreetLower(t, s);
    NumberedStreetWords(s, "street", ps);
    MainStreetNoMarkers(s);
    CanonicalText(t, s, ps);
  }

  /** "123 Main St" and "123 Main Street" clean to the same address key. */
  lemma SameStreet(t1: string, t2: string)
    requires t1 == "123 Main St" && t2 == "123 Main Street"
    ensures CleanedAddress(Some(t1), WordBoundary) == CleanedAddress(Some(t2), WordBoundary)
  {
    MainStText(t1);
    MainStreetText(t2);
    StreetWords(["123", "main"], "st");
    AbbreviationMatchesFullWord(t1, t2, WordBoundary, ["123", "main"], "st");
  }

  lemma StreetWords(ws: seq<string>, k: string)
    requires ws == ["123", "main"] && k == "st"
    ensures k in SuffixTable
    ensures ["123", "main", "st"] == ws + [k]
    ensures ["123", "main", "street"] == ws + [SuffixTable[k]]
  {
  }

  const MailRow: Row := map["Address" := "123 Main St", "City" := "Austin", "State" := "TX", "Zip" := "78701"]
  const CrmRow: Row := map["Address" := "123 Main Street", "city" := "austin", "st" := "tx", "zipcode" := "78701-1234"]
  const MailTable: Table := Table(MailHeaders, [MailRow])
  const CrmTable: Table := Table(CrmHeaders, [CrmRow])

  /** A cell already trimmed normalises to its lower-case spelling. */
  lemma NormPlain(t: string, s: string)
    requires Trimmed(t) && Lower(t) == s
    ensures Norm(Some(t)) == s
  {
    TrimmedIsStripped(t);
  }

  /** A trimmed zip of at most five characters is its own five-digit form. */
  lemma ZipAsIs(z: string)
    requires Trimmed(z) && |z| <= 5
    ensures Zip5(Some(z)) == z
  {
    TrimmedIsStripped(z);
    Zip5Bounds(Some(z));
  }

  lemma ShortZip(z: string)
    requires z == "78701"
    ensures Zip5(Some(z)) == z
  {
    ZipAsIs(z);
  }

  lemma LongZip(z: string)
    requires z == "78701-1234"
    ensures Zip5(Some(z)) == "78701"
  {
    assert z == "" + ("78701" + "-" + "1234") + "";
    ZipPlusFour("", "78701", "1234", "");
  }

  lemma ColumnsAreNotKeys(a: string, b: string, c: string, d: string)
    requires (a, b, c, d) in {("Address", "City", "State", "Zip"), ("Address", "city", "st", "zipcode")}
    ensures a !in KeyNames && b !in KeyNames && c !in KeyNames && d !in KeyNames
  {
  }

  /** The key of a keyed dataset's first record, from that record's four cells. */
  lemma FirstKey(t: Table, addr: string, city: string, state: string, zip: string,
                 ta: string, tc: string, ts: string, tz: string)
    requires |t.rows| > 0
    requires addr !in KeyNames && city !in KeyNames && state !in KeyNames && zip !in KeyNames
    requires Cell(t.rows[0], addr) == Some(ta) && Cell(t.rows[0], city) == Some(tc)
    requires Cell(t.rows[0], state) == Some(ts) && Cell(t.rows[0], zip) == Some(tz)
    ensures KeyOf(WithKeys(t, addr, city, state, zip).rows[0])
      == Key(Some(Zip5(Some(tz))), Some(Norm(Some(tc))), Some(Norm(Some(ts))), Some(CleanedAddress(Some(ta), WordBoundary)))
  {
    KeyOfWithKeys(t, addr, city, state, zip, 0);
  }

  lemma MailCells(t: Table)
    requires t == MailTable
    ensures |t.rows| == 1
    ensures Cell(t.rows[0], "Address") == Some("123 Main St") && Cell(t.rows[0], "City") == Some("Austin")
    ensures Cell(t.rows[0], "State") == Some("TX") && Cell(t.rows[0], "Zip") == Some("78701")
  {
  }

  lemma CrmCells(t: Table)
    requires t == CrmTable
    ensures |t.rows| == 1
    ensures Cell(t.rows[0], "Address") == Some("123 Main Street") && Cell(t.rows[0], "city") == Some("austin")
    ensures Cell(t.rows[0], "st") == Some("tx") && Cell(t.rows[0], "zipcode") == Some("78701-1234")
  {
  }

  lemma CityNorm(c: string, nc: string)
    requires (c == "Austin" || c == "austin") && nc == "austin"
    ensures Norm(Some(c)) == nc
  {
    assert Lower(c) == nc;
    NormPlain(c, nc);
  }

  lemma StateNorm(st: string, nst: string)
    requires (st == "TX" || st == "tx") && nst == "tx"
    ensures Norm(Some(st)) == nst
  {
    assert Lower(st) == nst;
    NormPlain(st, nst);
  }

  lemma MailKey(t: Table)
    requires t == MailTable
    ensures KeyOf(WithKeys(t, "Address", "City", "State", "Zip").rows[0])
      == Key(Some("78701"), Some("austin"), Some("tx"), Some(CleanedAddress(Some("123 Main St"), WordBoundary)))
  {
    MailCells(t);
    ColumnsAreNotKeys("Address", "City", "State", "Zip");
    FirstKey(t, "Address", "City", "State", "Zip", "123 Main St", "Austin", "TX", "78701");
    ShortZip("78701");
    CityNorm("Austin", "austin");
    StateNorm("TX", "tx");
  }

  lemma CrmKey(t: Table)
    requires t == CrmTable
    ensures KeyOf(WithKeys(t, "Address", "city", "st", "zipcode").rows[0])
      == Key(Some("78701"), Some("austin"), Some("tx"), Some(CleanedAddress(Some("123 Main Street"), WordBoundary)))
  {
    CrmCells(t);
    ColumnsAreNotKeys("Address", "city", "st", "zipcode");
    FirstKey(t, "Address", "city", "st", "zipcode", "123 Main Street", "austin", "tx", "78701-1234");
    LongZip("78701-1234");
    CityNorm("austin", "austin");
    StateNorm("tx", "tx");
  }

  // ---------------------------------------------------------------------------
  // The match
  // ---------------------------------------------------------------------------

  /** One record on each side with equal keys gives exactly one annotated match. */
  lemma SingleMatch(m: Table, r: Table, c: Columns, amount: string -> int)
    requires |m.rows| == 1 && |r.rows| == 1 && KeyOf(m.rows[0]) == KeyOf(r.rows[0])
    ensures var o := Assemble(m, r, c, amount);
      && |o.rows| == 1 && o.kpis.matches == 1
      && "confidence" in o.rows[0] && o.rows[0]["confidence"] == Confidence
  {
    var mk, ck := Keys(m), Keys(r);
    assert mk[0] == ck[0];
    assert Partners(0, mk[0], ck, 0) == [(0, 0)];
    assert JoinFrom(mk, ck, 1) == [];
    assert JoinFrom(mk, ck, 0) == [(0, 0)] + [];
    AssembleCounts(m, r, c, amount);
    AssembleAnnotated(m, r, c, amount);
  }

  /** A run whose columns resolve to c assembles the keyed datasets under c. */
  lemma MatchIsAssemble(mail: Table, crm: Table, c: Columns, amount: string -> int)
    requires Resolve(mail.columns, crm.columns) == Success(c)
    ensures Match(mail, crm, amount) == Success(Assemble(KeyedMail(mail, c), KeyedCrm(crm, c), c, amount))
  {
  }

  /** Under the resolved columns, the two records of the example have equal keys. */
  lemma ScenarioKeysAgree(c: Columns)
    requires c.mail.addr == "Address" && c.mail.city == "City" && c.mail.state == "State" && c.mail.zip == "Zip"
    requires c.crm.addr == "Address" && c.crm.city == "city" && c.crm.state == "st" && c.crm.zip == "zipcode"
    ensures |KeyedMail(MailTable, c).rows| == 1 && |KeyedCrm(CrmTable, c).rows| == 1
    ensures KeyOf(KeyedMail(MailTable, c).rows[0]) == KeyOf(KeyedCrm(CrmTable, c).rows[0])
  {
    MailKey(MailTable);
    CrmKey(CrmTable);
    SameStreet("123 Main St", "123 Main Street");
    KeyedSizes(MailTable, CrmTable, c);
  }

  /**
   * The worked example: the two records spell their address, city,
   * state and zip differently, under different headers, and produce exactly
   * one match record, with confidence 95.
   */
  lemma ScenarioMatches(amount: string -> int)
    ensures var o := Match(MailTable, CrmTable, amount);
      && o.Success? && |o.value.rows| == 1 && o.value.kpis.matches == 1
      && "confidence" in o.value.rows[0] && o.value.rows[0]["confidence"] == "95"
  {
    ScenarioResolves();
    var c := Resolve(MailHeaders, CrmHeaders).value;
    ScenarioKeysAgree(c);
    SingleMatch(KeyedMail(MailTable, c), KeyedCrm(CrmTable, c), c, amount);
    MatchIsAssemble(MailTable, CrmTable, c, amount);
  }
}

/**
 * Schema resolution: finding, among a dataset's headers, the column that plays
 * a semantic role (address, city, state, zip and a few optional business fields),
 * whatever exact spelling the dataset uses for it.
 */
module Schema {
  import opened Results
  import opened Text

  predicate IsLowerAlnum(c: char) { 'a' <= c <= 'z' || '0' <= c <= '9' }

  /** Drops every character outside a-z and 0-9. */
  function KeepLowerAlnum(s: string): (r: string)
    ensures forall k :: 0 <= k < |r| ==> IsLowerAlnum(r[k])
    ensures |r| <= |s|
  {
    if s == [] then []
    else (if IsLowerAlnum(s[0]) then [s[0]] else []) + KeepLowerAlnum(s[1..])
  }

  /** The simplified form of a header or an alias: lower-cased, then only a-z and 0-9 kept. */
  function Simplify(h: string): (r: string)
    ensures forall k :: 0 <= k < |r| ==> IsLowerAlnum(r[k])
  {
    KeepLowerAlnum(Lower(h))
  }

  /** Each header of the dataset, mapped to its simplified form. */
  function NormColnames(headers: seq<string>): (nmap: map<string, string>)
    ensures forall h :: h in nmap <==> h in headers
    ensures forall h :: h in nmap ==> nmap[h] == Simplify(h)
  {
    map h | h in headers :: Simplify(h)
  }

  /** The simplified forms of the aliases: what a header must simplify to. */
  function Wanted(aliases: seq<string>): set<string> {
    set a | a in aliases :: Simplify(a)
  }

  /** Whether header h stands for a field with these aliases. */
  predicate Qualifies(h: string, aliases: seq<string>) {
    Simplify(h) in Wanted(aliases)
  }

  /** i is the position of the first header that qualifies. */
  ghost predicate IsFirstMatch(headers: seq<string>, aliases: seq<string>, i: int) {
    && 0 <= i < |headers|
    && Qualifies(headers[i], aliases)
    && forall j :: 0 <= j < i ==> !Qualifies(headers[j], aliases)
  }

  /** The scan of the headers, from position i on, for one whose simplified form is wanted. */
  function FirstWanted(headers: seq<string>, nmap: map<string, string>, wanted: set<string>, i: nat): (k: Option<nat>)
    requires i <= |headers|
    requires forall h :: h in headers ==> h in nmap
    ensures k.Some? ==> i <= k.value < |headers| && nmap[headers[k.value]] in wanted
    ensures k.Some? ==> forall j :: i <= j < k.value ==> nmap[headers[j]] !in wanted
    ensures k.None? ==> forall j :: i <= j < |headers| ==> nmap[headers[j]] !in wanted
    decreases |headers| - i
  {
    if i == |headers| then None
    else if nmap[headers[i]] in wanted then Some(i)
    else FirstWanted(headers, nmap, wanted, i + 1)
  }

  /**
   * The column for a field: the first header, in dataset order, whose
   * simplified form is the simplified form of one of the aliases; None when
   * no header qualifies.
   */
  function Pick(headers: seq<string>, aliases: seq<string>): (r: Option<string>)
    ensures r.None? <==> forall i :: 0 <= i < |headers| ==> !Qualifies(headers[i], aliases)
    ensures r.Some? ==> exists i :: IsFirstMatch(headers, aliases, i) && headers[i] == r.value
  {
    var nmap := NormColnames(headers);
    match FirstWanted(headers, nmap, Wanted(aliases), 0)
    case Some(k) => Some(headers[k])
    case None => None
  }

  /** When header k is the first to qualify, it is the one picked. */
  lemma PickIs(headers: seq<string>, aliases: seq<string>, k: nat)
    requires k < |headers| && Qualifies(headers[k], aliases)
    requires forall j :: 0 <= j < k ==> !Qualifies(headers[j], aliases)
    ensures Pick(headers, aliases) == Some(headers[k])
  {
    var r := Pick(headers, aliases);
    assert r.Some?;
    var i :| IsFirstMatch(headers, aliases, i) && headers[i] == r.value;
    assert !(i < k) && !(k < i);
  }

  /**
   * Pick from simplified forms: when the headers simplify to forms and the
   * aliases to aforms, header k is picked when forms[k] is the first of the
   * forms that is among aforms.
   */
  lemma PickAt(headers: seq<string>, aliases: seq<string>, forms: seq<string>, aforms: seq<string>, k: nat)
    requires |forms| == |headers| && forall i :: 0 <= i < |headers| ==> Simplify(headers[i]) == forms[i]
    requires |aforms| == |aliases| && forall i :: 0 <= i < |aliases| ==> Simplify(aliases[i]) == aforms[i]
    requires k < |headers| && forms[k] in aforms
    requires forall j :: 0 <= j < k ==> forms[j] !in aforms
    ensures Pick(headers, aliases) == Some(headers[k])
  {
    WantedOfForms(aliases, aforms);
    PickIs(headers, aliases, k);
  }

  /** A header whose lower-cased form is already lower-case letters and digits simplifies to that form. */
  lemma PlainSimplify(h: string, s: string)
    requires Lower(h) == s && forall k :: 0 <= k < |s| ==> IsLowerAlnum(s[k])
    ensures Simplify(h) == s
  {
    KeepLowerAlnumFixed(s);
  }

  /** Aliases written in lower-case letters and digits are their own simplified forms. */
  lemma PlainAliases(aliases: seq<string>)
    requires forall i, k :: 0 <= i < |aliases| && 0 <= k < |aliases[i]| ==> IsLowerAlnum(aliases[i][k])
    ensures forall i :: 0 <= i < |aliases| ==> Simplify(aliases[i]) == aliases[i]
  {
    forall i | 0 <= i < |aliases|
      ensures Simplify(aliases[i]) == aliases[i]
    {
      var a := aliases[i];
      assert Lower(a) == a;
      PlainSimplify(a, a);
    }
  }

  /** When the aliases simplify, position by position, to forms, the wanted set is the set of those forms. */
  lemma WantedOfForms(aliases: seq<string>, forms: seq<string>)
    requires |aliases| == |forms|
    requires forall i :: 0 <= i < |aliases| ==> Simplify(aliases[i]) == forms[i]
    ensures Wanted(aliases) == set f | f in forms
  {
    forall x | x in Wanted(aliases)
      ensures x in forms
    {
      var a :| a in aliases && Simplify(a) == x;
      var i :| 0 <= i < |aliases| && aliases[i] == a;
      assert forms[i] == x;
    }
    forall x | x in forms
      ensures x in Wanted(aliases)
    {
      var i :| 0 <= i < |forms| && forms[i] == x;
      assert aliases[i] in aliases;
    }
  }

  /** The one error the matcher raises: a required column is absent. */
  datatype SchemaFieldMissing = SchemaFieldMissing(friendly: string, aliases: seq<string>)

  /** The text of the raised error. */
  function Message(e: SchemaFieldMissing): string {
    e.friendly + " column not found. Tried: " + Join(e.aliases, ", ")
  }

  /**
   * A required column: the picked header, or the error naming the field and
   * every alias tried when nothing (or only an empty header) was picked.
   */
  function Require(headers: seq<string>, aliases: seq<string>, friendly: string): (r: Result<string, SchemaFieldMissing>)
    ensures r.Success? ==> Pick(headers, aliases) == Some(r.value) && r.value != ""
    ensures r.Failure? ==> r.error == SchemaFieldMissing(friendly, aliases)
    ensures r.Failure? <==> Pick(headers, aliases) in {None, Some("")}
  {
    var col := Pick(headers, aliases);
    if col.None? || col.value == "" then Failure(SchemaFieldMissing(friendly, aliases))
    else Success(col.value)
  }

  predicate OccursAt(w: string, s: string, i: int) {
    0 <= i <= |s| - |w| && s[i..i + |w|] == w
  }

  /** w occurs in s as a contiguous part. */
  ghost predicate Occurs(w: string, s: string) {
    exists i :: OccursAt(w, s, i)
  }

  lemma {:induction false} JoinMentions(parts: seq<string>, sep: string, k: nat)
    requires k < |parts|
    ensures Occurs(parts[k], Join(parts, sep))
  {
    var r := Join(parts, sep);
    var w := parts[k];
    if |parts| == 1 {
      assert OccursAt(w, r, 0);
    } else if k == 0 {
      assert r == w + (sep + Join(parts[1..], sep));
      assert OccursAt(w, r, 0);
    } else {
      var j := Join(parts[1..], sep);
      JoinMentions(parts[1..], sep, k - 1);
      var i :| OccursAt(w, j, i);
      var off := |parts[0]| + |sep|;
      assert r == (parts[0] + sep) + j;
      assert r[off + i..off + i + |w|] == j[i..i + |w|];
      assert OccursAt(w, r, off + i);
    }
  }

  /** The error text starts with the field's friendly name and mentions every alias tried. */
  lemma MessageNamesFieldAndAliases(e: SchemaFieldMissing)
    ensures e.friendly <= Message(e)
    ensures forall k :: 0 <= k < |e.aliases| ==> Occurs(e.aliases[k], Message(e))
  {
    var m := Message(e);
    var j := Join(e.aliases, ", ");
    var head := e.friendly + " column not found. Tried: ";
    assert m == head + j;
    forall k | 0 <= k < |e.aliases|
      ensures Occurs(e.aliases[k], m)
    {
      var w := e.aliases[k];
      JoinMentions(e.aliases, ", ", k);
      var i :| OccursAt(w, j, i);
      assert m[|head| + i..|head| + i + |w|] == j[i..i + |w|];
      assert OccursAt(w, m, |head| + i);
    }
  }

  lemma {:induction false} KeepLowerAlnumFixed(s: string)
    requires forall k :: 0 <= k < |s| ==> IsLowerAlnum(s[k])
    ensures KeepLowerAlnum(s) == s
  {
    if s != [] {
      KeepLowerAlnumFixed(s[1..]);
    }
  }

  /** A simplified form simplifies to itself. */
  lemma SimplifyIdempotent(h: string)
    ensures Simplify(Simplify(h)) == Simplify(h)
  {
    var r := Simplify(h);
    assert Lower(r) == r;
    KeepLowerAlnumFixed(r);
  }

  /** Spelling variants of one header all reduce to the same simplified form. */
  lemma ZipCodeSpellings(spaced: string, hyphenated: string, snake: string)
    requires spaced == "Zip Code" && hyphenated == "zip-code" && snake == "ZIP_CODE"
    ensures Simplify(spaced) == Simplify(hyphenated) == Simplify(snake) == "zipcode"
  {
    assert Lower(spaced) == "zip" + [' '] + "code";
    SimplifiesAroundSeparator(spaced, ' ');
    assert Lower(hyphenated) == "zip" + ['-'] + "code";
    SimplifiesAroundSeparator(hyphenated, '-');
    assert Lower(snake) == "zip" + ['_'] + "code";
    SimplifiesAroundSeparator(snake, '_');
  }

  /** A header that lower-cases to "zip", one character other than a lower-case letter or digit, and "code" simplifies to "zipcode". */
  lemma SimplifiesAroundSeparator(h: string, c: char)
    requires Lower(h) == "zip" + [c] + "code" && !IsLowerAlnum(c)
    ensures Simplify(h) == "zipcode"
  {
    KeepLowerAlnumFixed("zip");
    KeepLowerAlnumFixed("code");
    KeepDropsOne("zip", c, "code");
  }

  lemma {:induction false} KeepAppend(a: string, b: string)
    ensures KeepLowerAlnum(a + b) == KeepLowerAlnum(a) + KeepLowerAlnum(b)
  {
    if a == [] {
      assert a + b == b;
    } else {
      assert (a + b)[1..] == a[1..] + b;
      KeepAppend(a[1..], b);
    }
  }

  lemma KeepDropsOne(a: string, c: char, b: string)
    requires KeepLowerAlnum(a) == a && KeepLowerAlnum(b) == b && !IsLowerAlnum(c)
    ensures KeepLowerAlnum(a + [c] + b) == a + b
  {
    KeepAppend(a + [c], b);
    KeepAppend(a, [c]);
    assert [c][1..] == [];
  }

  /** A semantic field: its name in error messages and the header spellings accepted for it. */
  datatype Field = Field(friendly: string, aliases: seq<string>)

  const MailAddress := Field("Mail CSV address",
    ["address", "streetaddress", "propertyaddress", "mailingaddress", "addr", "address1", "street"])
  const MailCity := Field("Mail CSV city", ["city", "mailcity", "propertycity"])
  const MailState := Field("Mail CSV state", ["state", "st", "mailstate", "propertystate"])
  const MailZip := Field("Mail CSV zip", ["zip", "zipcode", "zip_code", "postal", "postalcode"])
  const CrmAddress := Field("CRM CSV address",
    ["address", "streetaddress", "propertyaddress", "addr", "address1", "street"])
  const CrmCity := Field("CRM CSV city", ["city"])
  const CrmState := Field("CRM CSV state", ["state", "st"])
  const CrmZip := Field("CRM CSV zip", ["zip", "zipcode", "zip_code", "postal", "postalcode"])

  const MailedOnAliases: seq<string> := ["mailed_on", "maileddate", "sentdate", "date"]
  const CampaignAliases: seq<string> := ["campaign_id", "campaign", "campaignname"]
  const FirstNameAliases: seq<string> := ["first_name", "firstname", "first"]
  const LastNameAliases: seq<string> := ["last_name", "lastname", "last"]
  const DateEnteredAliases: seq<string> := ["date_entered", "datecreated", "created", "lead_date", "open_date"]
  const JobValueAliases: seq<string> := ["job_value", "revenue", "amount", "value", "jobamount"]

  function RequireField(headers: seq<string>, f: Field): Result<string, SchemaFieldMissing> {
    Require(headers, f.aliases, f.friendly)
  }

  /** The columns resolved on the mailing list. */
  datatype MailColumns = MailColumns(
    addr: string, city: string, state: string, zip: string,
    mailedOn: Option<string>, campaign: Option<string>)

  /** The columns resolved on the CRM list. */
  datatype CrmColumns = CrmColumns(
    addr: string, city: string, state: string, zip: string,
    first: Option<string>, last: Option<string>,
    dateEntered: Option<string>, jobValue: Option<string>)

  datatype Columns = Columns(mail: MailColumns, crm: CrmColumns)

  /** The required fields, in the order they are resolved: the mailing list's four, then the CRM list's four. */
  function RequiredChecks(mailHeaders: seq<string>, crmHeaders: seq<string>): seq<(seq<string>, Field)> {
    [ (mailHeaders, MailAddress), (mailHeaders, MailCity), (mailHeaders, MailState), (mailHeaders, MailZip),
      (crmHeaders, CrmAddress), (crmHeaders, CrmCity), (crmHeaders, CrmState), (crmHeaders, CrmZip) ]
  }

  /** The field of this check cannot be resolved among these headers. */
  predicate Missing(check: (seq<string>, Field)) {
    RequireField(check.0, check.1).Failure?
  }

  /** The outcome of resolving each required field, in order. */
  function Resolutions(checks: seq<(seq<string>, Field)>): seq<Result<string, SchemaFieldMissing>> {
    seq(|checks|, k requires 0 <= k < |checks| => RequireField(checks[k].0, checks[k].1))
  }

  /** The position of the first failed resolution from position i on. */
  function FirstFailure(rs: seq<Result<string, SchemaFieldMissing>>, i: nat): (r: Option<nat>)
    requires i <= |rs|
    ensures r.Some? ==> i <= r.value < |rs| && rs[r.value].Failure?
    ensures r.Some? ==> forall j :: i <= j < r.value ==> rs[j].Success?
    ensures r.None? ==> forall j :: i <= j < |rs| ==> rs[j].Success?
    decreases |rs| - i
  {
    if i == |rs| then None
    else if rs[i].Failure? then Some(i)
    else FirstFailure(rs, i + 1)
  }

  /** The position of the first required field, from position i on, that cannot be resolved. */
  function FirstMissing(checks: seq<(seq<string>, Field)>, i: nat): Option<nat>
    requires i <= |checks|
  {
    FirstFailure(Resolutions(checks), i)
  }

  /** FirstMissing finds a missing field, and every field before it resolves; None means that none is missing. */
  lemma FirstMissingMeans(checks: seq<(seq<string>, Field)>, i: nat)
    requires i <= |checks|
    ensures var r := FirstMissing(checks, i);
      && (r.Some? ==> i <= r.value < |checks| && Missing(checks[r.value]))
      && (r.Some? ==> forall j :: i <= j < r.value ==> !Missing(checks[j]))
      && (r.None? ==> forall j :: i <= j < |checks| ==> !Missing(checks[j]))
  {
    var rs := Resolutions(checks);
    forall j | 0 <= j < |checks|
      ensures Missing(checks[j]) <==> rs[j].Failure?
    {
      assert rs[j] == RequireField(checks[j].0, checks[j].1);
    }
  }

  /** The first missing field, when there is one, fails with its own name and aliases. */
  lemma FirstMissingError(checks: seq<(seq<string>, Field)>)
    ensures var m := FirstMissing(checks, 0);
      m.Some? ==> Resolutions(checks)[m.value] == Failure(SchemaFieldMissing(checks[m.value].1.friendly, checks[m.value].1.aliases))
  {
    var m := FirstMissing(checks, 0);
    if m.Some? {
      assert Resolutions(checks)[m.value] == RequireField(checks[m.value].0, checks[m.value].1);
    }
  }

  /**
   * The required columns, taken one after another from the resolutions: the
   * first one that failed raises its error, and no later one is looked at.
   */
  function RequireAll(rs: seq<Result<string, SchemaFieldMissing>>, i: nat): (r: Result<seq<string>, SchemaFieldMissing>)
    requires i <= |rs|
    ensures r.Success? ==> |r.value| == |rs| - i
    decreases |rs| - i
  {
    if i == |rs| then Success([])
    else
      match rs[i]
      case Failure(e) => Failure(e)
      case Success(col) =>
        match RequireAll(rs, i + 1)
        case Failure(e) => Failure(e)
        case Success(rest) => Success([col] + rest)
  }

  /** Taking the columns from position i on fails exactly when a resolution there failed, with the first failure's error. */
  lemma {:induction false} RequireAllFirstFailure(rs: seq<Result<string, SchemaFieldMissing>>, i: nat)
    requires i <= |rs|
    ensures var r, miss := RequireAll(rs, i), FirstFailure(rs, i);
      && (r.Failure? <==> miss.Some?)
      && (r.Failure? ==> rs[miss.value] == Failure(r.error))
    decreases |rs| - i
  {
    if i < |rs| && rs[i].Success? {
      RequireAllFirstFailure(rs, i + 1);
    }
  }

  /** When every resolution from position i on succeeded, column k is the value of resolution i + k. */
  lemma {:induction false} RequireAllColumn(rs: seq<Result<string, SchemaFieldMissing>>, i: nat, k: nat)
    requires i <= |rs| && RequireAll(rs, i).Success? && k < |RequireAll(rs, i).value|
    ensures rs[i + k] == Success(RequireAll(rs, i).value[k])
    decreases k
  {
    var r, rest := RequireAll(rs, i), RequireAll(rs, i + 1);
    assert rs[i].Success? && rest.Success? && r.value == [rs[i].value] + rest.value;
    if k > 0 {
      RequireAllColumn(rs, i + 1, k - 1);
      assert r.value[k] == rest.value[k - 1] && (i + 1) + (k - 1) == i + k;
    }
  }

  /** Column k of a successful resolution is the header picked for field k, and is not empty. */
  lemma ResolvedColumn(checks: seq<(seq<string>, Field)>, c: seq<string>, k: nat, headers: seq<string>, f: Field)
    requires RequireAll(Resolutions(checks), 0) == Success(c) && k < |checks| && checks[k] == (headers, f)
    ensures k < |c| && Pick(headers, f.aliases) == Some(c[k]) && c[k] != ""
  {
    var rs := Resolutions(checks);
    RequireAllColumn(rs, 0, k);
    assert rs[k] == RequireField(headers, f);
  }

  /**
   * Resolution of every field of both datasets. It fails with the error of the
   * first required field, in source order, that cannot be resolved; otherwise
   * every required column is the one picked for it and every optional one is
   * what Pick finds (possibly nothing).
   */
  function Resolve(mailHeaders: seq<string>, crmHeaders: seq<string>): (r: Result<Columns, SchemaFieldMissing>)
    ensures var checks := RequiredChecks(mailHeaders, crmHeaders);
      var miss := FirstMissing(checks, 0);
      && (r.Failure? <==> miss.Some?)
      && (r.Failure? ==> r.error == SchemaFieldMissing(checks[miss.value].1.friendly, checks[miss.value].1.aliases))
    ensures r.Success? ==>
      && Pick(mailHeaders, MailAddress.aliases) == Some(r.value.mail.addr)
      && Pick(mailHeaders, MailCity.aliases) == Some(r.value.mail.city)
      && Pick(mailHeaders, MailState.aliases) == Some(r.value.mail.state)
      && Pick(mailHeaders, MailZip.aliases) == Some(r.value.mail.zip)
      && Pick(crmHeaders, CrmAddress.aliases) == Some(r.value.crm.addr)
      && Pick(crmHeaders, CrmCity.aliases) == Some(r.value.crm.city)
      && Pick(crmHeaders, CrmState.aliases) == Some(r.value.crm.state)
      && Pick(crmHeaders, CrmZip.aliases) == Some(r.value.crm.zip)
      && r.value.mail.mailedOn == Pick(mailHeaders, MailedOnAliases)
      && r.value.mail.campaign == Pick(mailHeaders, CampaignAliases)
      && r.value.crm.first == Pick(crmHeaders, FirstNameAliases)
      && r.value.crm.last == Pick(crmHeaders, LastNameAliases)
      && r.value.crm.dateEntered == Pick(crmHeaders, DateEnteredAliases)
      && r.value.crm.jobValue == Pick(crmHeaders, JobValueAliases)
  {
    var checks := RequiredChecks(mailHeaders, crmHeaders);
    RequireAllFirstFailure(Resolutions(checks), 0);
    FirstMissingError(checks);
    var c :- RequireAll(Resolutions(checks), 0);
    ChecksAre(mailHeaders, crmHeaders, checks);
    ResolvedColumn(checks, c, 0, mailHeaders, MailAddress);
    ResolvedColumn(checks, c, 1, mailHeaders, MailCity);
    ResolvedColumn(checks, c, 2, mailHeaders, MailState);
    ResolvedColumn(checks, c, 3, mailHeaders, MailZip);
    ResolvedColumn(checks, c, 4, crmHeaders, CrmAddress);
    ResolvedColumn(checks, c, 5, crmHeaders, CrmCity);
    ResolvedColumn(checks, c, 6, crmHeaders, CrmState);
    ResolvedColumn(checks, c, 7, crmHeaders, CrmZip);
    Success(Columns(
      MailColumns(c[0], c[1], c[2], c[3],
        Pick(mailHeaders, MailedOnAliases), Pick(mailHeaders, CampaignAliases)),
      CrmColumns(c[4], c[5], c[6], c[7],
        Pick(crmHeaders, FirstNameAliases), Pick(crmHeaders, LastNameAliases),
        Pick(crmHeaders, DateEnteredAliases), Pick(crmHeaders, JobValueAliases))))
  }

  /** A required field whose column is picked under a non-empty header is not missing. */
  lemma FieldPresent(headers: seq<string>, f: Field, col: string)
    requires Pick(headers, f.aliases) == Some(col) && col != ""
    ensures !Missing((headers, f)) && RequireField(headers, f) == Success(col)
  {
  }

  /** The check at position k then resolves to the picked column. */
  lemma FieldResolves(checks: seq<(seq<string>, Field)>, k: nat, headers: seq<string>, f: Field, col: string)
    requires k < |checks| && checks[k] == (headers, f)
    requires Pick(headers, f.aliases) == Some(col) && col != ""
    ensures Resolutions(checks)[k] == Success(col)
  {
    FieldPresent(headers, f, col);
    assert Resolutions(checks)[k] == RequireField(headers, f);
  }

  /** Eight resolutions none of which failed have no first failure. */
  lemma NoneFailed(rs: seq<Result<string, SchemaFieldMissing>>)
    requires |rs| == 8
    requires rs[0].Success? && rs[1].Success? && rs[2].Success? && rs[3].Success?
    requires rs[4].Success? && rs[5].Success? && rs[6].Success? && rs[7].Success?
    ensures FirstFailure(rs, 0) == None
  {
    assert FirstFailure(rs, 7) == None;
    assert FirstFailure(rs, 5) == None;
    assert FirstFailure(rs, 3) == None;
    assert FirstFailure(rs, 1) == None;
  }

  lemma ChecksAre(mailHeaders: seq<string>, crmHeaders: seq<string>, checks: seq<(seq<string>, Field)>)
    requires checks == RequiredChecks(mailHeaders, crmHeaders)
    ensures |checks| == 8
    ensures checks[0] == (mailHeaders, MailAddress) && checks[1] == (mailHeaders, MailCity)
    ensures checks[2] == (mailHeaders, MailState) && checks[3] == (mailHeaders, MailZip)
    ensures checks[4] == (crmHeaders, CrmAddress) && checks[5] == (crmHeaders, CrmCity)
    ensures checks[6] == (crmHeaders, CrmState) && checks[7] == (crmHeaders, CrmZip)
  {
  }

  /**
   * Resolution succeeds when every required field picks a non-empty header,
   * and its required columns are then the picked ones.
   */
  lemma ResolveSucceeds(mailHeaders: seq<string>, crmHeaders: seq<string>, cols: seq<string>)
    requires |cols| == 8 && forall k :: 0 <= k < 8 ==> cols[k] != ""
    requires Pick(mailHeaders, MailAddress.aliases) == Some(cols[0])
    requires Pick(mailHeaders, MailCity.aliases) == Some(cols[1])
    requires Pick(mailHeaders, MailState.aliases) == Some(cols[2])
    requires Pick(mailHeaders, MailZip.aliases) == Some(cols[3])
    requires Pick(crmHeaders, CrmAddress.aliases) == Some(cols[4])
    requires Pick(crmHeaders, CrmCity.aliases) == Some(cols[5])
    requires Pick(crmHeaders, CrmState.aliases) == Some(cols[6])
    requires Pick(crmHeaders, CrmZip.aliases) == Some(cols[7])
    ensures var r := Resolve(mailHeaders, crmHeaders);
      && r.Success?
      && r.value.mail.addr == cols[0] && r.value.mail.city == cols[1]
      && r.value.mail.state == cols[2] && r.value.mail.zip == cols[3]
      && r.value.crm.addr == cols[4] && r.value.crm.city == cols[5]
      && r.value.crm.state == cols[6] && r.value.crm.zip == cols[7]
  {
    var checks := RequiredChecks(mailHeaders, crmHeaders);
    ChecksAre(mailHeaders, crmHeaders, checks);
    FieldResolves(checks, 0, mailHeaders, MailAddress, cols[0]);
    FieldResolves(checks, 1, mailHeaders, MailCity, cols[1]);
    FieldResolves(checks, 2, mailHeaders, MailState, cols[2]);
    FieldResolves(checks, 3, mailHeaders, MailZip, cols[3]);
    FieldResolves(checks, 4, crmHeaders, CrmAddress, cols[4]);
    FieldResolves(checks, 5, crmHeaders, CrmCity, cols[5]);
    FieldResolves(checks, 6, crmHeaders, CrmState, cols[6]);
    FieldResolves(checks, 7, crmHeaders, CrmZip, cols[7]);
    NoneFailed(Resolutions(checks));
    assert FirstMissing(checks, 0) == None;
  }
}

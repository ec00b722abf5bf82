/**
 * The matcher run: resolve the columns of both datasets, add the normalised
 * key columns, inner-join the datasets on the key, project the matched
 * records onto the output columns and summarise the run.
 */
module Matcher {
  import opened Results
  import opened Text
  import opened Schema
  import opened Normalize

  /** A record: column name to cell text. A column with no entry holds a missing (NaN) cell. */
  type Row = map<string, string>

  /** A dataset as read from CSV: its header names, in order, and its records. */
  datatype Table = Table(columns: seq<string>, rows: seq<Row>)

  function Cell(r: Row, c: string): Option<string> {
    if c in r then Some(r[c]) else None
  }

  /** `t[name] = values`: the column is overwritten, or appended when it is new. */
  function SetColumn(t: Table, name: string, values: seq<string>): (u: Table)
    requires |values| == |t.rows|
    ensures |u.rows| == |t.rows|
    ensures u.columns == if name in t.columns then t.columns else t.columns + [name]
    ensures forall c :: c in u.columns <==> c in t.columns || c == name
    ensures forall i, c :: 0 <= i < |u.rows| ==>
      Cell(u.rows[i], c) == if c == name then Some(values[i]) else Cell(t.rows[i], c)
  {
    Table(if name in t.columns then t.columns else t.columns + [name],
      seq(|t.rows|, i requires 0 <= i < |t.rows| => t.rows[i][name := values[i]]))
  }

  // ---------------------------------------------------------------------------
  // Key columns
  // ---------------------------------------------------------------------------

  /** The names of the key columns, in the order the join lists them. */
  const KeyNames: seq<string> := ["_zip", "_city", "_state", "_addr"]

  function AddressValues(t: Table, col: string): seq<string> {
    seq(|t.rows|, i requires 0 <= i < |t.rows| => CleanedAddress(Cell(t.rows[i], col), WordBoundary))
  }

  function NormValues(t: Table, col: string): seq<string> {
    seq(|t.rows|, i requires 0 <= i < |t.rows| => Norm(Cell(t.rows[i], col)))
  }

  function ZipValues(t: Table, col: string): seq<string> {
    seq(|t.rows|, i requires 0 <= i < |t.rows| => Zip5(Cell(t.rows[i], col)))
  }

  /** The dataset with its four key columns added, in the order they are assigned. */
  function WithKeys(t: Table, addr: string, city: string, state: string, zip: string): Table {
    var t1 := SetColumn(t, "_addr", AddressValues(t, addr));
    var t2 := SetColumn(t1, "_city", NormValues(t1, city));
    var t3 := SetColumn(t2, "_state", NormValues(t2, state));
    SetColumn(t3, "_zip", ZipValues(t3, zip))
  }

  /** The address column mapped through the clean-up, record by record. */
  method CleanAddresses(t: Table, col: string) returns (values: seq<string>)
    ensures values == AddressValues(t, col)
  {
    values := [];
    for i := 0 to |t.rows|
      invariant |values| == i
      invariant forall k :: 0 <= k < i ==> values[k] == CleanedAddress(Cell(t.rows[k], col), WordBoundary)
    {
      var a := CleanAddress(Cell(t.rows[i], col), WordBoundary);
      values := values + [a];
    }
  }

  method AddKeys(t: Table, addr: string, city: string, state: string, zip: string) returns (u: Table)
    ensures u == WithKeys(t, addr, city, state, zip)
  {
    var a := CleanAddresses(t, addr);
    u := SetColumn(t, "_addr", a);
    u := SetColumn(u, "_city", NormValues(u, city));
    u := SetColumn(u, "_state", NormValues(u, state));
    u := SetColumn(u, "_zip", ZipValues(u, zip));
  }

  /** The join key of a record, read from its key columns. */
  datatype Key = Key(zip: Option<string>, city: Option<string>, state: Option<string>, addr: Option<string>)

  function KeyOf(r: Row): Key {
    Key(Cell(r, "_zip"), Cell(r, "_city"), Cell(r, "_state"), Cell(r, "_addr"))
  }

  function Keys(t: Table): (ks: seq<Key>)
    ensures |ks| == |t.rows|
  {
    seq(|t.rows|, i requires 0 <= i < |t.rows| => KeyOf(t.rows[i]))
  }

  /** The key of a record is built from its resolved address, city, state and zip cells. */
  lemma KeyOfWithKeys(t: Table, addr: string, city: string, state: string, zip: string, i: nat)
    requires i < |t.rows|
    requires addr !in KeyNames && city !in KeyNames && state !in KeyNames && zip !in KeyNames
    ensures var r := t.rows[i];
      KeyOf(WithKeys(t, addr, city, state, zip).rows[i])
        == Key(Some(Zip5(Cell(r, zip))), Some(Norm(Cell(r, city))), Some(Norm(Cell(r, state))),
          Some(CleanedAddress(Cell(r, addr), WordBoundary)))
  {
    var t1 := SetColumn(t, "_addr", AddressValues(t, addr));
    var t2 := SetColumn(t1, "_city", NormValues(t1, city));
    var t3 := SetColumn(t2, "_state", NormValues(t2, state));
    AddressKey(t, addr, i);
    CityKey(t, t1, city, i);
    StateKey(t, t1, t2, state, i);
    ZipKey(t, t1, t2, t3, zip, i);
  }

  lemma AddressKey(t: Table, addr: string, i: nat)
    requires i < |t.rows|
    ensures var t1 := SetColumn(t, "_addr", AddressValues(t, addr));
      Cell(t1.rows[i], "_addr") == Some(CleanedAddress(Cell(t.rows[i], addr), WordBoundary))
  {
  }

  lemma CityKey(t: Table, t1: Table, city: string, i: nat)
    requires i < |t.rows| == |t1.rows| && city != "_addr"
    requires forall c :: c != "_addr" ==> Cell(t1.rows[i], c) == Cell(t.rows[i], c)
    ensures var t2 := SetColumn(t1, "_city", NormValues(t1, city));
      && Cell(t2.rows[i], "_city") == Some(Norm(Cell(t.rows[i], city)))
      && forall c :: c != "_addr" && c != "_city" ==> Cell(t2.rows[i], c) == Cell(t.rows[i], c)
  {
  }

  lemma StateKey(t: Table, t1: Table, t2: Table, state: string, i: nat)
    requires i < |t.rows| == |t2.rows| && state != "_addr" && state != "_city"
    requires forall c :: c != "_addr" && c != "_city" ==> Cell(t2.rows[i], c) == Cell(t.rows[i], c)
    ensures var t3 := SetColumn(t2, "_state", NormValues(t2, state));
      && Cell(t3.rows[i], "_state") == Some(Norm(Cell(t.rows[i], state)))
      && forall c :: c != "_addr" && c != "_city" && c != "_state" ==> Cell(t3.rows[i], c) == Cell(t.rows[i], c)
  {
  }

  lemma ZipKey(t: Table, t1: Table, t2: Table, t3: Table, zip: string, i: nat)
    requires i < |t.rows| == |t3.rows| && zip != "_addr" && zip != "_city" && zip != "_state"
    requires forall c :: c != "_addr" && c != "_city" && c != "_state" ==> Cell(t3.rows[i], c) == Cell(t.rows[i], c)
    ensures var t4 := SetColumn(t3, "_zip", ZipValues(t3, zip));
      Cell(t4.rows[i], "_zip") == Some(Zip5(Cell(t.rows[i], zip)))
  {
    var vs := ZipValues(t3, zip);
    SetColumnCell(t3, "_zip", vs, i);
    assert vs[i] == Zip5(Cell(t3.rows[i], zip)) && Cell(t3.rows[i], zip) == Cell(t.rows[i], zip);
  }

  lemma SetColumnCell(t: Table, name: string, values: seq<string>, i: nat)
    requires |values| == |t.rows| && i < |t.rows|
    ensures Cell(SetColumn(t, name, values).rows[i], name) == Some(values[i])
  {
  }

  // ---------------------------------------------------------------------------
  // Join
  // ---------------------------------------------------------------------------

  /** CRM positions from j on whose key is k, each paired with mail position i. */
  function Partners(i: nat, k: Key, ck: seq<Key>, j: nat): seq<(nat, nat)>
    requires j <= |ck|
    decreases |ck| - j
  {
    if j == |ck| then []
    else (if ck[j] == k then [(i, j)] else []) + Partners(i, k, ck, j + 1)
  }

  function JoinFrom(mk: seq<Key>, ck: seq<Key>, i: nat): seq<(nat, nat)>
    requires i <= |mk|
    decreases |mk| - i
  {
    if i == |mk| then [] else Partners(i, mk[i], ck, 0) + JoinFrom(mk, ck, i + 1)
  }

  /** The inner join on equal keys: every (mail, CRM) position pair whose keys agree, mail-major. */
  function Join(mk: seq<Key>, ck: seq<Key>): seq<(nat, nat)> {
    JoinFrom(mk, ck, 0)
  }

  predicate Before(p: (nat, nat), q: (nat, nat)) {
    p.0 < q.0 || (p.0 == q.0 && p.1 < q.1)
  }

  predicate Ascending(ps: seq<(nat, nat)>) {
    forall a, b :: 0 <= a < b < |ps| ==> Before(ps[a], ps[b])
  }

  predicate Distinct(ps: seq<(nat, nat)>) {
    forall a, b :: 0 <= a < b < |ps| ==> ps[a] != ps[b]
  }

  lemma AscendingAppend(x: seq<(nat, nat)>, y: seq<(nat, nat)>)
    requires Ascending(x) && Ascending(y)
    requires forall p, q :: p in x && q in y ==> Before(p, q)
    ensures Ascending(x + y)
  {
    forall a, b | 0 <= a < b < |x + y|
      ensures Before((x + y)[a], (x + y)[b])
    {
      if b < |x| {
        assert (x + y)[a] == x[a] && (x + y)[b] == x[b];
      } else if a >= |x| {
        assert (x + y)[a] == y[a - |x|] && (x + y)[b] == y[b - |x|];
      } else {
        assert (x + y)[a] in x && (x + y)[b] in y;
      }
    }
  }

  lemma PartnersSpec(i: nat, k: Key, ck: seq<Key>, j: nat)
    requires j <= |ck|
    ensures forall p :: p in Partners(i, k, ck, j) <==> p.0 == i && j <= p.1 < |ck| && ck[p.1] == k
    ensures |Partners(i, k, ck, j)| <= |ck| - j
    ensures Ascending(Partners(i, k, ck, j))
  {
    PartnersMembers(i, k, ck, j);
    PartnersAscending(i, k, ck, j);
  }

  lemma {:induction false} PartnersMembers(i: nat, k: Key, ck: seq<Key>, j: nat)
    requires j <= |ck|
    ensures forall p :: p in Partners(i, k, ck, j) <==> p.0 == i && j <= p.1 < |ck| && ck[p.1] == k
    ensures |Partners(i, k, ck, j)| <= |ck| - j
    decreases |ck| - j
  {
    if j < |ck| {
      PartnersMembers(i, k, ck, j + 1);
      var head: seq<(nat, nat)> := if ck[j] == k then [(i, j)] else [];
      assert Partners(i, k, ck, j) == head + Partners(i, k, ck, j + 1);
    }
  }

  lemma {:induction false} PartnersAscending(i: nat, k: Key, ck: seq<Key>, j: nat)
    requires j <= |ck|
    ensures Ascending(Partners(i, k, ck, j))
    decreases |ck| - j
  {
    if j < |ck| {
      PartnersAscending(i, k, ck, j + 1);
      PartnersMembers(i, k, ck, j + 1);
      var head: seq<(nat, nat)> := if ck[j] == k then [(i, j)] else [];
      var tail := Partners(i, k, ck, j + 1);
      assert Partners(i, k, ck, j) == head + tail;
      AscendingAppend(head, tail);
    }
  }

  lemma {:induction false} JoinFromSpec(mk: seq<Key>, ck: seq<Key>, i: nat)
    requires i <= |mk|
    ensures forall p :: p in JoinFrom(mk, ck, i) <==> i <= p.0 < |mk| && p.1 < |ck| && mk[p.0] == ck[p.1]
    ensures |JoinFrom(mk, ck, i)| <= (|mk| - i) * |ck|
    ensures Ascending(JoinFrom(mk, ck, i))
    decreases |mk| - i
  {
    if i < |mk| {
      JoinFromSpec(mk, ck, i + 1);
      PartnersSpec(i, mk[i], ck, 0);
      var head, tail := Partners(i, mk[i], ck, 0), JoinFrom(mk, ck, i + 1);
      assert (|mk| - i) * |ck| == |ck| + (|mk| - (i + 1)) * |ck|;
      AscendingAppend(head, tail);
    }
  }

  /**
   * A pair is in the join exactly when both positions exist and their keys
   * agree; the pairs come in strictly ascending (mail, CRM) order, so none
   * repeats, and there are at most as many as mail rows times CRM rows.
   */
  lemma JoinSpec(mk: seq<Key>, ck: seq<Key>)
    ensures forall p :: p in Join(mk, ck) <==> p.0 < |mk| && p.1 < |ck| && mk[p.0] == ck[p.1]
    ensures Ascending(Join(mk, ck)) && Distinct(Join(mk, ck))
    ensures |Join(mk, ck)| <= |mk| * |ck|
  {
    JoinFromSpec(mk, ck, 0);
  }

  function Swap(ps: seq<(nat, nat)>): (qs: seq<(nat, nat)>)
    ensures |qs| == |ps|
  {
    seq(|ps|, k requires 0 <= k < |ps| => (ps[k].1, ps[k].0))
  }

  lemma {:induction false} DistinctMultiset(ps: seq<(nat, nat)>, p: (nat, nat))
    requires Distinct(ps)
    ensures multiset(ps)[p] == if p in ps then 1 else 0
  {
    if ps != [] {
      assert ps == [ps[0]] + ps[1..];
      assert Distinct(ps[1..]) by {
        forall a, b | 0 <= a < b < |ps[1..]| ensures ps[1..][a] != ps[1..][b] {
          assert ps[1..][a] == ps[a + 1] && ps[1..][b] == ps[b + 1];
        }
      }
      DistinctMultiset(ps[1..], p);
      assert ps[0] !in ps[1..] by {
        forall b | 0 <= b < |ps[1..]| ensures ps[1..][b] != ps[0] {
          assert ps[1..][b] == ps[b + 1];
        }
      }
    }
  }

  /** Joining CRM to mail gives the same matches as joining mail to CRM, with each pair reversed. */
  lemma JoinSymmetric(mk: seq<Key>, ck: seq<Key>)
    ensures multiset(Swap(Join(mk, ck))) == multiset(Join(ck, mk))
  {
    var x, y := Swap(Join(mk, ck)), Join(ck, mk);
    JoinSpec(mk, ck);
    JoinSpec(ck, mk);
    var j := Join(mk, ck);
    assert Distinct(x) by {
      forall a, b | 0 <= a < b < |x| ensures x[a] != x[b] {
        assert j[a] != j[b];
      }
    }
    forall p
      ensures multiset(x)[p] == multiset(y)[p]
    {
      DistinctMultiset(x, p);
      DistinctMultiset(y, p);
      if p in x {
        var a :| 0 <= a < |x| && x[a] == p;
        assert j[a] in j;
      }
      if p in y {
        assert (p.1, p.0) in j;
        var a :| 0 <= a < |j| && j[a] == (p.1, p.0);
        assert x[a] == p;
      }
    }
  }

  // ---------------------------------------------------------------------------
  // Merged columns
  // ---------------------------------------------------------------------------

  /** Where a column of the merged frame takes its cells from. */
  datatype Origin = FromMail(col: string) | FromCrm(col: string) | Constant(value: string)

  const Confidence: string := "95"
  const MatchNote: string := "exact-normalized (addr+city+state+zip)"

  /** A non-key mail column that the CRM frame also has is suffixed "_mail". */
  function MailName(m: string, crmColumns: seq<string>): string {
    if m !in KeyNames && m in crmColumns then m + "_mail" else m
  }

  /** A CRM column that the mail frame also has is suffixed "_crm". */
  function CrmName(c: string, mailColumns: seq<string>): string {
    if c in mailColumns then c + "_crm" else c
  }

  function MailLayout(mcols: seq<string>, ccols: seq<string>): seq<(string, Origin)> {
    seq(|mcols|, k requires 0 <= k < |mcols| => (MailName(mcols[k], ccols), FromMail(mcols[k])))
  }

  /** The CRM frame's non-key columns, in order; its key columns merge into the mail frame's. */
  function CrmLayout(ccols: seq<string>, mcols: seq<string>): seq<(string, Origin)> {
    if ccols == [] then []
    else
      (if ccols[0] in KeyNames then [] else [(CrmName(ccols[0], mcols), FromCrm(ccols[0]))])
        + CrmLayout(ccols[1..], mcols)
  }

  /** The columns of the merged frame, then the two annotation columns. */
  function JoinedLayout(mcols: seq<string>, ccols: seq<string>): seq<(string, Origin)> {
    MailLayout(mcols, ccols) + CrmLayout(ccols, mcols)
      + [("confidence", Constant(Confidence)), ("match_notes", Constant(MatchNote))]
  }

  function Names(layout: seq<(string, Origin)>): (ns: seq<string>)
    ensures |ns| == |layout|
  {
    seq(|layout|, k requires 0 <= k < |layout| => layout[k].0)
  }

  /** Where the column called n takes its cells from; the last column of that name wins. */
  function Find(layout: seq<(string, Origin)>, n: string): (o: Option<Origin>)
    ensures o.Some? <==> n in Names(layout)
    ensures o.Some? ==> (n, o.value) in layout
  {
    if layout == [] then None
    else if layout[|layout| - 1].0 == n then
      var e := layout[|layout| - 1];
      assert e == (n, e.1) && e in layout && Names(layout)[|layout| - 1] == n;
      Some(e.1)
    else
      var o := Find(layout[..|layout| - 1], n);
      assert Names(layout) == Names(layout[..|layout| - 1]) + [layout[|layout| - 1].0];
      o
  }

  lemma NamesAppend(x: seq<(string, Origin)>, y: seq<(string, Origin)>)
    ensures Names(x + y) == Names(x) + Names(y)
  {
  }

  lemma MailNames(mcols: seq<string>, ccols: seq<string>)
    ensures forall n :: n in Names(MailLayout(mcols, ccols)) <==> exists m :: m in mcols && n == MailName(m, ccols)
  {
    var ns := Names(MailLayout(mcols, ccols));
    forall n | exists m :: m in mcols && n == MailName(m, ccols)
      ensures n in ns
    {
      var m :| m in mcols && n == MailName(m, ccols);
      var k :| 0 <= k < |mcols| && mcols[k] == m;
      assert ns[k] == n;
    }
  }

  lemma {:induction false} CrmNames(ccols: seq<string>, mcols: seq<string>)
    ensures forall n :: n in Names(CrmLayout(ccols, mcols)) <==>
      exists c :: c in ccols && c !in KeyNames && n == CrmName(c, mcols)
  {
    if ccols != [] {
      CrmNames(ccols[1..], mcols);
      var c0 := ccols[0];
      var head: seq<(string, Origin)> := if c0 in KeyNames then [] else [(CrmName(c0, mcols), FromCrm(c0))];
      NamesAppend(head, CrmLayout(ccols[1..], mcols));
      assert CrmLayout(ccols, mcols) == head + CrmLayout(ccols[1..], mcols);
      assert Names(head) == if c0 in KeyNames then [] else [CrmName(c0, mcols)];
      forall n
        ensures n in Names(CrmLayout(ccols, mcols)) <==>
          exists c :: c in ccols && c !in KeyNames && n == CrmName(c, mcols)
      {
        if exists c :: c in ccols && c !in KeyNames && n == CrmName(c, mcols) {
          var c :| c in ccols && c !in KeyNames && n == CrmName(c, mcols);
          if c != c0 {
            assert c in ccols[1..];
          }
        }
        if n in Names(head) {
          assert n == CrmName(c0, mcols) && c0 in ccols;
        }
        if n in Names(CrmLayout(ccols[1..], mcols)) {
          var c :| c in ccols[1..] && c !in KeyNames && n == CrmName(c, mcols);
          assert c in ccols;
        }
      }
    }
  }

  /**
   * The merged frame's columns: every mail column (suffixed "_mail" when it is
   * not a key and the CRM frame has it too), every non-key CRM column
   * (suffixed "_crm" when the mail frame has it too), and the annotations.
   */
  lemma JoinedNames(mcols: seq<string>, ccols: seq<string>)
    ensures forall n :: n in Names(JoinedLayout(mcols, ccols)) <==>
      || (exists m :: m in mcols && n == MailName(m, ccols))
      || (exists c :: c in ccols && c !in KeyNames && n == CrmName(c, mcols))
      || n == "confidence" || n == "match_notes"
  {
    var ml, cl := MailLayout(mcols, ccols), CrmLayout(ccols, mcols);
    var annotations := [("confidence", Constant(Confidence)), ("match_notes", Constant(MatchNote))];
    NamesAppend(ml, cl);
    NamesAppend(ml + cl, annotations);
    assert Names(annotations) == ["confidence", "match_notes"];
    MailNames(mcols, ccols);
    CrmNames(ccols, mcols);
  }

  /** Whatever columns the datasets have, the annotation columns hold the fixed confidence and note. */
  lemma AnnotationsWin(mcols: seq<string>, ccols: seq<string>)
    ensures Find(JoinedLayout(mcols, ccols), "confidence") == Some(Constant(Confidence))
    ensures Find(JoinedLayout(mcols, ccols), "match_notes") == Some(Constant(MatchNote))
  {
    var l := JoinedLayout(mcols, ccols);
    var front := MailLayout(mcols, ccols) + CrmLayout(ccols, mcols);
    assert l[..|l| - 1] == front + [("confidence", Constant(Confidence))];
  }

  /** The cell of the merged record, for the (mail, CRM) record pair, in the column called n. */
  function Lookup(layout: seq<(string, Origin)>, n: string, mr: Row, cr: Row): Option<string> {
    match Find(layout, n)
    case None => None
    case Some(FromMail(m)) => Cell(mr, m)
    case Some(FromCrm(c)) => Cell(cr, c)
    case Some(Constant(v)) => Some(v)
  }

  // ---------------------------------------------------------------------------
  // Projection
  // ---------------------------------------------------------------------------

  /** The mail-side output candidates, in order. */
  function MailCandidates(m: MailColumns): seq<Option<string>> {
    [Some(m.addr + "_mail"), Some(m.city + "_mail"), Some(m.state + "_mail"), Some(m.zip + "_mail"),
      m.mailedOn, m.campaign]
  }

  /** The CRM-side output candidates, in order; an absent first or last name becomes "". */
  function CrmCandidates(c: CrmColumns): seq<Option<string>> {
    [Some(c.first.GetOr("")), Some(c.last.GetOr("")),
      Some(c.addr + "_crm"), Some(c.city + "_crm"), Some(c.state + "_crm"), Some(c.zip + "_crm"),
      c.dateEntered, c.jobValue]
  }

  /** A candidate is kept when it is a non-empty name of a merged column. */
  predicate Kept(c: Option<string>, names: seq<string>) {
    c.Some? && c.value != "" && c.value in names
  }

  function Present(cands: seq<Option<string>>, names: seq<string>): seq<string> {
    if cands == [] then []
    else (if Kept(cands[0], names) then [cands[0].value] else []) + Present(cands[1..], names)
  }

  /** The candidates that are kept, in candidate order: a name is there exactly when some candidate for it is kept. */
  lemma {:induction false} PresentSpec(cands: seq<Option<string>>, names: seq<string>)
    ensures |Present(cands, names)| <= |cands|
    ensures forall x :: x in Present(cands, names) <==> exists k :: 0 <= k < |cands| && Kept(cands[k], names) && cands[k].value == x
  {
    if cands != [] {
      PresentSpec(cands[1..], names);
      forall x | x in Present(cands, names)
        ensures exists k :: 0 <= k < |cands| && Kept(cands[k], names) && cands[k].value == x
      {
        if !(Kept(cands[0], names) && cands[0].value == x) {
          assert x in Present(cands[1..], names);
          var k :| 0 <= k < |cands[1..]| && Kept(cands[1..][k], names) && cands[1..][k].value == x;
          assert cands[k + 1] == cands[1..][k];
        }
      }
      forall x | exists k :: 0 <= k < |cands| && Kept(cands[k], names) && cands[k].value == x
        ensures x in Present(cands, names)
      {
        var k :| 0 <= k < |cands| && Kept(cands[k], names) && cands[k].value == x;
        if k > 0 {
          assert cands[1..][k - 1] == cands[k];
        }
      }
    }
  }

  lemma {:induction false} PresentSnoc(cands: seq<Option<string>>, c: Option<string>, names: seq<string>)
    ensures Present(cands + [c], names) == Present(cands, names) + if Kept(c, names) then [c.value] else []
  {
    if cands == [] {
      assert [] + [c] == [c];
    } else {
      assert (cands + [c])[1..] == cands[1..] + [c];
      PresentSnoc(cands[1..], c, names);
    }
  }

  /** The positions, from i on, of the candidates that are kept. */
  function KeptFrom(cands: seq<Option<string>>, names: seq<string>, i: nat): seq<nat>
    requires i <= |cands|
    decreases |cands| - i
  {
    if i == |cands| then []
    else (if Kept(cands[i], names) then [i] else []) + KeptFrom(cands, names, i + 1)
  }

  /**
   * The kept names are the values of the kept candidates in candidate order:
   * the k-th name comes from the k-th kept position, the positions strictly
   * increase, and every kept candidate's position is among them.
   */
  lemma {:induction false} PresentFrom(cands: seq<Option<string>>, names: seq<string>, i: nat)
    requires i <= |cands|
    ensures var ks, ps := KeptFrom(cands, names, i), Present(cands[i..], names);
      && |ps| == |ks|
      && (forall a :: 0 <= a < |ks| ==> i <= ks[a] < |cands| && Kept(cands[ks[a]], names) && ps[a] == cands[ks[a]].value)
      && (forall a, b :: 0 <= a < b < |ks| ==> ks[a] < ks[b])
      && (forall k :: i <= k < |cands| && Kept(cands[k], names) ==> k in ks)
    decreases |cands| - i
  {
    if i < |cands| {
      PresentFrom(cands, names, i + 1);
      assert cands[i..][0] == cands[i];
      assert cands[i..][1..] == cands[i + 1..];
      var ks1, ps1 := KeptFrom(cands, names, i + 1), Present(cands[i + 1..], names);
      assert KeptFrom(cands, names, i) == (if Kept(cands[i], names) then [i] else []) + ks1;
      assert Present(cands[i..], names) == (if Kept(cands[i], names) then [cands[i].value] else []) + ps1;
      KeptStep(cands, names, i, KeptFrom(cands, names, i), Present(cands[i..], names), ks1, ps1);
    }
  }

  /** One step of PresentFrom: prepending position i, when it is kept, preserves the correspondence. */
  lemma KeptStep(cands: seq<Option<string>>, names: seq<string>, i: nat, ks: seq<nat>, ps: seq<string>, ks1: seq<nat>, ps1: seq<string>)
    requires i < |cands| && |ps1| == |ks1|
    requires forall a :: 0 <= a < |ks1| ==> i + 1 <= ks1[a] < |cands| && Kept(cands[ks1[a]], names) && ps1[a] == cands[ks1[a]].value
    requires forall a, b :: 0 <= a < b < |ks1| ==> ks1[a] < ks1[b]
    requires forall k :: i + 1 <= k < |cands| && Kept(cands[k], names) ==> k in ks1
    requires ks == (if Kept(cands[i], names) then [i] else []) + ks1
    requires ps == (if Kept(cands[i], names) then [cands[i].value] else []) + ps1
    ensures |ps| == |ks|
    ensures forall a :: 0 <= a < |ks| ==> i <= ks[a] < |cands| && Kept(cands[ks[a]], names) && ps[a] == cands[ks[a]].value
    ensures forall a, b :: 0 <= a < b < |ks| ==> ks[a] < ks[b]
    ensures forall k :: i <= k < |cands| && Kept(cands[k], names) ==> k in ks
  {
    if Kept(cands[i], names) {
      KeptEntries(cands, names, i, ks, ps, ks1, ps1);
      KeptSorted(i, ks, ks1);
      KeptComplete(cands, names, i, ks, ks1);
    } else {
      assert ks == ks1 && ps == ps1;
    }
  }

  lemma KeptEntries(cands: seq<Option<string>>, names: seq<string>, i: nat, ks: seq<nat>, ps: seq<string>, ks1: seq<nat>, ps1: seq<string>)
    requires i < |cands| && |ps1| == |ks1| && Kept(cands[i], names)
    requires forall a :: 0 <= a < |ks1| ==> i + 1 <= ks1[a] < |cands| && Kept(cands[ks1[a]], names) && ps1[a] == cands[ks1[a]].value
    requires ks == [i] + ks1 && ps == [cands[i].value] + ps1
    ensures |ps| == |ks|
    ensures forall a :: 0 <= a < |ks| ==> i <= ks[a] < |cands| && Kept(cands[ks[a]], names) && ps[a] == cands[ks[a]].value
  {
    forall a | 0 <= a < |ks|
      ensures i <= ks[a] < |cands| && Kept(cands[ks[a]], names) && ps[a] == cands[ks[a]].value
    {
      if a > 0 {
        assert ks[a] == ks1[a - 1] && ps[a] == ps1[a - 1];
      }
    }
  }

  lemma KeptSorted(i: nat, ks: seq<nat>, ks1: seq<nat>)
    requires forall a :: 0 <= a < |ks1| ==> i + 1 <= ks1[a]
    requires forall a, b :: 0 <= a < b < |ks1| ==> ks1[a] < ks1[b]
    requires ks == [i] + ks1
    ensures forall a, b :: 0 <= a < b < |ks| ==> ks[a] < ks[b]
  {
    forall a, b | 0 <= a < b < |ks|
      ensures ks[a] < ks[b]
    {
      assert ks[b] == ks1[b - 1];
      if a > 0 {
        assert ks[a] == ks1[a - 1];
      }
    }
  }

  lemma KeptComplete(cands: seq<Option<string>>, names: seq<string>, i: nat, ks: seq<nat>, ks1: seq<nat>)
    requires i < |cands|
    requires forall k :: i + 1 <= k < |cands| && Kept(cands[k], names) ==> k in ks1
    requires ks == [i] + ks1
    ensures forall k :: i <= k < |cands| && Kept(cands[k], names) ==> k in ks
  {
    forall k | i <= k < |cands| && Kept(cands[k], names)
      ensures k in ks
    {
      if k == i {
        assert ks[0] == i;
      } else {
        assert k in ks1;
      }
    }
  }

  /** The loop over the candidates that collects the output columns. */
  method KeepPresent(cands: seq<Option<string>>, names: seq<string>) returns (cols: seq<string>)
    ensures cols == Present(cands, names)
  {
    cols := [];
    for k := 0 to |cands|
      invariant cols == Present(cands[..k], names)
    {
      PresentSnoc(cands[..k], cands[k], names);
      assert cands[..k + 1] == cands[..k] + [cands[k]];
      var c := cands[k];
      if c.Some? && c.value != "" && c.value in names {
        cols := cols + [c.value];
      }
    }
    assert cands[..|cands|] == cands;
  }

  /** The output columns: the kept mail candidates, the kept CRM candidates, then the annotations. */
  function ResultColumns(c: Columns, names: seq<string>): seq<string> {
    Present(MailCandidates(c.mail), names) + Present(CrmCandidates(c.crm), names) + ["confidence", "match_notes"]
  }

  /** The output record for one matched pair: its cells in the output columns. */
  function ProjectRow(layout: seq<(string, Origin)>, cols: seq<string>, mr: Row, cr: Row): Row {
    map n | n in cols && Lookup(layout, n, mr, cr).Some? :: Lookup(layout, n, mr, cr).value
  }

  // ---------------------------------------------------------------------------
  // Summary
  // ---------------------------------------------------------------------------

  datatype Kpis = Kpis(
    totalMail: nat, totalCrm: nat, matches: nat,
    revenueSum: int, mailersPerAcquisition: Option<real>)

  datatype Output = Output(columns: seq<string>, rows: seq<Row>, kpis: Kpis)

  /** The job value of a record; a missing cell counts as zero. */
  function AmountOf(r: Row, col: string, amount: string -> int): int {
    match Cell(r, col)
    case None => 0
    case Some(v) => amount(v)
  }

  function Revenue(rows: seq<Row>, col: string, amount: string -> int): int {
    if rows == [] then 0 else AmountOf(rows[0], col, amount) + Revenue(rows[1..], col, amount)
  }

  /** The summed job value of the output records, or zero when no job-value column is among the output columns. */
  function RevenueSum(jobValue: Option<string>, cols: seq<string>, rows: seq<Row>, amount: string -> int): int {
    if jobValue.Some? && jobValue.value in cols then Revenue(rows, jobValue.value, amount) else 0
  }

  /** q is the mail rows per match: absent exactly when nothing matched. */
  predicate RatioHolds(q: Option<real>, totalMail: nat, matches: nat) {
    && (q.None? <==> matches == 0)
    && (q.Some? ==> q.value * matches as real == totalMail as real)
  }

  /** Mail rows per match, or nothing when there is no match. */
  function MailersPerAcquisition(totalMail: nat, matches: nat): (r: Option<real>)
    ensures RatioHolds(r, totalMail, matches)
  {
    if matches == 0 then None else Some(totalMail as real / matches as real)
  }

  lemma {:induction false} RevenueNonNegative(rows: seq<Row>, col: string, amount: string -> int)
    requires forall v :: amount(v) >= 0
    ensures Revenue(rows, col, amount) >= 0
  {
    if rows != [] {
      RevenueNonNegative(rows[1..], col, amount);
    }
  }

  // ---------------------------------------------------------------------------
  // The run
  // ---------------------------------------------------------------------------

  function KeyedMail(mail: Table, c: Columns): Table {
    WithKeys(mail, c.mail.addr, c.mail.city, c.mail.state, c.mail.zip)
  }

  function KeyedCrm(crm: Table, c: Columns): Table {
    WithKeys(crm, c.crm.addr, c.crm.city, c.crm.state, c.crm.zip)
  }

  /** The matched (mail, CRM) record pairs, in output order. */
  function MatchedPairs(mail: Table, crm: Table, c: Columns): seq<(nat, nat)> {
    Join(Keys(KeyedMail(mail, c)), Keys(KeyedCrm(crm, c)))
  }

  /**
   * The output records, one per matched pair. The join pairs only positions
   * of existing records (JoinSpec), so the empty record is never produced;
   * AssembleRowsArePairs states this.
   */
  function ResultRows(m: Table, r: Table, layout: seq<(string, Origin)>, cols: seq<string>): (rows: seq<Row>)
    ensures |rows| == |Join(Keys(m), Keys(r))|
  {
    var pairs := Join(Keys(m), Keys(r));
    seq(|pairs|, k requires 0 <= k < |pairs| =>
      var (i, j) := pairs[k];
      if i < |m.rows| && j < |r.rows| then ProjectRow(layout, cols, m.rows[i], r.rows[j]) else map[])
  }

  /** The output of a run whose columns c are resolved, given the datasets with their key columns. */
  function Assemble(m: Table, r: Table, c: Columns, amount: string -> int): Output {
    var layout := JoinedLayout(m.columns, r.columns);
    var cols := ResultColumns(c, Names(layout));
    var rows := ResultRows(m, r, layout, cols);
    Output(cols, rows,
      Kpis(|m.rows|, |r.rows|, |rows|,
        RevenueSum(c.crm.jobValue, cols, rows, amount),
        MailersPerAcquisition(|m.rows|, |rows|)))
  }

  /** The whole run on the two datasets read from CSV; `amount` is the numeric value of a job-value cell. */
  function Match(mail: Table, crm: Table, amount: string -> int): Result<Output, SchemaFieldMissing> {
    var c :- Resolve(mail.columns, crm.columns);
    Success(Assemble(KeyedMail(mail, c), KeyedCrm(crm, c), c, amount))
  }

  /**
   * The run, step by step: resolve the columns, add the keys, join, choose
   * the output columns, project and summarise.
   */
  method RunMatcher(mail: Table, crm: Table, amount: string -> int) returns (result: Result<Output, SchemaFieldMissing>)
    ensures result == Match(mail, crm, amount)
    ensures result.Failure? <==> FirstMissing(RequiredChecks(mail.columns, crm.columns), 0).Some?
    ensures result.Success? ==> var k := result.value.kpis;
      && k.totalMail == |mail.rows| && k.totalCrm == |crm.rows|
      && k.matches == |result.value.rows| <= k.totalMail * k.totalCrm
      && RatioHolds(k.mailersPerAcquisition, k.totalMail, k.matches)
  {
    var resolved := Resolve(mail.columns, crm.columns);
    if resolved.Failure? {
      return Failure(resolved.error);
    }
    var c := resolved.value;
    var m := AddKeys(mail, c.mail.addr, c.mail.city, c.mail.state, c.mail.zip);
    var r := AddKeys(crm, c.crm.addr, c.crm.city, c.crm.state, c.crm.zip);
    var layout := JoinedLayout(m.columns, r.columns);
    var names := Names(layout);
    var mailCols := KeepPresent(MailCandidates(c.mail), names);
    var crmCols := KeepPresent(CrmCandidates(c.crm), names);
    var cols := mailCols + crmCols + ["confidence", "match_notes"];
    var rows := ResultRows(m, r, layout, cols);
    var revenue := RevenueSum(c.crm.jobValue, cols, rows, amount);
    result := Success(Output(cols, rows,
      Kpis(|m.rows|, |r.rows|, |rows|, revenue, MailersPerAcquisition(|m.rows|, |rows|))));
    assert result.value == Assemble(m, r, c, amount);
    KeyedSizes(mail, crm, c);
    AssembleKpis(m, r, c, amount);
  }

  // ---------------------------------------------------------------------------
  // Properties of the run
  // ---------------------------------------------------------------------------

  /** The run fails exactly when a required field is missing, with the error of the first one, and then produces nothing else. */
  lemma MatchFailsOnFirstMissing(mail: Table, crm: Table, amount: string -> int)
    ensures var checks := RequiredChecks(mail.columns, crm.columns);
      var miss := FirstMissing(checks, 0);
      var o := Match(mail, crm, amount);
      && (o.Failure? <==> miss.Some?)
      && (o.Failure? ==> o.error == SchemaFieldMissing(checks[miss.value].1.friendly, checks[miss.value].1.aliases))
      && (o.Success? ==> o.value == Assemble(
            KeyedMail(mail, Resolve(mail.columns, crm.columns).value),
            KeyedCrm(crm, Resolve(mail.columns, crm.columns).value),
            Resolve(mail.columns, crm.columns).value, amount))
  {
  }

  lemma FirstMissingIs(checks: seq<(seq<string>, Field)>, i: nat, m: nat)
    requires i <= m < |checks| && Missing(checks[m])
    requires forall j :: i <= j < m ==> !Missing(checks[j])
    ensures FirstMissing(checks, i) == Some(m)
  {
    FirstMissingMeans(checks, i);
    var r := FirstMissing(checks, i);
    assert r.Some?;
    assert !(r.value < m) && !(m < r.value);
  }

  /** When the seven other required fields resolve but no CRM header is a zip alias, the run aborts naming the CRM zip field. */
  lemma MissingCrmZipAborts(mail: Table, crm: Table, amount: string -> int)
    requires forall k :: 0 <= k < 7 ==> !Missing(RequiredChecks(mail.columns, crm.columns)[k])
    requires forall i :: 0 <= i < |crm.columns| ==> !Qualifies(crm.columns[i], CrmZip.aliases)
    ensures Match(mail, crm, amount) == Failure(SchemaFieldMissing("CRM CSV zip", CrmZip.aliases))
  {
    var checks := RequiredChecks(mail.columns, crm.columns);
    assert Missing(checks[7]);
    FirstMissingIs(checks, 0, 7);
    MatchFailsOnFirstMissing(mail, crm, amount);
  }

  /** Adding the key columns keeps the records. */
  lemma KeyedSizes(mail: Table, crm: Table, c: Columns)
    ensures |KeyedMail(mail, c).rows| == |mail.rows| && |KeyedCrm(crm, c).rows| == |crm.rows|
  {
  }

  /** One output record per key-equal (mail, CRM) pair, and each is that pair's projection. */
  lemma AssembleRowsArePairs(m: Table, r: Table, c: Columns, amount: string -> int)
    ensures var pairs := Join(Keys(m), Keys(r));
      var o := Assemble(m, r, c, amount);
      && |o.rows| == |pairs|
      && (forall i, j :: 0 <= i < |m.rows| && 0 <= j < |r.rows| ==>
            ((i, j) in pairs <==> KeyOf(m.rows[i]) == KeyOf(r.rows[j])))
      && (forall k :: 0 <= k < |pairs| ==>
            (pairs[k].0 < |m.rows| && pairs[k].1 < |r.rows| &&
             o.rows[k] == ProjectRow(JoinedLayout(m.columns, r.columns), o.columns, m.rows[pairs[k].0], r.rows[pairs[k].1])))
  {
    var pairs := Join(Keys(m), Keys(r));
    JoinSpec(Keys(m), Keys(r));
    forall k | 0 <= k < |pairs|
      ensures pairs[k].0 < |m.rows| && pairs[k].1 < |r.rows|
    {
      assert pairs[k] in pairs;
    }
  }

  /** The counts agree, matches are bounded by the product of the dataset sizes, and the ratio exists exactly when something matched. */
  lemma AssembleKpis(m: Table, r: Table, c: Columns, amount: string -> int)
    ensures var o := Assemble(m, r, c, amount);
      && o.kpis.totalMail == |m.rows| && o.kpis.totalCrm == |r.rows|
      && o.kpis.matches == |o.rows| <= |m.rows| * |r.rows|
      && RatioHolds(o.kpis.mailersPerAcquisition, |m.rows|, o.kpis.matches)
  {
    AssembleCounts(m, r, c, amount);
    var o := Assemble(m, r, c, amount);
    assert o.kpis.mailersPerAcquisition == MailersPerAcquisition(|m.rows|, o.kpis.matches);
  }

  lemma AssembleCounts(m: Table, r: Table, c: Columns, amount: string -> int)
    ensures var o := Assemble(m, r, c, amount);
      && o.kpis.totalMail == |m.rows| && o.kpis.totalCrm == |r.rows|
      && o.kpis.matches == |o.rows| <= |m.rows| * |r.rows|
  {
    JoinSpec(Keys(m), Keys(r));
  }

  /** Every output record carries the fixed confidence and the match note, the last two output columns. */
  lemma AssembleAnnotated(m: Table, r: Table, c: Columns, amount: string -> int)
    ensures var o := Assemble(m, r, c, amount);
      && o.columns[|o.columns| - 2..] == ["confidence", "match_notes"]
      && forall k :: 0 <= k < |o.rows| ==>
           "confidence" in o.rows[k] && o.rows[k]["confidence"] == Confidence &&
           "match_notes" in o.rows[k] && o.rows[k]["match_notes"] == MatchNote
  {
    var layout := JoinedLayout(m.columns, r.columns);
    var pairs := Join(Keys(m), Keys(r));
    var o := Assemble(m, r, c, amount);
    AnnotationsWin(m.columns, r.columns);
    AssembleRowsArePairs(m, r, c, amount);
    var front := Present(MailCandidates(c.mail), Names(layout)) + Present(CrmCandidates(c.crm), Names(layout));
    assert o.columns == front + ["confidence", "match_notes"];
    assert o.columns[|o.columns| - 2..] == ["confidence", "match_notes"];
    assert "confidence" in o.columns && "match_notes" in o.columns;
    forall k | 0 <= k < |o.rows|
      ensures "confidence" in o.rows[k] && o.rows[k]["confidence"] == Confidence
      ensures "match_notes" in o.rows[k] && o.rows[k]["match_notes"] == MatchNote
    {
      var (i, j) := pairs[k];
      assert o.rows[k] == ProjectRow(layout, o.columns, m.rows[i], r.rows[j]);
      assert Lookup(layout, "confidence", m.rows[i], r.rows[j]) == Some(Confidence);
      assert Lookup(layout, "match_notes", m.rows[i], r.rows[j]) == Some(MatchNote);
    }
  }

  /**
   * ks lists, in increasing order, exactly the positions of the kept
   * candidates of cands, and ps holds their column names in that order.
   */
  predicate KeptAt(cands: seq<Option<string>>, names: seq<string>, ks: seq<nat>, ps: seq<string>) {
    && |ps| == |ks|
    && (forall a :: 0 <= a < |ks| ==> ks[a] < |cands| && Kept(cands[ks[a]], names) && ps[a] == cands[ks[a]].value)
    && (forall a, b :: 0 <= a < b < |ks| ==> ks[a] < ks[b])
    && (forall k :: 0 <= k < |cands| && Kept(cands[k], names) ==> k in ks)
  }

  /** The kept candidates of a whole list, by their positions in it. */
  lemma KeptInOrder(cands: seq<Option<string>>, names: seq<string>)
    ensures KeptAt(cands, names, KeptFrom(cands, names, 0), Present(cands, names))
  {
    PresentFrom(cands, names, 0);
    assert cands[0..] == cands;
  }

  /**
   * The output columns, in order: the kept mail candidates in candidate
   * order, the kept CRM candidates in candidate order, then the annotations.
   */
  lemma ResultColumnOrder(c: Columns, names: seq<string>)
    ensures var cols := ResultColumns(c, names);
      var mc, cc := MailCandidates(c.mail), CrmCandidates(c.crm);
      var mk, ck := KeptFrom(mc, names, 0), KeptFrom(cc, names, 0);
      && |cols| == |mk| + |ck| + 2
      && KeptAt(mc, names, mk, cols[..|mk|])
      && KeptAt(cc, names, ck, cols[|mk|..|mk| + |ck|])
      && cols[|mk| + |ck|..] == ["confidence", "match_notes"]
  {
    var mc, cc := MailCandidates(c.mail), CrmCandidates(c.crm);
    KeptInOrder(mc, names);
    KeptInOrder(cc, names);
    var pm, pc := Present(mc, names), Present(cc, names);
    var cols := ResultColumns(c, names);
    assert cols == pm + pc + ["confidence", "match_notes"];
    assert cols[..|pm|] == pm;
    assert cols[|pm|..|pm| + |pc|] == pc;
  }

  /** The run's output columns are the ones chosen from the merged frame's columns. */
  lemma AssembleColumns(m: Table, r: Table, c: Columns, amount: string -> int)
    ensures Assemble(m, r, c, amount).columns == ResultColumns(c, Names(JoinedLayout(m.columns, r.columns)))
  {
  }

  /** Every output column other than the annotations is a kept candidate: non-empty and a merged column. */
  lemma AssembleColumnsAreCandidates(m: Table, r: Table, c: Columns, amount: string -> int)
    ensures var names := Names(JoinedLayout(m.columns, r.columns));
      var o := Assemble(m, r, c, amount);
      forall k :: 0 <= k < |o.columns| - 2 ==>
        o.columns[k] != "" && o.columns[k] in names &&
        ((exists i :: 0 <= i < 6 && MailCandidates(c.mail)[i] == Some(o.columns[k]))
          || (exists i :: 0 <= i < 8 && CrmCandidates(c.crm)[i] == Some(o.columns[k])))
  {
    var names := Names(JoinedLayout(m.columns, r.columns));
    PresentSpec(MailCandidates(c.mail), names);
    PresentSpec(CrmCandidates(c.crm), names);
    var o := Assemble(m, r, c, amount);
    var pm, pc := Present(MailCandidates(c.mail), names), Present(CrmCandidates(c.crm), names);
    assert o.columns == pm + pc + ["confidence", "match_notes"];
    forall k | 0 <= k < |o.columns| - 2
      ensures o.columns[k] != "" && o.columns[k] in names &&
        ((exists i :: 0 <= i < 6 && MailCandidates(c.mail)[i] == Some(o.columns[k]))
          || (exists i :: 0 <= i < 8 && CrmCandidates(c.crm)[i] == Some(o.columns[k])))
    {
      if k < |pm| {
        assert o.columns[k] == pm[k] && pm[k] in pm;
      } else {
        assert o.columns[k] == pc[k - |pm|] && pc[k - |pm|] in pc;
      }
    }
  }

  /**
   * The revenue is the job value summed over the output records when the
   * job-value column is resolved and among the output columns, and zero
   * otherwise; it is never negative when no amount is.
   */
  lemma AssembleRevenue(m: Table, r: Table, c: Columns, amount: string -> int)
    ensures var o := Assemble(m, r, c, amount); var jv := c.crm.jobValue;
      && (jv.None? || jv.value !in o.columns ==> o.kpis.revenueSum == 0)
      && (jv.Some? && jv.value in o.columns ==> o.kpis.revenueSum == Revenue(o.rows, jv.value, amount))
    ensures (forall v :: amount(v) >= 0) ==> Assemble(m, r, c, amount).kpis.revenueSum >= 0
  {
    var o := Assemble(m, r, c, amount);
    if c.crm.jobValue.Some? && c.crm.jobValue.value in o.columns && forall v :: amount(v) >= 0 {
      RevenueNonNegative(o.rows, c.crm.jobValue.value, amount);
    }
  }

  lemma SuffixCancels(a: string, b: string, suffix: string)
    ensures a + suffix == b + suffix ==> a == b
  {
    if a + suffix == b + suffix {
      assert a == (a + suffix)[..|a|];
      assert b == (b + suffix)[..|b|];
    }
  }

  lemma SuffixesDiffer(a: string, b: string)
    ensures a + "_mail" != b + "_crm"
  {
    assert (a + "_mail")[|a| + 4] == 'l';
    assert (b + "_crm")[|b| + 3] == 'm';
  }

  /**
   * A resolved mail column is shown only under its "_mail" name: when
   * neither dataset has a column of that name and the CRM dataset does not
   * share the column's own name, the column is left out of the output.
   */
  lemma UnsharedMailColumnOmitted(m: Table, r: Table, c: Columns, amount: string -> int, col: string)
    requires col in {c.mail.addr, c.mail.city, c.mail.state, c.mail.zip}
    requires col + "_mail" !in KeyNames
    requires col !in r.columns && col + "_mail" !in m.columns && col + "_mail" !in r.columns
    requires col + "_mail" != "confidence" && col + "_mail" != "match_notes"
    ensures col + "_mail" !in Assemble(m, r, c, amount).columns
  {
    var names := Names(JoinedLayout(m.columns, r.columns));
    var n := col + "_mail";
    JoinedNames(m.columns, r.columns);
    forall x | x in m.columns
      ensures n != MailName(x, r.columns)
    {
      SuffixCancels(x, col, "_mail");
    }
    forall x | x in r.columns && x !in KeyNames
      ensures n != CrmName(x, m.columns)
    {
      SuffixesDiffer(col, x);
    }
    assert n !in names;
    PresentSpec(MailCandidates(c.mail), names);
    PresentSpec(CrmCandidates(c.crm), names);
  }

  // ---------------------------------------------------------------------------
  // Cells of the output records
  // ---------------------------------------------------------------------------

  /** At most one position of ns holds n. */
  predicate Unique(ns: seq<string>, n: string) {
    forall a, b :: 0 <= a < b < |ns| && ns[a] == n ==> ns[b] != n
  }

  /** The column found for n is the last one of that name. */
  lemma {:induction false} FindLast(layout: seq<(string, Origin)>, n: string, p: nat)
    requires p < |layout| && layout[p].0 == n
    requires forall q :: p < q < |layout| ==> layout[q].0 != n
    ensures Find(layout, n) == Some(layout[p].1)
    decreases |layout|
  {
    if p < |layout| - 1 {
      var init := layout[..|layout| - 1];
      assert init[p] == layout[p];
      FindLast(init, n, p);
    }
  }

  /** A projected record holds a cell only in an output column, and there it holds the merged record's cell. */
  lemma ProjectRowCell(layout: seq<(string, Origin)>, cols: seq<string>, mr: Row, cr: Row, n: string)
    ensures Cell(ProjectRow(layout, cols, mr, cr), n) == if n in cols then Lookup(layout, n, mr, cr) else None
  {
  }

  /** When n occurs once among the merged columns, at position p, the merged column n reads from layout[p]. */
  lemma FindUnique(layout: seq<(string, Origin)>, n: string, p: nat)
    requires p < |layout| && layout[p].0 == n && Unique(Names(layout), n)
    ensures Find(layout, n) == Some(layout[p].1)
  {
    var ns := Names(layout);
    forall q | p < q < |layout|
      ensures layout[q].0 != n
    {
      assert ns[p] == n && ns[q] == layout[q].0;
    }
    FindLast(layout, n, p);
  }

  /** The merged frame starts with the mail columns, in order, under their merged names. */
  lemma MailLayoutAt(mcols: seq<string>, ccols: seq<string>, p: nat)
    requires p < |mcols|
    ensures var l := JoinedLayout(mcols, ccols);
      p < |l| && l[p] == (MailName(mcols[p], ccols), FromMail(mcols[p]))
  {
    var ml := MailLayout(mcols, ccols);
    assert JoinedLayout(mcols, ccols)[p] == ml[p];
  }

  /** Every non-key CRM column is among the merged CRM columns, under its merged name. */
  lemma {:induction false} CrmLayoutHas(ccols: seq<string>, mcols: seq<string>, col: string)
    requires col in ccols && col !in KeyNames
    ensures exists q :: 0 <= q < |CrmLayout(ccols, mcols)| && CrmLayout(ccols, mcols)[q] == (CrmName(col, mcols), FromCrm(col))
  {
    var c0 := ccols[0];
    var head: seq<(string, Origin)> := if c0 in KeyNames then [] else [(CrmName(c0, mcols), FromCrm(c0))];
    var tail := CrmLayout(ccols[1..], mcols);
    assert CrmLayout(ccols, mcols) == head + tail;
    if c0 == col {
      assert (head + tail)[0] == (CrmName(col, mcols), FromCrm(col));
    } else {
      assert col in ccols[1..];
      CrmLayoutHas(ccols[1..], mcols, col);
      var q :| 0 <= q < |tail| && tail[q] == (CrmName(col, mcols), FromCrm(col));
      assert (head + tail)[|head| + q] == tail[q];
    }
  }

  /** The merged frame holds every non-key CRM column, after the mail columns, under its merged name. */
  lemma CrmLayoutAt(mcols: seq<string>, ccols: seq<string>, col: string) returns (p: nat)
    requires col in ccols && col !in KeyNames
    ensures var l := JoinedLayout(mcols, ccols);
      p < |l| && l[p] == (CrmName(col, mcols), FromCrm(col))
  {
    var ml, cl := MailLayout(mcols, ccols), CrmLayout(ccols, mcols);
    CrmLayoutHas(ccols, mcols, col);
    var q :| 0 <= q < |cl| && cl[q] == (CrmName(col, mcols), FromCrm(col));
    p := |ml| + q;
    assert JoinedLayout(mcols, ccols)[p] == cl[q];
  }

  /** No output record holds a cell outside the output columns. */
  lemma OutputRecordsInColumns(m: Table, r: Table, c: Columns, amount: string -> int)
    ensures var o := Assemble(m, r, c, amount);
      forall k, n :: 0 <= k < |o.rows| && n in o.rows[k] ==> n in o.columns
  {
    var o, pairs := Assemble(m, r, c, amount), Join(Keys(m), Keys(r));
    var layout := JoinedLayout(m.columns, r.columns);
    AssembleRowsArePairs(m, r, c, amount);
    forall k, n | 0 <= k < |o.rows| && n in o.rows[k]
      ensures n in o.columns
    {
      ProjectRowCell(layout, o.columns, m.rows[pairs[k].0], r.rows[pairs[k].1], n);
    }
  }

  /**
   * An output column that is the merged name of mail column col, and names
   * no other merged column, holds in every output record the cell of col in
   * the matched mail record. This covers the suffixed address, city, state
   * and zip columns and the plain optional mail columns.
   */
  lemma OutputMailCell(m: Table, r: Table, c: Columns, amount: string -> int, k: nat, col: string)
    requires k < |Assemble(m, r, c, amount).rows|
    requires col in m.columns && MailName(col, r.columns) in Assemble(m, r, c, amount).columns
    requires Unique(Names(JoinedLayout(m.columns, r.columns)), MailName(col, r.columns))
    ensures var o, pairs := Assemble(m, r, c, amount), Join(Keys(m), Keys(r));
      k < |pairs| && pairs[k].0 < |m.rows| &&
      Cell(o.rows[k], MailName(col, r.columns)) == Cell(m.rows[pairs[k].0], col)
  {
    var o, pairs := Assemble(m, r, c, amount), Join(Keys(m), Keys(r));
    var layout := JoinedLayout(m.columns, r.columns);
    var n := MailName(col, r.columns);
    AssembleRowsArePairs(m, r, c, amount);
    var p :| 0 <= p < |m.columns| && m.columns[p] == col;
    MailLayoutAt(m.columns, r.columns, p);
    FindUnique(layout, n, p);
    ProjectRowCell(layout, o.columns, m.rows[pairs[k].0], r.rows[pairs[k].1], n);
  }

  /**
   * An output column that is the merged name of non-key CRM column col, and
   * names no other merged column, holds in every output record the cell of
   * col in the matched CRM record. This covers the suffixed address, city,
   * state and zip columns, the names and the plain optional CRM columns.
   */
  lemma OutputCrmCell(m: Table, r: Table, c: Columns, amount: string -> int, k: nat, col: string)
    requires k < |Assemble(m, r, c, amount).rows|
    requires col in r.columns && col !in KeyNames && CrmName(col, m.columns) in Assemble(m, r, c, amount).columns
    requires Unique(Names(JoinedLayout(m.columns, r.columns)), CrmName(col, m.columns))
    ensures var o, pairs := Assemble(m, r, c, amount), Join(Keys(m), Keys(r));
      k < |pairs| && pairs[k].1 < |r.rows| &&
      Cell(o.rows[k], CrmName(col, m.columns)) == Cell(r.rows[pairs[k].1], col)
  {
    var o, pairs := Assemble(m, r, c, amount), Join(Keys(m), Keys(r));
    var layout := JoinedLayout(m.columns, r.columns);
    var n := CrmName(col, m.columns);
    AssembleRowsArePairs(m, r, c, amount);
    var p := CrmLayoutAt(m.columns, r.columns, col);
    FindUnique(layout, n, p);
    ProjectRowCell(layout, o.columns, m.rows[pairs[k].0], r.rows[pairs[k].1], n);
  }
}

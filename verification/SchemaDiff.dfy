/**
 * Following a remote table's shape (src/backend/converter/format_converter.c).
 * A Debezium ALTER event carries the new column list only. Whether columns were
 * added, dropped or altered is worked out against the PostgreSQL catalog, the
 * attribute numbers of added columns are predicted, and synchdb_attribute is
 * updated with them.
 */
module SchemaDiff {

  import opened Wrappers
  import NR = NameResolution

  // ------------------------------------------------------ the table's catalog

  /** One pg_attribute row; its attribute number is its index plus one. */
  datatype Attr = Attr(name: string, dropped: bool)
  type Catalog = seq<Attr>

  /** What column names are resolved with. */
  datatype Naming = Naming(rules: NR.Rules, strategy: NR.Casing, id: string)

  function PgName(n: Naming, column: string): string {
    NR.DdlColumn(n.rules, n.strategy, n.id, column)
  }

  function Mapped(n: Naming, cols: seq<string>): (want: seq<string>)
    ensures |want| == |cols|
  {
    seq(|cols|, i requires 0 <= i < |cols| => PgName(n, cols[i]))
  }

  const MARKER: string := "pg.dropped"

  predicate MarkedAt(name: string, i: int) {
    0 <= i <= |name| - |MARKER| && name[i..i + |MARKER|] == MARKER
  }

  /** strstr(name, "pg.dropped"): how the code recognises a dropped column. */
  predicate Marked(name: string) {
    exists i | 0 <= i <= |name| :: MarkedAt(name, i)
  }

  function Numeral(n: nat): string {
    if n < 10 then ["0123456789"[n]] else Numeral(n / 10) + Numeral(n % 10)
  }

  /** The name PostgreSQL gives a dropped column. */
  function DroppedName(attnum: nat): (name: string)
    ensures Marked(name) && |name| < NR.NAMEDATALEN
  {
    var name := NR.Clipped("........" + (MARKER + ("." + Numeral(attnum) + "........")));
    assert MarkedAt(name, 8);
    name
  }

  ghost function LiveNames(cat: Catalog): set<string> {
    set i | 0 <= i < |cat| && !cat[i].dropped :: cat[i].name
  }

  /** The names of all attributes, holes included; PostgreSQL never gives one twice. */
  ghost function AllNames(cat: Catalog): set<string> {
    set i | 0 <= i < |cat| :: cat[i].name
  }

  ghost function NameSet(want: seq<string>): set<string> {
    set name | name in want
  }

  function LiveCount(cat: Catalog): nat {
    if cat == [] then 0
    else LiveCount(cat[..|cat| - 1]) + if cat[|cat| - 1].dropped then 0 else 1
  }

  ghost predicate Distinct(want: seq<string>) {
    forall i, j :: 0 <= i < j < |want| ==> want[i] != want[j]
  }

  ghost predicate LiveDistinct(cat: Catalog) {
    forall i, j :: 0 <= i < j < |cat| && !cat[i].dropped && !cat[j].dropped ==> cat[i].name != cat[j].name
  }

  /** A name of the form that PostgreSQL gives to dropped columns; every such name carries the marker. */
  ghost predicate HoleName(name: string) {
    exists k: nat :: name == DroppedName(k)
  }

  /**
   * Live names are distinct, dropped columns and only these have PostgreSQL's
   * names for them, and names have at most 63 characters. A live name may well
   * carry the marker somewhere.
   */
  ghost predicate WellFormed(cat: Catalog) {
    && LiveDistinct(cat)
    && forall i :: 0 <= i < |cat| ==> (cat[i].dropped <==> HoleName(cat[i].name)) && |cat[i].name| < NR.NAMEDATALEN
  }

  /** The live columns that the code takes for dropped ones. */
  ghost function Misread(cat: Catalog): set<string> {
    set name | name in LiveNames(cat) && Marked(name)
  }

  lemma LiveNamesSplit(cat: Catalog)
    requires cat != []
    ensures var n := |cat| - 1;
      LiveNames(cat) == LiveNames(cat[..n]) + if cat[n].dropped then {} else {cat[n].name}
  {
    var n := |cat| - 1;
    forall x | x in LiveNames(cat[..n]) ensures x in LiveNames(cat) {
      var i :| 0 <= i < n && !cat[..n][i].dropped && cat[..n][i].name == x;
      assert cat[i].name == x;
    }
    forall x | x in LiveNames(cat) && (cat[n].dropped || x != cat[n].name) ensures x in LiveNames(cat[..n]) {
      var i :| 0 <= i < |cat| && !cat[i].dropped && cat[i].name == x;
      assert cat[..n][i] == cat[i];
    }
  }

  lemma LastIsNew(cat: Catalog)
    requires cat != [] && LiveDistinct(cat) && !cat[|cat| - 1].dropped
    ensures cat[|cat| - 1].name !in LiveNames(cat[..|cat| - 1])
  {
  }

  lemma {:induction false} LiveCardinality(cat: Catalog)
    requires LiveDistinct(cat)
    ensures |LiveNames(cat)| == LiveCount(cat)
  {
    if cat == [] {
      assert LiveNames(cat) == {};
    } else {
      LiveCardinality(cat[..|cat| - 1]);
      LiveNamesSplit(cat);
      if !cat[|cat| - 1].dropped {
        LastIsNew(cat);
      }
    }
  }

  lemma {:induction false} NameCardinality(want: seq<string>)
    requires Distinct(want)
    ensures |NameSet(want)| == |want|
  {
    if want == [] {
      assert NameSet(want) == {};
    } else {
      var n := |want| - 1;
      NameCardinality(want[..n]);
      assert NameSet(want) == NameSet(want[..n]) + {want[n]};
    }
  }

  // ----------------------------------------------------------- the three diffs

  /** An entry of pgddl->columns; no name is the placeholder of an untouched column. */
  datatype PgColumn = PgColumn(name: Option<string>, position: nat)

  const PLACEHOLDER := PgColumn(None, 0)

  /** The search of the ADD and DROP branches skips names that carry the marker. */
  predicate Visible(cat: Catalog, name: string) {
    exists i | 0 <= i < |cat| :: cat[i].name == name && !Marked(name)
  }

  function NewNames(cat: Catalog, want: seq<string>): seq<string> {
    if want == [] then []
    else
      var n := |want| - 1;
      NewNames(cat, want[..n]) + if Visible(cat, want[n]) then [] else [want[n]]
  }

  /** ADD: every name not found gets the next number after the last attribute. */
  function AddPlan(cat: Catalog, want: seq<string>): (plan: seq<PgColumn>)
    ensures |plan| == |want|
  {
    if want == [] then []
    else
      var n := |want| - 1;
      AddPlan(cat, want[..n]) +
      [if Visible(cat, want[n]) then PLACEHOLDER
       else PgColumn(Some(want[n]), |cat| + 1 + |NewNames(cat, want[..n])|)]
  }

  /** DROP: every attribute, in order, that is not wanted any more. */
  function DropPlan(cat: Catalog, want: seq<string>): seq<PgColumn> {
    if cat == [] then []
    else
      var n := |cat| - 1;
      DropPlan(cat[..n], want) +
      if Marked(cat[n].name) || cat[n].name in want then [] else [PgColumn(Some(cat[n].name), n + 1)]
  }

  /** ALTER: the number of the live attribute with this name outside the primary key. */
  function AlterPosition(cat: Catalog, pk: set<nat>, name: string): (k: nat)
    ensures k <= |cat| && (k > 0 ==> !cat[k - 1].dropped && cat[k - 1].name == name)
  {
    if cat == [] then 0
    else
      var n := |cat| - 1;
      if !cat[n].dropped && cat[n].name == name && n + 1 !in pk then n + 1
      else AlterPosition(cat[..n], pk, name)
  }

  function AlterColumnPlan(cat: Catalog, pk: set<nat>, name: string): PgColumn {
    var k := AlterPosition(cat, pk, name);
    if k == 0 then PLACEHOLDER else PgColumn(Some(name), k)
  }

  function AlterPlan(cat: Catalog, pk: set<nat>, want: seq<string>): (plan: seq<PgColumn>)
    ensures |plan| == |want|
  {
    seq(|want|, i requires 0 <= i < |want| => AlterColumnPlan(cat, pk, want[i]))
  }

  predicate Touches(plan: seq<PgColumn>) {
    exists i | 0 <= i < |plan| :: plan[i].name.Some?
  }

  datatype Subtype = AddColumn | DropColumn | AlterColumn
  datatype PgDdl = NoDdl | PgDdl(subtype: Subtype, columns: seq<PgColumn>)

  function Diff(cat: Catalog, pk: set<nat>, want: seq<string>): PgDdl {
    if |want| > LiveCount(cat) then
      if NewNames(cat, want) == [] then NoDdl else PgDdl(AddColumn, AddPlan(cat, want))
    else if |want| < LiveCount(cat) then
      if DropPlan(cat, want) == [] then NoDdl else PgDdl(DropColumn, DropPlan(cat, want))
    else if Touches(AlterPlan(cat, pk, want)) then PgDdl(AlterColumn, AlterPlan(cat, pk, want))
    else NoDdl
  }

  // ------------------------------------------------------ the loops themselves

  method CountActiveColumns(cat: Catalog) returns (count: nat)
    ensures count == LiveCount(cat)
  {
    count := 0;
    for i := 0 to |cat|
      invariant count == LiveCount(cat[..i])
    {
      assert cat[..i + 1][..i] == cat[..i];
      if !cat[i].dropped {
        count := count + 1;
      }
    }
    assert cat[..|cat|] == cat;
  }

  method HasMarker(name: string) returns (marked: bool)
    ensures marked == Marked(name)
  {
    for i := 0 to |name| + 1
      invariant forall k :: 0 <= k < i ==> !MarkedAt(name, k)
    {
      if MarkedAt(name, i) {
        return true;
      }
    }
    return false;
  }

  /** The ADD branch's search: attnum stops at the match or one past the last attribute. */
  method FindAttribute(cat: Catalog, name: string) returns (found: bool, attnum: nat)
    ensures found == Visible(cat, name)
    ensures !found ==> attnum == |cat| + 1
  {
    attnum := 1;
    while attnum <= |cat|
      invariant 1 <= attnum <= |cat| + 1
      invariant forall k :: 0 <= k < attnum - 1 ==> cat[k].name != name || Marked(name)
    {
      var skip := HasMarker(cat[attnum - 1].name);
      if !skip && name == cat[attnum - 1].name {
        return true, attnum;
      }
      attnum := attnum + 1;
    }
    return false, attnum;
  }

  lemma PlanOneMore(cat: Catalog, want: seq<string>, i: nat)
    requires i < |want|
    ensures var before := NewNames(cat, want[..i]);
      if Visible(cat, want[i]) then
        AddPlan(cat, want[..i + 1]) == AddPlan(cat, want[..i]) + [PLACEHOLDER] && NewNames(cat, want[..i + 1]) == before
      else
        && AddPlan(cat, want[..i + 1]) == AddPlan(cat, want[..i]) + [PgColumn(Some(want[i]), |cat| + 1 + |before|)]
        && NewNames(cat, want[..i + 1]) == before + [want[i]]
  {
    assert want[..i + 1][..i] == want[..i] && want[..i + 1][i] == want[i];
  }

  method ConvertAdd(n: Naming, cols: seq<string>, cat: Catalog) returns (ddl: PgDdl)
    ensures ddl == if NewNames(cat, Mapped(n, cols)) == [] then NoDdl else PgDdl(AddColumn, AddPlan(cat, Mapped(n, cols)))
  {
    ghost var want := Mapped(n, cols);
    var columns, newcol, altered := [], 0, false;
    for i := 0 to |cols|
      invariant columns == AddPlan(cat, want[..i]) && newcol == |NewNames(cat, want[..i])|
      invariant altered == (newcol > 0)
    {
      var name := PgName(n, cols[i]);
      PlanOneMore(cat, want, i);
      var found, attnum := FindAttribute(cat, name);
      var pgcol := PLACEHOLDER;
      if !found {
        altered := true;
        pgcol := PgColumn(Some(name), attnum + newcol);
        newcol := newcol + 1;
      }
      columns := columns + [pgcol];
    }
    assert want[..|cols|] == want;
    ddl := if altered then PgDdl(AddColumn, columns) else NoDdl;
  }

  method StillWanted(n: Naming, cols: seq<string>, name: string) returns (found: bool)
    ensures found == (name in Mapped(n, cols))
  {
    ghost var want := Mapped(n, cols);
    for i := 0 to |cols|
      invariant name !in want[..i]
    {
      assert want[..i + 1] == want[..i] + [want[i]];
      if PgName(n, cols[i]) == name {
        assert want[i] == name;
        return true;
      }
    }
    assert want[..|cols|] == want;
    return false;
  }

  method ConvertDrop(n: Naming, cols: seq<string>, cat: Catalog) returns (ddl: PgDdl)
    ensures ddl == if DropPlan(cat, Mapped(n, cols)) == [] then NoDdl else PgDdl(DropColumn, DropPlan(cat, Mapped(n, cols)))
  {
    ghost var want := Mapped(n, cols);
    var columns, altered := [], false;
    for i := 0 to |cat|
      invariant columns == DropPlan(cat[..i], want) && altered == (columns != [])
    {
      assert cat[..i + 1][..i] == cat[..i];
      var skip := HasMarker(cat[i].name);
      if !skip {
        var found := StillWanted(n, cols, cat[i].name);
        if !found {
          altered := true;
          columns := columns + [PgColumn(Some(cat[i].name), i + 1)];
        }
      }
    }
    assert cat[..|cat|] == cat;
    ddl := if altered then PgDdl(DropColumn, columns) else NoDdl;
  }

  method AlterOne(cat: Catalog, pk: set<nat>, name: string) returns (pgcol: PgColumn)
    ensures pgcol == AlterColumnPlan(cat, pk, name)
  {
    pgcol := PLACEHOLDER;
    for i := 0 to |cat|
      invariant pgcol == AlterColumnPlan(cat[..i], pk, name)
    {
      assert cat[..i + 1][..i] == cat[..i];
      if !cat[i].dropped && name == cat[i].name && i + 1 !in pk {
        pgcol := PgColumn(Some(name), i + 1);
      }
    }
    assert cat[..|cat|] == cat;
  }

  method ComposeAlterColumnClauses(n: Naming, cols: seq<string>, cat: Catalog, pk: set<nat>)
    returns (columns: seq<PgColumn>, atLeastOne: bool)
    ensures columns == AlterPlan(cat, pk, Mapped(n, cols))
    ensures atLeastOne == Touches(columns)
  {
    columns, atLeastOne := [], false;
    for i := 0 to |cols|
      invariant columns == AlterPlan(cat, pk, Mapped(n, cols))[..i]
      invariant atLeastOne == Touches(columns)
    {
      var pgcol := AlterOne(cat, pk, PgName(n, cols[i]));
      ghost var before := columns;
      columns := columns + [pgcol];
      assert columns[i] == pgcol && forall k :: 0 <= k < i ==> columns[k] == before[k];
      atLeastOne := atLeastOne || pgcol.name.Some?;
    }
  }

  /** The diff of convert2PGDDL. */
  method ConvertAlter(n: Naming, cols: seq<string>, cat: Catalog, pk: set<nat>) returns (ddl: PgDdl)
    ensures ddl == Diff(cat, pk, Mapped(n, cols))
  {
    var active := CountActiveColumns(cat);
    if |cols| > active {
      ddl := ConvertAdd(n, cols, cat);
    } else if |cols| < active {
      ddl := ConvertDrop(n, cols, cat);
    } else {
      var columns, atLeastOne := ComposeAlterColumnClauses(n, cols, cat, pk);
      ddl := if atLeastOne then PgDdl(AlterColumn, columns) else NoDdl;
    }
  }

  // ------------------------------------------------- what PostgreSQL does with it

  /** The names as PostgreSQL stores them. */
  function ClippedNames(want: seq<string>): (names: seq<string>)
    ensures |names| == |want| && forall i :: 0 <= i < |want| ==> names[i] == NR.Clipped(want[i])
  {
    seq(|want|, i requires 0 <= i < |want| => NR.Clipped(want[i]))
  }

  ghost function PgNames(want: seq<string>): set<string> {
    NameSet(ClippedNames(want))
  }

  /** ADD COLUMN IF NOT EXISTS: the next attribute number, never a freed one. */
  ghost function AddOne(cat: Catalog, name: string): Catalog {
    if NR.Clipped(name) in AllNames(cat) then cat else cat + [Attr(NR.Clipped(name), false)]
  }

  ghost function AddAll(cat: Catalog, plan: seq<PgColumn>): Catalog {
    if plan == [] then cat
    else
      var n := |plan| - 1;
      var before := AddAll(cat, plan[..n]);
      if plan[n].name.Some? then AddOne(before, plan[n].name.value) else before
  }

  /** DROP COLUMN IF EXISTS: the attribute stays as a hole. */
  ghost function DropOne(cat: Catalog, name: string): (r: Catalog)
    ensures |r| == |cat|
  {
    seq(|cat|, i requires 0 <= i < |cat| =>
      if !cat[i].dropped && cat[i].name == name then Attr(DroppedName(i + 1), true) else cat[i])
  }

  ghost function DropAll(cat: Catalog, plan: seq<PgColumn>): (r: Catalog)
    ensures |r| == |cat|
  {
    if plan == [] then cat
    else
      var n := |plan| - 1;
      var before := DropAll(cat, plan[..n]);
      if plan[n].name.Some? then DropOne(before, plan[n].name.value) else before
  }

  ghost function Executed(cat: Catalog, ddl: PgDdl): Catalog {
    if ddl.NoDdl? || ddl.subtype.AlterColumn? then cat
    else if ddl.subtype.AddColumn? then AddAll(cat, ddl.columns)
    else DropAll(cat, ddl.columns)
  }

  /** The catalog after an ALTER event. */
  ghost function After(cat: Catalog, pk: set<nat>, want: seq<string>): Catalog {
    Executed(cat, Diff(cat, pk, want))
  }

  // ------------------------------------------------------------------ adding

  ghost predicate PredictedAt(plan: seq<PgColumn>, cat: Catalog, i: nat) {
    i < |plan| && plan[i].name.Some? ==>
      0 < plan[i].position <= |cat| && cat[plan[i].position - 1] == Attr(NR.Clipped(plan[i].name.value), false)
  }

  /** Each column the plan adds sits, live, at the number the plan predicts. */
  ghost predicate Predicted(plan: seq<PgColumn>, cat: Catalog) {
    forall i :: 0 <= i < |plan| ==> PredictedAt(plan, cat, i)
  }

  /** No two of the columns that were not found are stored under one name. */
  ghost predicate NewDistinct(cat: Catalog, want: seq<string>) {
    forall j, i :: 0 <= j < i < |want| && !Visible(cat, want[j]) && !Visible(cat, want[i]) ==>
      NR.Clipped(want[j]) != NR.Clipped(want[i])
  }

  /** The columns that were not found are really new: not there, and named once. */
  ghost predicate ReallyNew(cat: Catalog, want: seq<string>) {
    && NewDistinct(cat, want)
    && forall i :: 0 <= i < |want| && !Visible(cat, want[i]) ==> NR.Clipped(want[i]) !in AllNames(cat)
  }

  /** Those of the columns not found that ADD COLUMN IF NOT EXISTS does add. */
  ghost function RealNames(cat: Catalog, want: seq<string>): seq<string> {
    if want == [] then []
    else
      var n := |want| - 1;
      RealNames(cat, want[..n]) +
      if Visible(cat, want[n]) || NR.Clipped(want[n]) in AllNames(cat) then [] else [want[n]]
  }

  lemma {:induction false} AddPlanAt(cat: Catalog, want: seq<string>, i: nat)
    requires i < |want|
    ensures AddPlan(cat, want)[i] ==
      if Visible(cat, want[i]) then PLACEHOLDER else PgColumn(Some(want[i]), |cat| + 1 + |NewNames(cat, want[..i])|)
    ensures !Visible(cat, want[i]) ==> |NewNames(cat, want[..i])| < |NewNames(cat, want)|
    ensures |NewNames(cat, want[..i])| <= |NewNames(cat, want)|
  {
    var n := |want| - 1;
    if i < n {
      AddPlanAt(cat, want[..n], i);
      assert want[..n][..i] == want[..i];
    }
  }

  function Fresh(names: seq<string>): (attrs: Catalog)
    ensures |attrs| == |names|
  {
    seq(|names|, i requires 0 <= i < |names| => Attr(NR.Clipped(names[i]), false))
  }

  lemma {:induction false} NewNamesMembers(cat: Catalog, want: seq<string>, name: string)
    ensures name in NewNames(cat, want) <==> name in want && !Visible(cat, name)
  {
    if want != [] {
      var n := |want| - 1;
      NewNamesMembers(cat, want[..n], name);
      assert want == want[..n] + [want[n]];
    }
  }

  lemma {:induction false} RealNamesMembers(cat: Catalog, want: seq<string>, name: string)
    ensures name in RealNames(cat, want) <==> name in want && !Visible(cat, name) && NR.Clipped(name) !in AllNames(cat)
  {
    if want != [] {
      var n := |want| - 1;
      RealNamesMembers(cat, want[..n], name);
      assert want == want[..n] + [want[n]];
    }
  }

  lemma {:induction false} AllReal(cat: Catalog, want: seq<string>)
    requires forall i :: 0 <= i < |want| && !Visible(cat, want[i]) ==> NR.Clipped(want[i]) !in AllNames(cat)
    ensures RealNames(cat, want) == NewNames(cat, want)
  {
    if want != [] {
      AllReal(cat, want[..|want| - 1]);
    }
  }

  lemma PgNamesMember(want: seq<string>, x: string)
    requires x in want
    ensures NR.Clipped(x) in PgNames(want)
  {
    var i :| 0 <= i < |want| && want[i] == x;
    assert ClippedNames(want)[i] == NR.Clipped(x);
  }

  lemma PgNamesOrigin(want: seq<string>, y: string) returns (x: string)
    requires y in PgNames(want)
    ensures x in want && NR.Clipped(x) == y
  {
    var i :| 0 <= i < |want| && ClippedNames(want)[i] == y;
    x := want[i];
  }

  lemma LiveNamesOfConcat(cat: Catalog, names: seq<string>)
    ensures LiveNames(cat + Fresh(names)) == LiveNames(cat) + PgNames(names)
  {
    var all := cat + Fresh(names);
    forall x | x in LiveNames(cat) ensures x in LiveNames(all) {
      var i :| 0 <= i < |cat| && !cat[i].dropped && cat[i].name == x;
      assert all[i] == cat[i];
    }
    forall x | x in PgNames(names) ensures x in LiveNames(all) {
      var i :| 0 <= i < |names| && ClippedNames(names)[i] == x;
      assert all[|cat| + i] == Attr(x, false);
    }
    forall x | x in LiveNames(all) ensures x in LiveNames(cat) + PgNames(names) {
      var i :| 0 <= i < |all| && !all[i].dropped && all[i].name == x;
      if i < |cat| {
        assert cat[i] == all[i];
      } else {
        assert ClippedNames(names)[i - |cat|] == x;
      }
    }
  }

  lemma AllNamesOfConcat(cat: Catalog, names: seq<string>)
    ensures AllNames(cat + Fresh(names)) == AllNames(cat) + PgNames(names)
  {
    var all := cat + Fresh(names);
    forall x | x in AllNames(cat) ensures x in AllNames(all) {
      var i :| 0 <= i < |cat| && cat[i].name == x;
      assert all[i] == cat[i];
    }
    forall x | x in PgNames(names) ensures x in AllNames(all) {
      var i :| 0 <= i < |names| && ClippedNames(names)[i] == x;
      assert all[|cat| + i].name == x;
    }
    forall x | x in AllNames(all) ensures x in AllNames(cat) + PgNames(names) {
      var i :| 0 <= i < |all| && all[i].name == x;
      if i < |cat| {
        assert cat[i] == all[i];
      } else {
        assert ClippedNames(names)[i - |cat|] == x;
      }
    }
  }

  lemma NotAddedBefore(cat: Catalog, want: seq<string>)
    requires want != [] && NewDistinct(cat, want) && !Visible(cat, want[|want| - 1])
    ensures NR.Clipped(want[|want| - 1]) !in PgNames(RealNames(cat, want[..|want| - 1]))
  {
    var n := |want| - 1;
    var added := RealNames(cat, want[..n]);
    if NR.Clipped(want[n]) in PgNames(added) {
      var x := PgNamesOrigin(added, NR.Clipped(want[n]));
      RealNamesMembers(cat, want[..n], x);
    }
  }

  /** The catalog after an add: exactly the really new columns, in order, behind the old attributes. */
  lemma {:induction false} AddAllAppends(cat: Catalog, want: seq<string>)
    requires NewDistinct(cat, want)
    ensures AddAll(cat, AddPlan(cat, want)) == cat + Fresh(RealNames(cat, want))
  {
    if want == [] {
      assert cat + Fresh([]) == cat;
    } else {
      var n := |want| - 1;
      var w, plan := want[..n], AddPlan(cat, want);
      assert plan[..n] == AddPlan(cat, w);
      AddAllAppends(cat, w);
      if !Visible(cat, want[n]) {
        NotAddedBefore(cat, want);
        AddNext(cat, RealNames(cat, w), want[n]);
      }
    }
  }

  lemma AddNext(cat: Catalog, added: seq<string>, name: string)
    requires NR.Clipped(name) !in PgNames(added)
    ensures AddOne(cat + Fresh(added), name) ==
      cat + Fresh(if NR.Clipped(name) in AllNames(cat) then added else added + [name])
  {
    AllNamesOfConcat(cat, added);
    FreshMore(added, name);
  }

  lemma FreshMore(names: seq<string>, name: string)
    ensures Fresh(names + [name]) == Fresh(names) + [Attr(NR.Clipped(name), false)]
  {
  }

  lemma {:induction false} NewNamesAt(cat: Catalog, want: seq<string>, i: nat)
    requires i < |want| && !Visible(cat, want[i])
    ensures |NewNames(cat, want[..i])| < |NewNames(cat, want)|
    ensures NewNames(cat, want)[|NewNames(cat, want[..i])|] == want[i]
  {
    var n := |want| - 1;
    if i < n {
      NewNamesAt(cat, want[..n], i);
      assert want[..n][..i] == want[..i];
    }
  }

  /** Added attributes are live and have names that no other attribute has. */
  ghost predicate Added(cat: Catalog, cat': Catalog) {
    && cat <= cat'
    && forall i, k :: 0 <= i < k < |cat'| && |cat| <= k ==> !cat'[k].dropped && cat'[i].name != cat'[k].name
  }

  lemma {:induction false} AddAllKeeps(cat: Catalog, plan: seq<PgColumn>)
    ensures Added(cat, AddAll(cat, plan))
  {
    if plan != [] {
      var n := |plan| - 1;
      AddAllKeeps(cat, plan[..n]);
      if plan[n].name.Some? {
        AddedMore(cat, AddAll(cat, plan[..n]), plan[n].name.value);
      }
    }
  }

  lemma AddedMore(cat: Catalog, cat': Catalog, name: string)
    requires Added(cat, cat')
    ensures Added(cat, AddOne(cat', name))
  {
    var c := NR.Clipped(name);
    if c !in AllNames(cat') {
      forall i | 0 <= i < |cat'| ensures cat'[i].name != c {
        assert cat'[i].name in AllNames(cat');
      }
    }
  }

  lemma AddedLiveDistinct(cat: Catalog, cat': Catalog)
    requires LiveDistinct(cat) && Added(cat, cat')
    ensures LiveDistinct(cat')
  {
  }

  /**
   * For every catalog, holes included, and every remote list: each added column
   * gets the attribute number predicted for it if and only if the columns not
   * found are, as PostgreSQL stores them, not there and not repeated.
   */
  lemma AttributeNumbersPredicted(cat: Catalog, want: seq<string>)
    ensures Predicted(AddPlan(cat, want), AddAll(cat, AddPlan(cat, want))) <==> ReallyNew(cat, want)
  {
    var plan := AddPlan(cat, want);
    var cat' := AddAll(cat, plan);
    if ReallyNew(cat, want) {
      ReallyNewPredicted(cat, want);
    }
    if Predicted(plan, cat') {
      AddAllKeeps(cat, plan);
      PredictedIsNew(cat, want, cat');
    }
  }

  lemma PredictedIsNew(cat: Catalog, want: seq<string>, cat': Catalog)
    requires Added(cat, cat') && Predicted(AddPlan(cat, want), cat')
    ensures ReallyNew(cat, want)
  {
    forall j, i | 0 <= j < i < |want| && !Visible(cat, want[j]) && !Visible(cat, want[i])
      ensures NR.Clipped(want[j]) != NR.Clipped(want[i])
    {
      PredictedOnce(cat, want, cat', j, i);
    }
    forall i | 0 <= i < |want| && !Visible(cat, want[i]) ensures NR.Clipped(want[i]) !in AllNames(cat) {
      AddPlanAt(cat, want, i);
      assert PredictedAt(AddPlan(cat, want), cat', i);
      NotThereBefore(cat, cat', AddPlan(cat, want)[i].position - 1);
    }
  }

  lemma ReallyNewPredicted(cat: Catalog, want: seq<string>)
    requires ReallyNew(cat, want)
    ensures Predicted(AddPlan(cat, want), AddAll(cat, AddPlan(cat, want)))
  {
    AddAllAppends(cat, want);
    AllReal(cat, want);
    forall i | 0 <= i < |want| ensures PredictedAt(AddPlan(cat, want), cat + Fresh(NewNames(cat, want)), i) {
      NewIsPredicted(cat, want, i);
    }
  }

  lemma NewIsPredicted(cat: Catalog, want: seq<string>, i: nat)
    requires i < |want|
    ensures PredictedAt(AddPlan(cat, want), cat + Fresh(NewNames(cat, want)), i)
  {
    AddPlanAt(cat, want, i);
    if !Visible(cat, want[i]) {
      NewNamesAt(cat, want, i);
    }
  }

  lemma PositionsGrow(cat: Catalog, want: seq<string>, j: nat, i: nat)
    requires j < i < |want| && !Visible(cat, want[j]) && !Visible(cat, want[i])
    ensures |cat| < AddPlan(cat, want)[j].position < AddPlan(cat, want)[i].position
  {
    AddPlanAt(cat, want, j);
    AddPlanAt(cat, want, i);
    AddPlanAt(cat, want[..i], j);
    assert want[..i][..j] == want[..j];
  }

  lemma NotThereBefore(cat: Catalog, cat': Catalog, at: nat)
    requires Added(cat, cat') && |cat| <= at < |cat'|
    ensures cat'[at].name !in AllNames(cat)
  {
    forall k | 0 <= k < |cat| ensures cat[k].name != cat'[at].name {
      assert cat'[k] == cat[k] && k < at;
    }
  }

  lemma PredictedOnce(cat: Catalog, want: seq<string>, cat': Catalog, j: nat, i: nat)
    requires j < i < |want| && !Visible(cat, want[j]) && !Visible(cat, want[i])
    requires Added(cat, cat') && Predicted(AddPlan(cat, want), cat')
    ensures NR.Clipped(want[j]) != NR.Clipped(want[i])
  {
    PositionsGrow(cat, want, j, i);
    AddPlanAt(cat, want, j);
    AddPlanAt(cat, want, i);
    assert PredictedAt(AddPlan(cat, want), cat', i) && PredictedAt(AddPlan(cat, want), cat', j);
  }

  /** Two columns, neither of which is found. */
  lemma TwoUnseen(cat: Catalog, x: string, y: string)
    requires !Visible(cat, x) && !Visible(cat, y)
    ensures AddPlan(cat, [x, y]) == [PgColumn(Some(x), |cat| + 1), PgColumn(Some(y), |cat| + 2)]
  {
    assert [x, y][..1] == [x] && [x][..0] == [];
    assert NewNames(cat, [x]) == [x];
    assert AddPlan(cat, [x]) == [PgColumn(Some(x), |cat| + 1)];
  }

  /** Of which the first one is there. */
  lemma SecondIsAdded(cat: Catalog, x: string, y: string)
    requires NR.Clipped(x) in AllNames(cat) && NR.Clipped(y) !in AllNames(cat)
    ensures AddAll(cat, [PgColumn(Some(x), |cat| + 1), PgColumn(Some(y), |cat| + 2)]) == cat + [Attr(NR.Clipped(y), false)]
  {
    var plan := [PgColumn(Some(x), |cat| + 1), PgColumn(Some(y), |cat| + 2)];
    assert plan[..1] == [PgColumn(Some(x), |cat| + 1)] && plan[..1][..0] == [];
    assert AddAll(cat, plan[..1]) == cat;
  }

  /** A column that the code does not recognise, and a new one behind it. */
  lemma UnseenMispredicted(x: string)
    requires !Visible(Fresh([x]), x) && NR.Clipped(x) != "b"
    ensures var cat := Fresh([x]);
      && AddPlan(cat, [x, "b"]) == [PgColumn(Some(x), 2), PgColumn(Some("b"), 3)]
      && AddAll(cat, AddPlan(cat, [x, "b"])) == cat + [Attr("b", false)]
  {
    var cat := Fresh([x]);
    assert cat == [Attr(NR.Clipped(x), false)];
    assert !Visible(cat, "b");
    assert cat[0].name in AllNames(cat) && "b" !in AllNames(cat);
    TwoUnseen(cat, x, "b");
    SecondIsAdded(cat, x, "b");
  }

  /**
   * A table that was created with a column x of 64 characters, and the list
   * (x, b): x is not recognised and b is expected at number 3, but gets 2.
   */
  lemma LongNameMispredicted(x: string)
    requires |x| == 64 && !Marked(x)
    ensures var cat := Fresh([x]);
      && WellFormed(cat)
      && AddPlan(cat, [x, "b"]) == [PgColumn(Some(x), 2), PgColumn(Some("b"), 3)]
      && AddAll(cat, AddPlan(cat, [x, "b"])) == cat + [Attr("b", false)]
  {
    MarkedClipped(x);
    NotAHole(NR.Clipped(x));
    UnseenMispredicted(x);
  }

  /** So with a column x that carries the marker. */
  lemma MarkedNameMispredicted(x: string)
    requires Marked(x) && !HoleName(x) && |x| < NR.NAMEDATALEN
    ensures var cat := Fresh([x]);
      && WellFormed(cat) && Usable([x, "b"])
      && AddPlan(cat, [x, "b"]) == [PgColumn(Some(x), 2), PgColumn(Some("b"), 3)]
      && AddAll(cat, AddPlan(cat, [x, "b"])) == cat + [Attr("b", false)]
  {
    NotAHole("b");
    assert ClippedNames([x, "b"]) == [x, "b"];
    UnseenMispredicted(x);
  }

  // ---------------------------------------------------------------- dropping

  ghost predicate Names(plan: seq<PgColumn>, name: string) {
    exists i :: 0 <= i < |plan| && plan[i].name == Some(name)
  }

  lemma {:induction false} DropAllAt(cat: Catalog, plan: seq<PgColumn>, i: nat)
    requires i < |cat|
    ensures DropAll(cat, plan)[i] ==
      if !cat[i].dropped && Names(plan, cat[i].name) then Attr(DroppedName(i + 1), true) else cat[i]
  {
    if plan != [] {
      var n := |plan| - 1;
      DropAllAt(cat, plan[..n], i);
      NamesSplit(plan, cat[i].name);
    }
  }

  lemma NamesSplit(plan: seq<PgColumn>, name: string)
    requires plan != []
    ensures Names(plan, name) <==> Names(plan[..|plan| - 1], name) || plan[|plan| - 1].name == Some(name)
  {
    var n := |plan| - 1;
    if k :| 0 <= k < n && plan[k].name == Some(name) {
      assert plan[..n][k].name == Some(name);
    }
  }

  lemma {:induction false} DropPlanNames(cat: Catalog, want: seq<string>, name: string)
    ensures Names(DropPlan(cat, want), name) <==>
      name !in want && !Marked(name) && exists i :: 0 <= i < |cat| && cat[i].name == name
  {
    if cat != [] {
      var n := |cat| - 1;
      DropPlanNames(cat[..n], want, name);
      var p, p' := DropPlan(cat[..n], want), DropPlan(cat, want);
      if Names(p, name) {
        var k :| 0 <= k < |p| && p[k].name == Some(name);
        assert p'[k] == p[k];
      }
      if Names(p', name) && !Names(p, name) {
        var k :| 0 <= k < |p'| && p'[k].name == Some(name);
        assert k < |p| ==> p[k] == p'[k];
      }
      if cat[n].name == name && name !in want && !Marked(name) {
        assert p'[|p|].name == Some(name);
      }
      if i :| 0 <= i < |cat| && cat[i].name == name && i < n {
        assert cat[..n][i].name == name;
      }
    }
  }

  /** DROP leaves every attribute in place: unwanted live ones without the marker become holes. */
  lemma DropsTheUnwanted(cat: Catalog, want: seq<string>, i: nat)
    requires i < |cat|
    ensures DropAll(cat, DropPlan(cat, want))[i] ==
      if cat[i].dropped || Marked(cat[i].name) || cat[i].name in want then cat[i] else Attr(DroppedName(i + 1), true)
  {
    DropAllAt(cat, DropPlan(cat, want), i);
    DropPlanNames(cat, want, cat[i].name);
  }

  // ------------------------------------------------------------- convergence

  /** Names a remote list may carry: distinct as PostgreSQL stores them, and none of its names for dropped columns. */
  ghost predicate Usable(want: seq<string>) {
    Distinct(ClippedNames(want)) && forall i :: 0 <= i < |want| ==> !HoleName(NR.Clipped(want[i]))
  }

  /** No name is longer than PostgreSQL's limit. */
  ghost predicate AllShort(want: seq<string>) {
    forall i :: 0 <= i < |want| ==> |want[i]| < NR.NAMEDATALEN
  }

  /** A drop spares these columns: the code finds their names in the list, or takes them for dropped ones. */
  ghost predicate Spared(want: seq<string>) {
    forall i :: 0 <= i < |want| ==> |want[i]| < NR.NAMEDATALEN || Marked(NR.Clipped(want[i]))
  }

  lemma NotAHole(name: string)
    requires !Marked(name)
    ensures !HoleName(name)
  {
  }

  lemma MarkedClipped(name: string)
    ensures Marked(NR.Clipped(name)) ==> Marked(name)
  {
    var c := NR.Clipped(name);
    if i :| 0 <= i <= |c| && MarkedAt(c, i) {
      assert name[i..i + |MARKER|] == c[i..i + |MARKER|];
      assert MarkedAt(name, i);
    }
  }

  lemma VisibleIsLive(cat: Catalog, name: string)
    requires WellFormed(cat)
    ensures Visible(cat, name) <==> name in LiveNames(cat) && !Marked(name)
  {
  }

  lemma ThereIsLive(cat: Catalog, name: string)
    requires WellFormed(cat) && !HoleName(name)
    ensures name in AllNames(cat) <==> name in LiveNames(cat)
  {
  }

  lemma UsableIsNewDistinct(cat: Catalog, want: seq<string>)
    requires Usable(want)
    ensures NewDistinct(cat, want)
  {
    assert forall i :: 0 <= i < |want| ==> ClippedNames(want)[i] == NR.Clipped(want[i]);
  }

  /** Every wanted column is live afterwards: found, already there, or added. */
  lemma WantedAreCovered(cat: Catalog, want: seq<string>)
    requires WellFormed(cat) && Usable(want)
    ensures LiveNames(cat) + PgNames(RealNames(cat, want)) == LiveNames(cat) + PgNames(want)
    ensures forall x :: x in RealNames(cat, want) ==> !HoleName(NR.Clipped(x))
  {
    var added := RealNames(cat, want);
    forall x | x in added ensures x in want && !HoleName(NR.Clipped(x)) {
      RealNamesMembers(cat, want, x);
    }
    forall y | y in PgNames(want) ensures y in LiveNames(cat) + PgNames(added) {
      var x := PgNamesOrigin(want, y);
      VisibleIsLive(cat, x);
      ThereIsLive(cat, y);
      RealNamesMembers(cat, want, x);
      if x in added {
        PgNamesMember(added, x);
      }
    }
    forall y | y in PgNames(added) ensures y in PgNames(want) {
      var x := PgNamesOrigin(added, y);
      PgNamesMember(want, x);
    }
  }

  lemma AfterAdd(cat: Catalog, want: seq<string>)
    requires WellFormed(cat) && Usable(want)
    ensures var r := AddAll(cat, AddPlan(cat, want));
      WellFormed(r) && LiveNames(r) == LiveNames(cat) + PgNames(want)
  {
    UsableIsNewDistinct(cat, want);
    AddAllAppends(cat, want);
    AddAllKeeps(cat, AddPlan(cat, want));
    AddedLiveDistinct(cat, AddAll(cat, AddPlan(cat, want)));
    LiveNamesOfConcat(cat, RealNames(cat, want));
    WantedAreCovered(cat, want);
  }

  /** What a drop makes of each attribute. */
  ghost predicate DropsTo(cat: Catalog, want: seq<string>, r: Catalog) {
    |r| == |cat| &&
    forall i :: 0 <= i < |cat| ==>
      r[i] == if cat[i].dropped || Marked(cat[i].name) || cat[i].name in want then cat[i] else Attr(DroppedName(i + 1), true)
  }

  lemma DropWellFormed(cat: Catalog, want: seq<string>, r: Catalog)
    requires WellFormed(cat) && DropsTo(cat, want, r)
    ensures WellFormed(r)
  {
    forall i | 0 <= i < |r| ensures (r[i].dropped <==> HoleName(r[i].name)) && |r[i].name| < NR.NAMEDATALEN {
      assert r[i] == cat[i] || r[i] == Attr(DroppedName(i + 1), true);
    }
    forall i, j | 0 <= i < j < |r| && !r[i].dropped && !r[j].dropped ensures r[i].name != r[j].name {
      assert r[i] == cat[i] && r[j] == cat[j];
    }
  }

  lemma DropLiveNames(cat: Catalog, want: seq<string>, r: Catalog)
    requires DropsTo(cat, want, r)
    ensures LiveNames(r) == LiveNames(cat) * NameSet(want) + Misread(cat)
  {
    forall x | x in LiveNames(cat) * NameSet(want) + Misread(cat) ensures x in LiveNames(r) {
      var i :| 0 <= i < |cat| && !cat[i].dropped && cat[i].name == x;
      assert r[i] == cat[i];
    }
    forall x | x in LiveNames(r) ensures x in LiveNames(cat) * NameSet(want) + Misread(cat) {
      var i :| 0 <= i < |r| && !r[i].dropped && r[i].name == x;
      assert r[i] == cat[i];
    }
  }

  lemma AfterDrop(cat: Catalog, want: seq<string>)
    requires WellFormed(cat)
    ensures var r := DropAll(cat, DropPlan(cat, want));
      WellFormed(r) && LiveNames(r) == LiveNames(cat) * NameSet(want) + Misread(cat)
  {
    var r := DropAll(cat, DropPlan(cat, want));
    forall i | 0 <= i < |cat|
      ensures r[i] ==
        if cat[i].dropped || Marked(cat[i].name) || cat[i].name in want then cat[i] else Attr(DroppedName(i + 1), true)
    {
      DropsTheUnwanted(cat, want, i);
    }
    DropWellFormed(cat, want, r);
    DropLiveNames(cat, want, r);
  }

  lemma {:induction false} AddPlanEmpty(cat: Catalog, want: seq<string>)
    ensures NewNames(cat, want) == [] ==> AddAll(cat, AddPlan(cat, want)) == cat
  {
    if want != [] {
      var n := |want| - 1;
      AddPlanEmpty(cat, want[..n]);
      assert AddPlan(cat, want)[..n] == AddPlan(cat, want[..n]);
    }
  }

  /** The live columns after one ALTER event, whatever the remote list. */
  lemma LiveAfter(cat: Catalog, pk: set<nat>, want: seq<string>)
    requires WellFormed(cat) && Usable(want)
    ensures WellFormed(After(cat, pk, want))
    ensures LiveNames(After(cat, pk, want)) ==
      if |want| > LiveCount(cat) then LiveNames(cat) + PgNames(want)
      else if |want| < LiveCount(cat) then LiveNames(cat) * NameSet(want) + Misread(cat)
      else LiveNames(cat)
  {
    if |want| > LiveCount(cat) {
      AddPlanEmpty(cat, want);
      AfterAdd(cat, want);
    } else if |want| < LiveCount(cat) {
      AfterDrop(cat, want);
    }
  }

  lemma SubsetSize<T>(a: set<T>, b: set<T>)
    requires a <= b
    ensures |a| <= |b| && (|a| == |b| ==> a == b)
  {
    assert b == a + (b - a);
  }

  lemma Sizes(cat: Catalog, want: seq<string>)
    requires WellFormed(cat) && Usable(want)
    ensures |LiveNames(cat)| == LiveCount(cat) && |PgNames(want)| == |want|
    ensures LiveNames(cat) <= PgNames(want) ==> LiveCount(cat) <= |want|
    ensures PgNames(want) <= LiveNames(cat) ==> |want| <= LiveCount(cat)
    ensures |want| == LiveCount(cat) && (LiveNames(cat) <= PgNames(want) || PgNames(want) <= LiveNames(cat)) ==>
      LiveNames(cat) == PgNames(want)
  {
    LiveCardinality(cat);
    NameCardinality(ClippedNames(want));
    if LiveNames(cat) <= PgNames(want) {
      SubsetSize(LiveNames(cat), PgNames(want));
    }
    if PgNames(want) <= LiveNames(cat) {
      SubsetSize(PgNames(want), LiveNames(cat));
    }
  }

  /**
   * The names that survive a drop are the wanted ones if and only if these were
   * live and are spared, and nothing else carries the marker.
   */
  lemma SurvivorsAreWanted(cat: Catalog, want: seq<string>)
    requires WellFormed(cat) && Usable(want)
    ensures LiveNames(cat) * NameSet(want) <= PgNames(want)
    ensures LiveNames(cat) * NameSet(want) + Misread(cat) == PgNames(want) <==>
      PgNames(want) <= LiveNames(cat) && Misread(cat) <= PgNames(want) && Spared(want)
  {
    var kept := LiveNames(cat) * NameSet(want);
    forall x | x in kept ensures x in PgNames(want) {
      PgNamesMember(want, x);
    }
    if kept + Misread(cat) == PgNames(want) {
      forall i | 0 <= i < |want| ensures |want[i]| < NR.NAMEDATALEN || Marked(NR.Clipped(want[i])) {
        WantedLongIsMarked(cat, want, i);
      }
    }
    if PgNames(want) <= LiveNames(cat) && Spared(want) {
      forall y | y in PgNames(want) ensures y in kept + Misread(cat) {
        var x := PgNamesOrigin(want, y);
      }
    }
  }

  lemma WantedLongIsMarked(cat: Catalog, want: seq<string>, i: nat)
    requires Usable(want) && i < |want| && PgNames(want) <= LiveNames(cat) * NameSet(want) + Misread(cat)
    ensures |want[i]| < NR.NAMEDATALEN || Marked(NR.Clipped(want[i]))
  {
    PgNamesMember(want, want[i]);
    if !Marked(NR.Clipped(want[i])) {
      var j :| 0 <= j < |want| && want[j] == NR.Clipped(want[i]);
      assert ClippedNames(want)[j] == ClippedNames(want)[i];
    }
  }

  /**
   * One ALTER event brings the live columns to the remote list (as far as
   * PostgreSQL stores its names) if and only if it is a pure add or no change,
   * or a pure drop that neither lists a name of 64 or more characters nor is to
   * drop a column whose name carries the marker.
   */
  lemma AlterConverges(cat: Catalog, pk: set<nat>, want: seq<string>)
    requires WellFormed(cat) && Usable(want)
    ensures LiveNames(After(cat, pk, want)) == PgNames(want) <==>
      || LiveNames(cat) <= PgNames(want)
      || (PgNames(want) <= LiveNames(cat) && Misread(cat) <= PgNames(want) && Spared(want))
  {
    LiveAfter(cat, pk, want);
    Sizes(cat, want);
    SurvivorsAreWanted(cat, want);
  }

  /**
   * The same event applied twice reaches the remote list if and only if the
   * list showed already; or was shorter, with all columns that carry the marker
   * in it; or was longer, and either listed all live columns or those that carry
   * the marker and no name of 64 or more characters. An add mixed with a drop
   * takes two rounds, a rename is never followed.
   */
  lemma TwiceConverges(cat: Catalog, pk: set<nat>, want: seq<string>)
    requires WellFormed(cat) && Usable(want)
    ensures LiveNames(After(After(cat, pk, want), pk, want)) == PgNames(want) <==>
      || (|want| < LiveCount(cat) && Misread(cat) <= PgNames(want))
      || LiveNames(cat) == PgNames(want)
      || (|want| > LiveCount(cat) && (LiveNames(cat) <= PgNames(want) || (Misread(cat) <= PgNames(want) && Spared(want))))
  {
    var cat' := After(cat, pk, want);
    LiveAfter(cat, pk, want);
    AlterConverges(cat', pk, want);
    Sizes(cat, want);
    SurvivorsAreWanted(cat, want);
    if |want| < LiveCount(cat) {
      assert Misread(cat') == Misread(cat);
    } else if |want| > LiveCount(cat) {
      assert Misread(cat') <= PgNames(want) <==> Misread(cat) <= PgNames(want);
    }
  }

  /** A table (a) whose column is renamed to b remotely keeps showing a. */
  lemma RenameIsNotFollowed(pk: set<nat>)
    ensures var cat := [Attr("a", false)];
      WellFormed(cat) && Usable(["b"]) && LiveNames(After(After(cat, pk, ["b"]), pk, ["b"])) != PgNames(["b"])
  {
    var cat := [Attr("a", false)];
    assert LiveCount(cat[..0]) == 0;
    assert cat[0].name in LiveNames(cat);
    assert ClippedNames(["b"]) == ["b"];
    TwiceConverges(cat, pk, ["b"]);
  }

  /** A table with a column x of 64 characters and a column b, and the list (x): both are dropped. */
  lemma LongNameIsDropped(x: string, pk: set<nat>)
    requires |x| == 64 && !Marked(x) && x[0] != 'b'
    ensures var cat := Fresh([x, "b"]);
      WellFormed(cat) && Usable([x]) && PgNames([x]) <= LiveNames(cat) && LiveNames(After(cat, pk, [x])) == {}
  {
    var cat := Fresh([x, "b"]);
    MarkedClipped(x);
    assert cat[0] == Attr(NR.Clipped(x), false) && cat[1] == Attr("b", false);
    assert NR.Clipped(x)[0] == x[0];
    assert LiveCount(cat[..1][..0]) == 0;
    assert LiveCount(cat[..1]) == 1;
    forall y | y in PgNames([x]) ensures y in LiveNames(cat) {
      var z := PgNamesOrigin([x], y);
      assert cat[0].name == y;
    }
    LiveAfter(cat, pk, [x]);
  }

  /** Once the names agree, the same list leaves the whole catalog as it is. */
  lemma ReapplyingKeeps(cat: Catalog, pk: set<nat>, want: seq<string>)
    requires WellFormed(cat) && Usable(want) && LiveNames(cat) == PgNames(want)
    ensures After(cat, pk, want) == cat
  {
    Sizes(cat, want);
  }

  /** A longer list always has a column to add, a shorter one leaves a column to drop unless all it lacks carry the marker. */
  lemma SizesDecide(cat: Catalog, want: seq<string>)
    requires WellFormed(cat) && Usable(want)
    ensures |want| > LiveCount(cat) ==> NewNames(cat, want) != []
    ensures DropPlan(cat, want) == [] <==> LiveNames(cat) <= NameSet(want) + Misread(cat)
  {
    Sizes(cat, want);
    if |want| > LiveCount(cat) {
      AddPlanEmpty(cat, want);
      AfterAdd(cat, want);
      SubsetSize(PgNames(want), LiveNames(cat) + PgNames(want));
    }
    NothingToDrop(cat, want);
  }

  lemma NothingToDrop(cat: Catalog, want: seq<string>)
    requires WellFormed(cat)
    ensures DropPlan(cat, want) == [] <==> LiveNames(cat) <= NameSet(want) + Misread(cat)
  {
    var plan := DropPlan(cat, want);
    if plan == [] {
      forall x | x in LiveNames(cat) ensures x in NameSet(want) + Misread(cat) {
        DropPlanNames(cat, want, x);
      }
    } else {
      DropPlanNamesSome(cat, want);
      var x := plan[0].name.value;
      assert Names(plan, x);
      DropPlanNames(cat, want, x);
      VisibleIsLive(cat, x);
    }
  }

  lemma {:induction false} DropPlanNamesSome(cat: Catalog, want: seq<string>)
    ensures forall i :: 0 <= i < |DropPlan(cat, want)| ==> DropPlan(cat, want)[i].name.Some?
  {
    if cat != [] {
      DropPlanNamesSome(cat[..|cat| - 1], want);
    }
  }

  /** A list that is longer is always taken for an add. */
  lemma DiffIs(cat: Catalog, pk: set<nat>, want: seq<string>)
    requires WellFormed(cat) && Usable(want)
    ensures |want| > LiveCount(cat) ==> Diff(cat, pk, want) == PgDdl(AddColumn, AddPlan(cat, want))
    ensures |want| < LiveCount(cat) ==>
      Diff(cat, pk, want) == if DropPlan(cat, want) == [] then NoDdl else PgDdl(DropColumn, DropPlan(cat, want))
  {
    SizesDecide(cat, want);
  }

  /** A table with a column x that carries the marker and a column b, and the list (b): x is never dropped. */
  lemma MarkedNameStays(x: string, pk: set<nat>)
    requires Marked(x) && !HoleName(x) && |x| < NR.NAMEDATALEN
    ensures var cat := Fresh([x, "b"]);
      WellFormed(cat) && Usable(["b"]) && LiveNames(After(cat, pk, ["b"])) == {x, "b"}
  {
    var cat := Fresh([x, "b"]);
    NotAHole("b");
    assert x != "b";
    assert cat[0] == Attr(x, false) && cat[1] == Attr("b", false);
    assert LiveCount(cat[..1][..0]) == 0;
    assert LiveCount(cat[..1]) == 1;
    assert LiveNames(cat) == {x, "b"};
    LiveAfter(cat, pk, ["b"]);
  }
}

/**
 * synchdb_attribute, the map from PostgreSQL attribute numbers to remote column
 * names (updateSynchdbAttribute in src/backend/converter/format_converter.c),
 * and runs of CREATE, ALTER and DROP TABLE events for one remote table.
 */
module AttributeMap {

  import opened Wrappers
  import NR = NameResolution
  import opened SchemaDiff
  import DD = DecimalDecode
  import Positional

  /** The table's rows: attribute number to ext_attname, a column of type name. */
  type Rows = map<nat, string>

  /** INSERT ... ON CONFLICT DO UPDATE for every column that is not a placeholder. */
  function Upserted(rows: Rows, cols: seq<string>, plan: seq<PgColumn>): Rows
    requires |cols| == |plan|
  {
    if cols == [] then rows
    else
      var n := |cols| - 1;
      var before := Upserted(rows, cols[..n], plan[..n]);
      if plan[n].name.Some? then before[plan[n].position := NR.Clipped(cols[n])] else before
  }

  function DroppedExt(attnum: nat): string {
    NR.Clipped("........synchdb.dropped." + Numeral(attnum) + "........")
  }

  function MarkOne(rows: Rows, pgcol: PgColumn): Rows {
    if pgcol.name.None? then rows
    else
      map k | k in rows :: if NR.Lower(rows[k]) == NR.Lower(pgcol.name.value) then DroppedExt(pgcol.position) else rows[k]
  }

  /** One UPDATE per dropped column, matching ext_attname in any letter case. */
  function MarkedRows(rows: Rows, plan: seq<PgColumn>): (r: Rows)
    ensures r.Keys == rows.Keys
  {
    if plan == [] then rows
    else MarkOne(MarkedRows(rows, plan[..|plan| - 1]), plan[|plan| - 1])
  }

  /** Column lists run in parallel except for DROP. */
  predicate Aligned(cols: seq<string>, ddl: PgDdl) {
    ddl.PgDdl? && !ddl.subtype.DropColumn? ==> |ddl.columns| == |cols|
  }

  function UpdatedRows(rows: Rows, cols: seq<string>, ddl: PgDdl): Rows
    requires Aligned(cols, ddl)
  {
    if ddl.NoDdl? then rows
    else if ddl.subtype.DropColumn? then MarkedRows(rows, ddl.columns)
    else Upserted(rows, cols, ddl.columns)
  }

  method UpdateSynchdbAttribute(rows: Rows, cols: seq<string>, ddl: PgDdl) returns (rows': Rows)
    requires Aligned(cols, ddl)
    ensures rows' == UpdatedRows(rows, cols, ddl)
  {
    rows' := rows;
    if ddl.NoDdl? {
      return;
    }
    var plan := ddl.columns;
    assert plan[..|plan|] == plan && cols[..|cols|] == cols;
    if ddl.subtype.DropColumn? {
      for i := 0 to |plan|
        invariant rows' == MarkedRows(rows, plan[..i])
      {
        assert plan[..i + 1][..i] == plan[..i];
        rows' := MarkOne(rows', plan[i]);
      }
    } else {
      for i := 0 to |cols|
        invariant rows' == Upserted(rows, cols[..i], plan[..i])
      {
        assert plan[..i + 1][..i] == plan[..i] && cols[..i + 1][..i] == cols[..i];
        if plan[i].name.Some? {
          rows' := rows'[plan[i].position := NR.Clipped(cols[i])];
        }
      }
    }
  }

  // ------------------------------------------------------------ the map is right

  /** The stored text is that of a known remote column which resolves to this name. */
  ghost predicate Resolves(n: Naming, known: set<string>, text: string, name: string) {
    exists c :: c in known && NR.Clipped(c) == text && NR.Clipped(PgName(n, c)) == name
  }

  ghost predicate RightAt(n: Naming, known: set<string>, cat: Catalog, rows: Rows, p: nat) {
    0 < p <= |cat| && p in rows && Resolves(n, known, rows[p], cat[p - 1].name)
  }

  /** Every live attribute has a row that resolves to its name. */
  ghost predicate MapRight(n: Naming, known: set<string>, cat: Catalog, rows: Rows) {
    forall i :: 0 <= i < |cat| && !cat[i].dropped ==> RightAt(n, known, cat, rows, i + 1)
  }

  /** Texts do not leave open which name they resolve to. */
  ghost predicate Unambiguous(n: Naming, known: set<string>) {
    forall c, d :: c in known && d in known && NR.Clipped(c) == NR.Clipped(d) ==>
      NR.Clipped(PgName(n, c)) == NR.Clipped(PgName(n, d))
  }

  lemma ResolvesMeans(n: Naming, known: set<string>, c: string, name: string)
    requires Unambiguous(n, known) && c in known
    ensures Resolves(n, known, NR.Clipped(c), name) <==> NR.Clipped(PgName(n, c)) == name
  {
  }

  ghost predicate CoveredBy(plan: seq<PgColumn>, p: nat, i: int) {
    0 <= i < |plan| && plan[i].name.Some? && plan[i].position == p
  }

  ghost predicate Covers(plan: seq<PgColumn>, p: nat) {
    exists i :: CoveredBy(plan, p, i)
  }

  /** A row that the plan covers gets the text of a column at that number, the others stay. */
  lemma {:induction false} UpsertedAt(rows: Rows, cols: seq<string>, plan: seq<PgColumn>, p: nat) returns (i: int)
    requires |cols| == |plan|
    ensures Covers(plan, p) ==>
      CoveredBy(plan, p, i) && p in Upserted(rows, cols, plan) && Upserted(rows, cols, plan)[p] == NR.Clipped(cols[i])
    ensures !Covers(plan, p) ==>
      (p in Upserted(rows, cols, plan) <==> p in rows) && (p in rows ==> Upserted(rows, cols, plan)[p] == rows[p])
  {
    i := -1;
    if cols != [] {
      var k := |cols| - 1;
      i := UpsertedAt(rows, cols[..k], plan[..k], p);
      if CoveredBy(plan, p, k) {
        i := k;
      } else if Covers(plan, p) {
        var j :| CoveredBy(plan, p, j);
        assert CoveredBy(plan[..k], p, j);
      } else {
        assert forall j :: CoveredBy(plan[..k], p, j) ==> CoveredBy(plan, p, j);
      }
    }
  }

  /** Where the plan writes a row of a live attribute, it writes the column that this attribute is. */
  ghost predicate Agrees(n: Naming, cols: seq<string>, plan: seq<PgColumn>, cat: Catalog) {
    && |cols| == |plan|
    && forall i :: 0 <= i < |plan| && plan[i].name.Some? && 0 < plan[i].position <= |cat|
                   && !cat[plan[i].position - 1].dropped ==>
         NR.Clipped(PgName(n, cols[i])) == cat[plan[i].position - 1].name
  }

  ghost predicate Known(cols: seq<string>, known: set<string>) {
    forall i :: 0 <= i < |cols| ==> cols[i] in known
  }

  lemma UpsertKeepsMap(n: Naming, known: set<string>, cat: Catalog, rows: Rows, cols: seq<string>, plan: seq<PgColumn>)
    requires Agrees(n, cols, plan, cat) && Known(cols, known)
    requires forall i :: 0 <= i < |cat| && !cat[i].dropped ==> RightAt(n, known, cat, rows, i + 1) || Covers(plan, i + 1)
    ensures MapRight(n, known, cat, Upserted(rows, cols, plan))
  {
    forall i | 0 <= i < |cat| && !cat[i].dropped ensures RightAt(n, known, cat, Upserted(rows, cols, plan), i + 1) {
      var k := UpsertedAt(rows, cols, plan, i + 1);
      if Covers(plan, i + 1) {
        assert NR.Clipped(PgName(n, cols[k])) == cat[i].name;
      }
    }
  }

  // ---------------------------------------------------------------------- add

  lemma {:induction false} AddCovers(cat: Catalog, want: seq<string>, k: nat) returns (i: nat)
    requires k < |NewNames(cat, want)|
    ensures i < |want| && CoveredBy(AddPlan(cat, want), |cat| + 1 + k, i) && want[i] == NewNames(cat, want)[k]
  {
    var m := |want| - 1;
    assert AddPlan(cat, want)[..m] == AddPlan(cat, want[..m]);
    if k < |NewNames(cat, want[..m])| {
      i := AddCovers(cat, want[..m], k);
    } else {
      i := m;
    }
  }

  lemma AddCoversOnly(cat: Catalog, want: seq<string>, k: nat, i: int)
    requires CoveredBy(AddPlan(cat, want), |cat| + 1 + k, i)
    ensures k < |NewNames(cat, want)| && want[i] == NewNames(cat, want)[k]
  {
    AddPlanAt(cat, want, i);
    NewNamesAt(cat, want, i);
  }

  lemma AddPlanBeyond(cat: Catalog, want: seq<string>, i: int)
    requires 0 <= i < |want| && AddPlan(cat, want)[i].name.Some?
    ensures AddPlan(cat, want)[i].position > |cat|
  {
    AddPlanAt(cat, want, i);
  }

  /** The columns that PostgreSQL adds come first among those that the code takes for new. */
  ghost predicate InOrder(cat: Catalog, want: seq<string>) {
    RealNames(cat, want) <= NewNames(cat, want)
  }

  /** Names below 64 characters without the marker are recognised, so that the order does not matter. */
  lemma ShortIsInOrder(cat: Catalog, want: seq<string>)
    requires WellFormed(cat) && Usable(want) && AllShort(want)
    requires forall i :: 0 <= i < |want| ==> !Marked(want[i])
    ensures InOrder(cat, want) && ReallyNew(cat, want)
  {
    forall i | 0 <= i < |want| && !Visible(cat, want[i]) ensures NR.Clipped(want[i]) !in AllNames(cat) {
      VisibleIsLive(cat, want[i]);
      ThereIsLive(cat, want[i]);
    }
    UsableIsNewDistinct(cat, want);
    AllReal(cat, want);
  }

  /** The row of the k-th attribute added, and when it is right. */
  lemma AddedRow(n: Naming, known: set<string>, cols: seq<string>, cat: Catalog, rows: Rows, k: nat)
    requires Unambiguous(n, known) && Known(cols, known) && Usable(Mapped(n, cols))
    requires k < |RealNames(cat, Mapped(n, cols))| <= |NewNames(cat, Mapped(n, cols))|
    ensures var want := Mapped(n, cols);
      RightAt(n, known, cat + Fresh(RealNames(cat, want)), Upserted(rows, cols, AddPlan(cat, want)), |cat| + 1 + k)
      <==> RealNames(cat, want)[k] == NewNames(cat, want)[k]
  {
    var want := Mapped(n, cols);
    var added, taken := RealNames(cat, want)[k], NewNames(cat, want)[k];
    var i := AddedText(n, cols, cat, rows, k);
    ResolvesMeans(n, known, cols[i], NR.Clipped(added));
    if NR.Clipped(added) == NR.Clipped(taken) {
      RealNamesMembers(cat, want, added);
      SameStored(want, added, taken);
    }
  }

  /** The text written at the k-th new number. */
  lemma AddedText(n: Naming, cols: seq<string>, cat: Catalog, rows: Rows, k: nat) returns (i: nat)
    requires k < |NewNames(cat, Mapped(n, cols))|
    ensures var r := Upserted(rows, cols, AddPlan(cat, Mapped(n, cols)));
      i < |cols| && PgName(n, cols[i]) == NewNames(cat, Mapped(n, cols))[k] && PgName(n, cols[i]) in Mapped(n, cols)
      && |cat| + 1 + k in r && r[|cat| + 1 + k] == NR.Clipped(cols[i])
  {
    var want := Mapped(n, cols);
    var j := AddCovers(cat, want, k);
    i := UpsertedAt(rows, cols, AddPlan(cat, want), |cat| + 1 + k);
    AddCoversOnly(cat, want, k, i);
    assert want[i] == PgName(n, cols[i]);
  }

  lemma SameStored(want: seq<string>, x: string, y: string)
    requires Usable(want) && x in want && y in want && NR.Clipped(x) == NR.Clipped(y)
    ensures x == y
  {
    var i :| 0 <= i < |want| && want[i] == x;
    var j :| 0 <= j < |want| && want[j] == y;
    assert ClippedNames(want)[i] == ClippedNames(want)[j];
  }

  lemma {:induction false} RealNamesFewer(cat: Catalog, want: seq<string>)
    ensures |RealNames(cat, want)| <= |NewNames(cat, want)|
  {
    if want != [] {
      RealNamesFewer(cat, want[..|want| - 1]);
    }
  }

  lemma OldRowsStay(n: Naming, known: set<string>, cols: seq<string>, cat: Catalog, rows: Rows, cat': Catalog, i: nat)
    requires i < |cat| && cat <= cat' && RightAt(n, known, cat, rows, i + 1)
    ensures var plan := AddPlan(cat, Mapped(n, cols));
      i + 1 in Upserted(rows, cols, plan) && Upserted(rows, cols, plan)[i + 1] == rows[i + 1]
      && RightAt(n, known, cat', Upserted(rows, cols, plan), i + 1)
  {
    var want := Mapped(n, cols);
    var k := UpsertedAt(rows, cols, AddPlan(cat, want), i + 1);
    if Covers(AddPlan(cat, want), i + 1) {
      AddPlanBeyond(cat, want, k);
    }
    assert cat'[i] == cat[i];
  }

  /** After an add the map is right if and only if no column that was there already comes before a new one. */
  lemma AddKeepsMap(n: Naming, known: set<string>, cols: seq<string>, cat: Catalog, rows: Rows)
    requires WellFormed(cat) && Usable(Mapped(n, cols)) && Known(cols, known) && Unambiguous(n, known)
    requires MapRight(n, known, cat, rows)
    ensures var plan := AddPlan(cat, Mapped(n, cols));
      MapRight(n, known, AddAll(cat, plan), Upserted(rows, cols, plan)) <==> InOrder(cat, Mapped(n, cols))
  {
    var want := Mapped(n, cols);
    var added := RealNames(cat, want);
    var cat', rows' := cat + Fresh(added), Upserted(rows, cols, AddPlan(cat, want));
    UsableIsNewDistinct(cat, want);
    AddAllAppends(cat, want);
    RealNamesFewer(cat, want);
    forall i | 0 <= i < |cat| && !cat[i].dropped ensures RightAt(n, known, cat', rows', i + 1) {
      assert RightAt(n, known, cat, rows, i + 1);
      OldRowsStay(n, known, cols, cat, rows, cat', i);
    }
    forall k | 0 <= k < |added| ensures !cat'[|cat| + k].dropped
      && (RightAt(n, known, cat', rows', |cat| + k + 1) <==> added[k] == NewNames(cat, want)[k])
    {
      AddedRow(n, known, cols, cat, rows, k);
    }
    PrefixOrNot(n, known, cat, added, rows', NewNames(cat, want));
  }

  lemma PrefixOrNot(n: Naming, known: set<string>, cat: Catalog, added: seq<string>, rows: Rows, all: seq<string>)
    requires |added| <= |all|
    requires var cat' := cat + Fresh(added);
      && (forall i :: 0 <= i < |cat| && !cat[i].dropped ==> RightAt(n, known, cat', rows, i + 1))
      && (forall k :: 0 <= k < |added| ==>
           !cat'[|cat| + k].dropped && (RightAt(n, known, cat', rows, |cat| + k + 1) <==> added[k] == all[k]))
    ensures MapRight(n, known, cat + Fresh(added), rows) <==> added <= all
  {
    var cat' := cat + Fresh(added);
    if MapRight(n, known, cat', rows) {
      forall k | 0 <= k < |added| ensures added[k] == all[k] {
        assert !cat'[|cat| + k].dropped;
      }
    }
    if added <= all {
      forall i | 0 <= i < |cat'| && !cat'[i].dropped ensures RightAt(n, known, cat', rows, i + 1) {
        if i < |cat| {
          assert cat'[i] == cat[i];
        } else {
          assert added[i - |cat|] == all[i - |cat|];
        }
      }
    }
  }

  // -------------------------------------------------------------------- alter

  lemma AlterAgrees(n: Naming, cols: seq<string>, cat: Catalog, pk: set<nat>)
    requires WellFormed(cat)
    ensures Agrees(n, cols, AlterPlan(cat, pk, Mapped(n, cols)), cat)
  {
    var want := Mapped(n, cols);
    var plan := AlterPlan(cat, pk, want);
    forall i | 0 <= i < |plan| && plan[i].name.Some?
      ensures 0 < plan[i].position <= |cat| && NR.Clipped(PgName(n, cols[i])) == cat[plan[i].position - 1].name
    {
      assert plan[i] == AlterColumnPlan(cat, pk, want[i]);
      assert cat[plan[i].position - 1].name == want[i];
    }
  }

  lemma AlterKeepsMap(n: Naming, known: set<string>, cols: seq<string>, cat: Catalog, pk: set<nat>, rows: Rows)
    requires WellFormed(cat) && Known(cols, known) && MapRight(n, known, cat, rows)
    ensures MapRight(n, known, cat, Upserted(rows, cols, AlterPlan(cat, pk, Mapped(n, cols))))
  {
    AlterAgrees(n, cols, cat, pk);
    UpsertKeepsMap(n, known, cat, rows, cols, AlterPlan(cat, pk, Mapped(n, cols)));
  }

  // ------------------------------------------------------------------- create

  function CreatePlan(want: seq<string>): (plan: seq<PgColumn>)
    ensures |plan| == |want|
  {
    seq(|want|, i requires 0 <= i < |want| => PgColumn(Some(want[i]), i + 1))
  }

  lemma CreateRow(rows: Rows, cols: seq<string>, want: seq<string>, p: nat)
    requires |want| == |cols|
    ensures var r := Upserted(rows, cols, CreatePlan(want));
      if 0 < p <= |cols| then p in r && r[p] == NR.Clipped(cols[p - 1])
      else (p in r <==> p in rows) && (p in rows ==> r[p] == rows[p])
  {
    var plan := CreatePlan(want);
    var i := UpsertedAt(rows, cols, plan, p);
    if 0 < p <= |cols| {
      assert CoveredBy(plan, p, p - 1);
    }
  }

  /** CREATE numbers the columns as PostgreSQL does. */
  lemma CreateMakesMap(n: Naming, known: set<string>, cols: seq<string>, rows: Rows)
    requires Known(cols, known)
    ensures Predicted(CreatePlan(Mapped(n, cols)), Fresh(Mapped(n, cols)))
    ensures MapRight(n, known, Fresh(Mapped(n, cols)), Upserted(rows, cols, CreatePlan(Mapped(n, cols))))
  {
    var want := Mapped(n, cols);
    var plan := CreatePlan(want);
    CreatePredicted(n, cols);
    forall i | 0 <= i < |want| ensures plan[i].name.Some? && Covers(plan, i + 1) {
      assert CoveredBy(plan, i + 1, i);
    }
    UpsertKeepsMap(n, known, Fresh(want), rows, cols, plan);
  }

  lemma CreatePlanAt(n: Naming, cols: seq<string>, i: nat)
    requires i < |cols|
    ensures CreatePlan(Mapped(n, cols))[i] == PgColumn(Some(PgName(n, cols[i])), i + 1)
    ensures Fresh(Mapped(n, cols))[i] == Attr(NR.Clipped(PgName(n, cols[i])), false)
  {
  }

  lemma CreatePredicted(n: Naming, cols: seq<string>)
    ensures Predicted(CreatePlan(Mapped(n, cols)), Fresh(Mapped(n, cols)))
    ensures Agrees(n, cols, CreatePlan(Mapped(n, cols)), Fresh(Mapped(n, cols)))
  {
    var plan, cat := CreatePlan(Mapped(n, cols)), Fresh(Mapped(n, cols));
    forall i | 0 <= i < |plan|
      ensures plan[i] == PgColumn(Some(PgName(n, cols[i])), i + 1)
      ensures cat[i] == Attr(NR.Clipped(PgName(n, cols[i])), false)
      ensures PredictedAt(plan, cat, i)
    {
      CreatePlanAt(n, cols, i);
    }
  }

  /** The live attributes with numbers 1 to n carry the remote names in the remote order. */
  ghost predicate SamePlaces(n: Naming, cols: seq<string>, cat: Catalog) {
    forall i :: 0 <= i < |cat| && i < |cols| && !cat[i].dropped ==> NR.Clipped(PgName(n, cols[i])) == cat[i].name
  }

  /**
   * CREATE TABLE IF NOT EXISTS on a table that is already there still rewrites
   * rows 1 to n. The map stays right if and only if the live attributes at those
   * numbers carry the remote names in the remote order.
   */
  lemma CreateAgain(n: Naming, known: set<string>, cols: seq<string>, cat: Catalog, rows: Rows)
    requires Unambiguous(n, known) && Known(cols, known) && MapRight(n, known, cat, rows)
    ensures MapRight(n, known, cat, Upserted(rows, cols, CreatePlan(Mapped(n, cols)))) <==> SamePlaces(n, cols, cat)
  {
    var rows' := Upserted(rows, cols, CreatePlan(Mapped(n, cols)));
    forall i | 0 <= i < |cat| && !cat[i].dropped
      ensures RightAt(n, known, cat, rows', i + 1) <==> (i < |cols| ==> NR.Clipped(PgName(n, cols[i])) == cat[i].name)
    {
      assert RightAt(n, known, cat, rows, i + 1);
      CreateRow(rows, cols, Mapped(n, cols), i + 1);
      if i < |cols| {
        ResolvesMeans(n, known, cols[i], cat[i].name);
      }
    }
  }

  /**
   * A table (a, b, c) whose column a was dropped, created again as (b, c): row 2
   * is rewritten to c, although attribute 2 is b.
   */
  lemma CreateAgainOverHole()
    ensures var n, cat := Naming(map[], NR.AsIs, "d.t"), [Attr(DroppedName(1), true), Attr("b", false), Attr("c", false)];
      var rows: Rows := map[1 := DroppedExt(1), 2 := "b", 3 := "c"];
      && MapRight(n, {"b", "c"}, cat, rows)
      && !MapRight(n, {"b", "c"}, cat, Upserted(rows, ["b", "c"], CreatePlan(Mapped(n, ["b", "c"]))))
  {
    var n, cat := Naming(map[], NR.AsIs, "d.t"), [Attr(DroppedName(1), true), Attr("b", false), Attr("c", false)];
    var rows: Rows := map[1 := DroppedExt(1), 2 := "b", 3 := "c"];
    ShortNamesResolve(n, "b", "c");
    assert MapRight(n, {"b", "c"}, cat, rows) by {
      assert RightAt(n, {"b", "c"}, cat, rows, 2) && RightAt(n, {"b", "c"}, cat, rows, 3);
    }
    CreateAgain(n, {"b", "c"}, ["b", "c"], cat, rows);
    assert ["b", "c"][1] == "c" && cat[1].name == "b";
  }

  lemma ShortNamesResolve(n: Naming, x: string, y: string)
    requires n.rules == map[] && n.strategy == NR.AsIs && |x| < NR.NAMEDATALEN && |y| < NR.NAMEDATALEN
    ensures Unambiguous(n, {x, y}) && PgName(n, x) == x && PgName(n, y) == y
    ensures Resolves(n, {x, y}, x, x) && Resolves(n, {x, y}, y, y)
  {
    AsIsNames(n, x);
    AsIsNames(n, y);
  }

  lemma AsIsNames(n: Naming, column: string)
    requires n.rules == map[] && n.strategy == NR.AsIs
    ensures PgName(n, column) == column
  {
    assert NR.Normalized(NR.AsIs, column) == column;
  }

  // --------------------------------------------------------------------- drop

  ghost predicate NoColumnRules(n: Naming) {
    forall c: string :: NR.Lookup(n.rules, n.id + "." + c, NR.ColumnObject).None?
  }

  /** No two of these names differ in letter case only. */
  ghost predicate CaseDistinct(names: set<string>) {
    forall x, y :: x in names && y in names && x != y ==> NR.Lower(x) != NR.Lower(y)
  }

  lemma StoredName(n: Naming, column: string)
    requires NoColumnRules(n)
    ensures NR.Clipped(PgName(n, column)) == NR.Normalized(n.strategy, NR.Clipped(column))
  {
    assert NR.Lookup(n.rules, n.id + "." + column, NR.ColumnObject).None?;
    NR.ClippedNormalized(n.strategy, column);
  }

  lemma NoRulesUnambiguous(n: Naming, known: set<string>)
    requires NoColumnRules(n)
    ensures Unambiguous(n, known)
  {
    forall c, d | c in known && d in known && NR.Clipped(c) == NR.Clipped(d)
      ensures NR.Clipped(PgName(n, c)) == NR.Clipped(PgName(n, d))
    {
      StoredName(n, c);
      StoredName(n, d);
    }
  }

  lemma LowerOfRow(n: Naming, known: set<string>, text: string, name: string)
    requires NoColumnRules(n) && Resolves(n, known, text, name)
    ensures NR.Lower(text) == NR.Lower(name)
  {
    var c :| c in known && NR.Clipped(c) == text && NR.Clipped(PgName(n, c)) == name;
    StoredName(n, c);
  }

  ghost predicate Matches(plan: seq<PgColumn>, ext: string) {
    exists i :: 0 <= i < |plan| && plan[i].name.Some? && NR.Lower(plan[i].name.value) == NR.Lower(ext)
  }

  lemma {:induction false} UnmatchedRowStays(rows: Rows, plan: seq<PgColumn>, p: nat)
    requires p in rows && !Matches(plan, rows[p])
    ensures MarkedRows(rows, plan)[p] == rows[p]
  {
    if plan != [] {
      var k := |plan| - 1;
      assert forall i :: 0 <= i < k ==> plan[..k][i] == plan[i];
      UnmatchedRowStays(rows, plan[..k], p);
    }
  }

  /** A live column that stays is not matched by any dropped one. */
  lemma StayingRowUnmatched(n: Naming, known: set<string>, want: seq<string>, cat: Catalog, rows: Rows, i: nat)
    requires NoColumnRules(n) && WellFormed(cat) && CaseDistinct(LiveNames(cat))
    requires i < |cat| && !cat[i].dropped && RightAt(n, known, cat, rows, i + 1)
    requires cat[i].name in want || Marked(cat[i].name)
    ensures !Matches(DropPlan(cat, want), rows[i + 1])
  {
    LowerOfRow(n, known, rows[i + 1], cat[i].name);
    var plan := DropPlan(cat, want);
    assert cat[i].name in LiveNames(cat);
    forall k | 0 <= k < |plan| && plan[k].name.Some? ensures NR.Lower(plan[k].name.value) != NR.Lower(rows[i + 1]) {
      var x := plan[k].name.value;
      assert Names(plan, x);
      DropPlanNames(cat, want, x);
      VisibleIsLive(cat, x);
    }
  }

  lemma DropKeepsRow(n: Naming, known: set<string>, want: seq<string>, cat: Catalog, rows: Rows, i: nat)
    requires NoColumnRules(n) && WellFormed(cat) && CaseDistinct(LiveNames(cat)) && MapRight(n, known, cat, rows)
    requires i < |cat| && !DropAll(cat, DropPlan(cat, want))[i].dropped
    ensures DropAll(cat, DropPlan(cat, want))[i] == cat[i]
    ensures i + 1 in rows && MarkedRows(rows, DropPlan(cat, want))[i + 1] == rows[i + 1]
  {
    DropsTheUnwanted(cat, want, i);
    assert RightAt(n, known, cat, rows, i + 1);
    StayingRowUnmatched(n, known, want, cat, rows, i);
    UnmatchedRowStays(rows, DropPlan(cat, want), i + 1);
  }

  lemma DropKeepsMap(n: Naming, known: set<string>, want: seq<string>, cat: Catalog, rows: Rows)
    requires NoColumnRules(n) && WellFormed(cat) && CaseDistinct(LiveNames(cat)) && MapRight(n, known, cat, rows)
    ensures var plan := DropPlan(cat, want); MapRight(n, known, DropAll(cat, plan), MarkedRows(rows, plan))
  {
    var plan := DropPlan(cat, want);
    var cat' := DropAll(cat, plan);
    forall i | 0 <= i < |cat'| && !cat'[i].dropped ensures RightAt(n, known, cat', MarkedRows(rows, plan), i + 1) {
      DropKeepsRow(n, known, want, cat, rows, i);
      assert RightAt(n, known, cat, rows, i + 1);
    }
  }

  /** Dropped columns come in attribute order, each with its own name. */
  lemma {:induction false} DropPlanAt(cat: Catalog, want: seq<string>, k: nat)
    requires WellFormed(cat) && k < |DropPlan(cat, want)|
    ensures var c := DropPlan(cat, want)[k];
      0 < c.position <= |cat| && !cat[c.position - 1].dropped && c.name == Some(cat[c.position - 1].name)
    ensures forall l :: 0 <= l < k ==> DropPlan(cat, want)[l].position < DropPlan(cat, want)[k].position
    decreases |cat|, k
  {
    var m := |cat| - 1;
    var before := DropPlan(cat[..m], want);
    if k < |before| {
      DropPlanAt(cat[..m], want, k);
    } else {
      forall l | 0 <= l < k ensures DropPlan(cat, want)[l].position < DropPlan(cat, want)[k].position {
        DropPlanAt(cat[..m], want, l);
      }
    }
  }

  lemma {:induction false} RowIsMarked(rows: Rows, plan: seq<PgColumn>, p: nat, k: nat)
    requires p in rows && k < |plan|
    requires forall i :: 0 <= i < |plan| ==> plan[i].name.Some?
    requires NR.Lower(rows[p]) == NR.Lower(plan[k].name.value)
    requires forall i :: 0 <= i < k ==> NR.Lower(plan[i].name.value) != NR.Lower(rows[p])
    requires forall i :: k < i < |plan| ==> NR.Lower(plan[i].name.value) != NR.Lower(DroppedExt(plan[k].position))
    ensures MarkedRows(rows, plan)[p] == DroppedExt(plan[k].position)
  {
    var m := |plan| - 1;
    if k == m {
      UnmatchedRowStays(rows, plan[..m], p);
    } else {
      RowIsMarked(rows, plan[..m], p, k);
    }
  }

  lemma {:induction false} DropPlanFinds(cat: Catalog, want: seq<string>, i: nat) returns (k: nat)
    requires i < |cat| && !Marked(cat[i].name) && cat[i].name !in want
    ensures k < |DropPlan(cat, want)| && DropPlan(cat, want)[k] == PgColumn(Some(cat[i].name), i + 1)
  {
    var m := |cat| - 1;
    if i == m {
      k := |DropPlan(cat[..m], want)|;
    } else {
      k := DropPlanFinds(cat[..m], want, i);
    }
  }

  /** The event drops attribute j. */
  ghost predicate Dropped(cat: Catalog, want: seq<string>, j: nat) {
    j < |cat| && !cat[j].dropped && !Marked(cat[j].name) && cat[j].name !in want
  }

  /** The marker of an attribute number, with its canonical decimal numeral, as far as 63 characters go. */
  ghost predicate IsMarker(text: string, head: string, attnum: nat) {
    exists m :: DD.Canonical(m) && DD.NumeralValue(m) == attnum &&
      var full := head + (m + "........"); text == if |full| <= 63 then full else full[..63]
  }

  lemma {:induction false} NumeralIs(n: nat)
    ensures Numeral(n) != "" && DD.AllDigits(Numeral(n)) && DD.Magnitude(Numeral(n)) == n
    ensures n > 0 ==> Numeral(n)[0] != '0'
  {
    if n < 10 {
      OneDigit(n);
    } else {
      NumeralIs(n / 10);
      OneDigit(n % 10);
      DigitAppended(Numeral(n / 10), "0123456789"[n % 10]);
    }
  }

  lemma OneDigit(n: nat)
    requires n < 10
    ensures var d := "0123456789"[n]; Numeral(n) == [d] && d as int == '0' as int + n && DD.Magnitude([d]) == n
  {
    var ds := DD.DigitsOf(["0123456789"[n]]);
    assert ds == [n] && ds[..0] == [];
    assert Positional.Value(10, ds) == Positional.Value(10, ds[..0]) * 10 + n;
  }

  lemma DigitAppended(s: string, d: char)
    requires DD.AllDigits(s) && '0' <= d <= '9'
    ensures DD.AllDigits(s + [d]) && DD.Magnitude(s + [d]) == DD.Magnitude(s) * 10 + (d as int - '0' as int)
  {
    var ds := DD.DigitsOf(s + [d]);
    assert ds[..|ds| - 1] == DD.DigitsOf(s) && ds[|ds| - 1] == d as int - '0' as int;
  }

  lemma NumeralIsCanonical(attnum: nat)
    ensures DD.Canonical(Numeral(attnum)) && DD.NumeralValue(Numeral(attnum)) == attnum
  {
    NumeralIs(attnum);
    if attnum == 0 {
      OneDigit(0);
    }
  }

  /** What stands in the row, and in pg_attribute, for a dropped column. */
  lemma MarkerIs(attnum: nat)
    ensures IsMarker(DroppedExt(attnum), "........synchdb.dropped.", attnum)
    ensures IsMarker(DroppedName(attnum), "........pg.dropped.", attnum)
  {
    var m := Numeral(attnum);
    NumeralIsCanonical(attnum);
    assert "........synchdb.dropped." + m + "........" == "........synchdb.dropped." + (m + "........");
    HoleNameText(m);
  }

  lemma HoleNameText(m: string)
    ensures "........" + (MARKER + ("." + m + "........")) == "........pg.dropped." + (m + "........")
  {
    assert "........" + (MARKER + ".") == "........pg.dropped.";
    assert "........" + (MARKER + ("." + m + "........")) == ("........" + (MARKER + ".")) + (m + "........");
  }

  /**
   * The row of a dropped column is overwritten with the marker that carries its
   * own number, unless a later column dropped with it is called like that marker.
   */
  lemma DropMarksRow(n: Naming, known: set<string>, want: seq<string>, cat: Catalog, rows: Rows, i: nat)
    requires NoColumnRules(n) && WellFormed(cat) && CaseDistinct(LiveNames(cat)) && MapRight(n, known, cat, rows)
    requires Dropped(cat, want, i)
    requires forall j :: i < j && Dropped(cat, want, j) ==> NR.Lower(cat[j].name) != NR.Lower(DroppedExt(i + 1))
    ensures MarkedRows(rows, DropPlan(cat, want))[i + 1] == DroppedExt(i + 1)
    ensures IsMarker(MarkedRows(rows, DropPlan(cat, want))[i + 1], "........synchdb.dropped.", i + 1)
  {
    MarkerIs(i + 1);
    var plan := DropPlan(cat, want);
    var k := DropPlanFinds(cat, want, i);
    assert RightAt(n, known, cat, rows, i + 1);
    LowerOfRow(n, known, rows[i + 1], cat[i].name);
    forall l | 0 <= l < |plan|
      ensures plan[l].name.Some?
      ensures l < k ==> NR.Lower(plan[l].name.value) != NR.Lower(rows[i + 1])
      ensures l > k ==> NR.Lower(plan[l].name.value) != NR.Lower(DroppedExt(i + 1))
    {
      DropPlanApart(cat, want, l, k, i);
    }
    RowIsMarked(rows, plan, i + 1, k);
  }

  lemma DropPlanApart(cat: Catalog, want: seq<string>, l: nat, k: nat, i: nat)
    requires WellFormed(cat) && CaseDistinct(LiveNames(cat)) && i < |cat| && !cat[i].dropped
    requires l < |DropPlan(cat, want)| && k < |DropPlan(cat, want)| && DropPlan(cat, want)[k].position == i + 1
    ensures var c := DropPlan(cat, want)[l];
      && c.name.Some? && c.position > 0 && Dropped(cat, want, c.position - 1) && c.name.value == cat[c.position - 1].name
      && (l > k ==> c.position - 1 > i)
      && (l < k ==> NR.Lower(c.name.value) != NR.Lower(cat[i].name))
  {
    DropPlanAt(cat, want, l);
    DropPlanAt(cat, want, k);
    var j := DropPlan(cat, want)[l].position - 1;
    assert Names(DropPlan(cat, want), cat[j].name);
    DropPlanNames(cat, want, cat[j].name);
    assert cat[j].name in LiveNames(cat) && cat[i].name in LiveNames(cat);
  }

  // --------------------------------------------------------------- one event

  datatype State = State(catalog: Option<Catalog>, rows: Rows)
  datatype Event = CreateTable(cols: seq<string>) | AlterTable(cols: seq<string>, pk: set<nat>) | DropTable

  lemma DiffAligned(n: Naming, cols: seq<string>, cat: Catalog, pk: set<nat>)
    ensures Aligned(cols, Diff(cat, pk, Mapped(n, cols)))
  {
  }

  /** One event: convert, execute, update the attribute table. ALTER of a missing table is an error and undone. */
  ghost function Step(n: Naming, s: State, e: Event): State {
    match e
    case CreateTable(cols) =>
      var want := Mapped(n, cols);
      State(if s.catalog.None? then Some(Fresh(want)) else s.catalog, Upserted(s.rows, cols, CreatePlan(want)))
    case AlterTable(cols, pk) =>
      if s.catalog.None? then s
      else
        var ddl := Diff(s.catalog.value, pk, Mapped(n, cols));
        DiffAligned(n, cols, s.catalog.value, pk);
        State(Some(Executed(s.catalog.value, ddl)), UpdatedRows(s.rows, cols, ddl))
    case DropTable => State(None, map[])
  }

  ghost predicate InStep(n: Naming, known: set<string>, s: State) {
    s.catalog.Some? ==>
      && WellFormed(s.catalog.value) && CaseDistinct(LiveNames(s.catalog.value))
      && MapRight(n, known, s.catalog.value, s.rows)
  }

  /** The columns that an event carries. */
  function Columns(e: Event): seq<string> {
    if e.DropTable? then [] else e.cols
  }

  /** Events that PostgreSQL accepts, with names apart in letter case and columns among the known ones. */
  ghost predicate Executable(n: Naming, known: set<string>, s: State, e: Event) {
    && Known(Columns(e), known)
    && Usable(Mapped(n, Columns(e))) && CaseDistinct(PgNames(Mapped(n, Columns(e))))
    && (e.CreateTable? ==> e.cols != []) && (e.AlterTable? ==> s.catalog.Some?)
  }

  /**
   * The events that keep the table in step: CREATE of a missing table or of the
   * same table again, DROP TABLE, and an ALTER that adds only or drops only or
   * changes no name. An add must not list a column that the code does not
   * recognise, because its name is clipped or carries the marker, before a new
   * one; a drop must not list a clipped name, nor be to drop one with the marker.
   */
  ghost predicate Follows(n: Naming, s: State, e: Event) {
    var want := Mapped(n, Columns(e));
    e.DropTable? || s.catalog.None? ||
    var cat := s.catalog.value;
    if e.CreateTable? then LiveNames(cat) == PgNames(want) && SamePlaces(n, e.cols, cat)
    else
      || (LiveNames(cat) <= PgNames(want) && (|want| > LiveCount(cat) ==> InOrder(cat, want)))
      || (PgNames(want) <= LiveNames(cat) && Misread(cat) <= PgNames(want) && Spared(want))
  }

  /** The live columns are those of the event's list. */
  ghost predicate Shows(n: Naming, s: State, e: Event) {
    if e.DropTable? then s.catalog.None?
    else s.catalog.Some? && LiveNames(s.catalog.value) == PgNames(Mapped(n, e.cols))
  }

  lemma AlterMap(n: Naming, known: set<string>, s: State, cols: seq<string>, pk: set<nat>)
    requires NoColumnRules(n) && InStep(n, known, s) && Executable(n, known, s, AlterTable(cols, pk))
    ensures var cat, s' := s.catalog.value, Step(n, s, AlterTable(cols, pk));
      && s'.catalog == Some(After(cat, pk, Mapped(n, cols)))
      && (MapRight(n, known, s'.catalog.value, s'.rows) <==> (|cols| > LiveCount(cat) ==> InOrder(cat, Mapped(n, cols))))
  {
    var cat, want := s.catalog.value, Mapped(n, cols);
    NoRulesUnambiguous(n, known);
    StepIs(n, s, cols, pk, Diff(cat, pk, want));
    if |want| > LiveCount(cat) {
      AddIs(n, s, cols, pk);
      AddKeepsMap(n, known, cols, cat, s.rows);
    } else if |want| < LiveCount(cat) {
      DropIs(n, s, cols, pk);
      DropKeepsMap(n, known, want, cat, s.rows);
    } else {
      SameSizeIs(n, s, cols, pk);
      AlterKeepsMap(n, known, cols, cat, pk, s.rows);
    }
  }

  lemma AlterStep(n: Naming, known: set<string>, s: State, cols: seq<string>, pk: set<nat>)
    requires NoColumnRules(n) && InStep(n, known, s) && Executable(n, known, s, AlterTable(cols, pk))
    ensures var e := AlterTable(cols, pk);
      InStep(n, known, Step(n, s, e)) && Shows(n, Step(n, s, e), e) <==> Follows(n, s, e)
  {
    var cat, want := s.catalog.value, Mapped(n, cols);
    AlterMap(n, known, s, cols, pk);
    LiveAfter(cat, pk, want);
    AlterConverges(cat, pk, want);
    Sizes(cat, want);
  }

  lemma NewTable(want: seq<string>)
    requires Usable(want)
    ensures WellFormed(Fresh(want)) && LiveNames(Fresh(want)) == PgNames(want)
  {
    LiveNamesOfConcat([], want);
    assert [] + Fresh(want) == Fresh(want);
    assert LiveNames([]) == {};
    FreshDistinct(want);
  }

  lemma FreshDistinct(want: seq<string>)
    requires Usable(want)
    ensures LiveDistinct(Fresh(want))
  {
    forall i, j | 0 <= i < j < |want| ensures Fresh(want)[i].name != Fresh(want)[j].name {
      assert ClippedNames(want)[i] != ClippedNames(want)[j];
    }
  }

  lemma CreateStep(n: Naming, known: set<string>, s: State, cols: seq<string>)
    requires NoColumnRules(n) && InStep(n, known, s) && Executable(n, known, s, CreateTable(cols))
    ensures var e := CreateTable(cols);
      InStep(n, known, Step(n, s, e)) && Shows(n, Step(n, s, e), e) <==> Follows(n, s, e)
  {
    if s.catalog.None? {
      NewTable(Mapped(n, cols));
      CreateMakesMap(n, known, cols, s.rows);
    } else {
      NoRulesUnambiguous(n, known);
      CreateAgain(n, known, cols, s.catalog.value, s.rows);
    }
  }

  /** An event leaves the table in step and showing its list if and only if it is one that Follows describes. */
  lemma StepInStep(n: Naming, known: set<string>, s: State, e: Event)
    requires NoColumnRules(n) && InStep(n, known, s) && Executable(n, known, s, e)
    ensures InStep(n, known, Step(n, s, e)) && Shows(n, Step(n, s, e), e) <==> Follows(n, s, e)
  {
    if e.CreateTable? {
      CreateStep(n, known, s, e.cols);
    } else if e.AlterTable? {
      AlterStep(n, known, s, e.cols, e.pk);
    }
  }

  // --------------------------------------------------------------------- runs

  ghost function Run(n: Naming, s: State, events: seq<Event>): State {
    if events == [] then s
    else Step(n, Run(n, s, events[..|events| - 1]), events[|events| - 1])
  }

  ghost predicate AllExecutable(n: Naming, known: set<string>, s: State, events: seq<Event>) {
    events == [] ||
    var k := |events| - 1;
    AllExecutable(n, known, s, events[..k]) && Executable(n, known, Run(n, s, events[..k]), events[k])
  }

  ghost predicate AllFollow(n: Naming, s: State, events: seq<Event>) {
    events == [] ||
    var k := |events| - 1;
    AllFollow(n, s, events[..k]) && Follows(n, Run(n, s, events[..k]), events[k])
  }

  /** After every event of the run the table is in step and shows that event's list. */
  ghost predicate AlwaysInStep(n: Naming, known: set<string>, s: State, events: seq<Event>) {
    events == [] ||
    var k := |events| - 1;
    AlwaysInStep(n, known, s, events[..k]) &&
    InStep(n, known, Run(n, s, events)) && Shows(n, Run(n, s, events), events[k])
  }

  /**
   * Over every run the live columns are those of the latest list and
   * synchdb_attribute maps each live attribute number to a remote column that
   * resolves to it, if and only if every event is one that Follows describes.
   */
  lemma {:induction false} RunsStayInStep(n: Naming, known: set<string>, s: State, events: seq<Event>)
    requires NoColumnRules(n) && InStep(n, known, s) && AllExecutable(n, known, s, events)
    ensures AlwaysInStep(n, known, s, events) <==> AllFollow(n, s, events)
    ensures AllFollow(n, s, events) ==> InStep(n, known, Run(n, s, events))
  {
    if events != [] {
      var k := |events| - 1;
      RunsStayInStep(n, known, s, events[..k]);
      if AllFollow(n, s, events[..k]) {
        StepInStep(n, known, Run(n, s, events[..k]), events[k]);
      }
    }
  }

  // -------------------------------------------------- the remote list's own text

  /** Each live attribute's row is the text of the list's column that it is. */
  ghost predicate NamesTheList(n: Naming, cols: seq<string>, cat: Catalog, rows: Rows) {
    forall i :: 0 <= i < |cat| && !cat[i].dropped ==>
      exists k :: 0 <= k < |cols| && i + 1 in rows && rows[i + 1] == NR.Clipped(cols[k])
                  && NR.Clipped(PgName(n, cols[k])) == cat[i].name
  }

  /** No two known columns resolve to one name: no column is respelled in another letter case. */
  ghost predicate OneSpelling(n: Naming, known: set<string>) {
    forall c, d :: c in known && d in known && NR.Clipped(PgName(n, c)) == NR.Clipped(PgName(n, d)) ==> c == d
  }

  lemma RowsNameTheList(n: Naming, known: set<string>, s: State, e: Event)
    requires OneSpelling(n, known) && InStep(n, known, s) && Shows(n, s, e) && !e.DropTable? && Known(e.cols, known)
    ensures NamesTheList(n, e.cols, s.catalog.value, s.rows)
  {
    var cat, want := s.catalog.value, Mapped(n, e.cols);
    forall i | 0 <= i < |cat| && !cat[i].dropped
      ensures exists k :: 0 <= k < |e.cols| && i + 1 in s.rows && s.rows[i + 1] == NR.Clipped(e.cols[k])
                          && NR.Clipped(PgName(n, e.cols[k])) == cat[i].name
    {
      assert RightAt(n, known, cat, s.rows, i + 1);
      var c :| c in known && NR.Clipped(c) == s.rows[i + 1] && NR.Clipped(PgName(n, c)) == cat[i].name;
      assert cat[i].name in LiveNames(cat);
      var x := PgNamesOrigin(want, cat[i].name);
      var k :| 0 <= k < |want| && want[k] == x;
      assert e.cols[k] == c;
    }
  }

  /**
   * If the lists of a run spell each column in one way, then after every run of
   * following events the row of each live attribute is the very text of its
   * column in the latest list.
   */
  lemma RunsNameTheList(n: Naming, known: set<string>, s: State, events: seq<Event>)
    requires NoColumnRules(n) && OneSpelling(n, known) && InStep(n, known, s)
    requires AllExecutable(n, known, s, events) && AllFollow(n, s, events)
    requires events != [] && !events[|events| - 1].DropTable?
    ensures var t := Run(n, s, events);
      t.catalog.Some? && NamesTheList(n, events[|events| - 1].cols, t.catalog.value, t.rows)
  {
    RunsStayInStep(n, known, s, events);
    RowsNameTheList(n, known, Run(n, s, events), events[|events| - 1]);
  }

  /** Attribute i is live and is the list's column k. */
  ghost predicate ColumnIs(n: Naming, cat: Catalog, cols: seq<string>, i: nat, k: nat) {
    i < |cat| && !cat[i].dropped && k < |cols| && NR.Clipped(PgName(n, cols[k])) == cat[i].name
  }

  /** Row i + 1 gets the text, or keeps the one it had. */
  ghost predicate RowBecomes(rows: Rows, rows': Rows, i: nat, written: bool, text: string) {
    i + 1 in rows' && if written then rows'[i + 1] == text else i + 1 in rows && rows'[i + 1] == rows[i + 1]
  }

  lemma SameColumn(n: Naming, cols: seq<string>, i: int, k: int)
    requires Usable(Mapped(n, cols)) && 0 <= i < |cols| && 0 <= k < |cols|
    requires NR.Clipped(PgName(n, cols[i])) == NR.Clipped(PgName(n, cols[k]))
    ensures i == k
  {
    var names := ClippedNames(Mapped(n, cols));
    assert names[i] == names[k];
  }

  lemma CreateSpelling(n: Naming, cols: seq<string>, cat: Catalog, rows: Rows, i: nat, k: nat)
    requires Usable(Mapped(n, cols)) && SamePlaces(n, cols, cat) && ColumnIs(n, cat, cols, i, k)
    requires i < |cols| || i + 1 in rows
    ensures RowBecomes(rows, Upserted(rows, cols, CreatePlan(Mapped(n, cols))), i, i < |cols|, NR.Clipped(cols[k]))
  {
    CreateRow(rows, cols, Mapped(n, cols), i + 1);
    if i < |cols| {
      SameColumn(n, cols, i, k);
    }
  }

  lemma AddSpelling(n: Naming, known: set<string>, cols: seq<string>, cat: Catalog, rows: Rows, i: nat, k: nat)
    requires Usable(Mapped(n, cols)) && InOrder(cat, Mapped(n, cols)) && MapRight(n, known, cat, rows)
    requires ColumnIs(n, cat + Fresh(RealNames(cat, Mapped(n, cols))), cols, i, k)
    ensures RowBecomes(rows, Upserted(rows, cols, AddPlan(cat, Mapped(n, cols))), i, i >= |cat|, NR.Clipped(cols[k]))
  {
    var want := Mapped(n, cols);
    if i >= |cat| {
      var c := AddedText(n, cols, cat, rows, i - |cat|);
      SameColumn(n, cols, c, k);
    } else {
      assert RightAt(n, known, cat, rows, i + 1);
      OldRowsStay(n, known, cols, cat, rows, cat, i);
    }
  }

  lemma {:induction false} AlterPositionIs(cat: Catalog, pk: set<nat>, name: string, i: nat)
    requires LiveDistinct(cat) && i < |cat| && !cat[i].dropped && cat[i].name == name
    ensures AlterPosition(cat, pk, name) == if i + 1 in pk then 0 else i + 1
  {
    var m := |cat| - 1;
    if i < m {
      AlterPositionIs(cat[..m], pk, name, i);
    } else if i + 1 in pk {
      AlterPositionNone(cat[..m], pk, name);
    }
  }

  lemma AlterPositionNone(cat: Catalog, pk: set<nat>, name: string)
    requires forall i :: 0 <= i < |cat| && !cat[i].dropped ==> cat[i].name != name
    ensures AlterPosition(cat, pk, name) == 0
  {
  }

  lemma AlterCovers(cat: Catalog, pk: set<nat>, want: seq<string>, i: nat, c: int)
    requires LiveDistinct(cat) && i < |cat| && !cat[i].dropped
    requires CoveredBy(AlterPlan(cat, pk, want), i + 1, c)
    ensures want[c] == cat[i].name && i + 1 !in pk
  {
    assert AlterPlan(cat, pk, want)[c] == AlterColumnPlan(cat, pk, want[c]);
    AlterPositionIs(cat, pk, want[c], i);
  }

  lemma AlterSpelling(n: Naming, cols: seq<string>, cat: Catalog, pk: set<nat>, rows: Rows, i: nat, k: nat)
    requires WellFormed(cat) && Usable(Mapped(n, cols)) && ColumnIs(n, cat, cols, i, k) && i + 1 in rows
    ensures RowBecomes(rows, Upserted(rows, cols, AlterPlan(cat, pk, Mapped(n, cols))), i,
                       i + 1 !in pk && |PgName(n, cols[k])| < NR.NAMEDATALEN, NR.Clipped(cols[k]))
  {
    var want := Mapped(n, cols);
    var plan := AlterPlan(cat, pk, want);
    var c := UpsertedAt(rows, cols, plan, i + 1);
    if Covers(plan, i + 1) {
      AlterCovers(cat, pk, want, i, c);
      SameColumn(n, cols, c, k);
    } else if i + 1 !in pk && |want[k]| < NR.NAMEDATALEN {
      AlterPositionIs(cat, pk, want[k], i);
      assert CoveredBy(plan, i + 1, k);
    }
  }

  /** The event writes the row of attribute i, which its column k is. */
  ghost predicate Rewrites(n: Naming, s: State, e: Event, i: nat, k: nat)
    requires !e.DropTable? && k < |e.cols|
  {
    if e.CreateTable? then i < |e.cols|
    else
      s.catalog.Some? &&
      var cat := s.catalog.value;
      if |e.cols| > LiveCount(cat) then i >= |cat|
      else |e.cols| == LiveCount(cat) && i + 1 !in e.pk && |PgName(n, e.cols[k])| < NR.NAMEDATALEN
  }

  /**
   * When a list respells a column, its row follows if and only if the event
   * writes it: a new attribute, or one outside the primary key in an ALTER that
   * keeps the number of columns. Otherwise the old text stays.
   */
  lemma SpellingAfter(n: Naming, known: set<string>, s: State, e: Event, i: nat, k: nat)
    requires NoColumnRules(n) && InStep(n, known, s) && Executable(n, known, s, e) && Follows(n, s, e) && !e.DropTable?
    requires Step(n, s, e).catalog.Some? && ColumnIs(n, Step(n, s, e).catalog.value, e.cols, i, k)
    ensures RowBecomes(s.rows, Step(n, s, e).rows, i, Rewrites(n, s, e, i, k), NR.Clipped(e.cols[k]))
  {
    if s.catalog.None? {
      CreateSpelling(n, e.cols, Fresh(Mapped(n, e.cols)), s.rows, i, k);
    } else if e.CreateTable? {
      assert i + 1 in s.rows by {
        assert RightAt(n, known, s.catalog.value, s.rows, i + 1);
      }
      CreateSpelling(n, e.cols, s.catalog.value, s.rows, i, k);
    } else {
      AlterSpellings(n, known, s, e.cols, e.pk, i, k);
    }
  }

  lemma {:induction false} NothingUpserted(rows: Rows, cols: seq<string>, plan: seq<PgColumn>)
    requires |cols| == |plan| && !Touches(plan)
    ensures Upserted(rows, cols, plan) == rows
  {
    if cols != [] {
      var m := |cols| - 1;
      assert forall i :: 0 <= i < m ==> plan[..m][i] == plan[i];
      NothingUpserted(rows, cols[..m], plan[..m]);
    }
  }

  lemma AddIs(n: Naming, s: State, cols: seq<string>, pk: set<nat>)
    requires s.catalog.Some? && WellFormed(s.catalog.value) && Usable(Mapped(n, cols))
    requires |cols| > LiveCount(s.catalog.value)
    ensures var plan := AddPlan(s.catalog.value, Mapped(n, cols));
      Step(n, s, AlterTable(cols, pk)) == State(Some(AddAll(s.catalog.value, plan)), Upserted(s.rows, cols, plan))
  {
    DiffIs(s.catalog.value, pk, Mapped(n, cols));
    AddIsFor(n, s, cols, pk, AddPlan(s.catalog.value, Mapped(n, cols)));
  }

  lemma AddIsFor(n: Naming, s: State, cols: seq<string>, pk: set<nat>, plan: seq<PgColumn>)
    requires s.catalog.Some? && |plan| == |cols| && Diff(s.catalog.value, pk, Mapped(n, cols)) == PgDdl(AddColumn, plan)
    ensures Step(n, s, AlterTable(cols, pk)) == State(Some(AddAll(s.catalog.value, plan)), Upserted(s.rows, cols, plan))
  {
    StepIs(n, s, cols, pk, PgDdl(AddColumn, plan));
  }

  lemma DropIs(n: Naming, s: State, cols: seq<string>, pk: set<nat>)
    requires s.catalog.Some? && WellFormed(s.catalog.value) && Usable(Mapped(n, cols))
    requires |cols| < LiveCount(s.catalog.value)
    ensures var plan := DropPlan(s.catalog.value, Mapped(n, cols));
      Step(n, s, AlterTable(cols, pk)) == State(Some(DropAll(s.catalog.value, plan)), MarkedRows(s.rows, plan))
  {
    var plan := DropPlan(s.catalog.value, Mapped(n, cols));
    DiffIs(s.catalog.value, pk, Mapped(n, cols));
    StepIs(n, s, cols, pk, if plan == [] then NoDdl else PgDdl(DropColumn, plan));
  }

  lemma SameSizeIs(n: Naming, s: State, cols: seq<string>, pk: set<nat>)
    requires s.catalog.Some? && |cols| == LiveCount(s.catalog.value)
    ensures Step(n, s, AlterTable(cols, pk)) ==
      State(s.catalog, Upserted(s.rows, cols, AlterPlan(s.catalog.value, pk, Mapped(n, cols))))
  {
    var plan := AlterPlan(s.catalog.value, pk, Mapped(n, cols));
    if Touches(plan) {
      StepIs(n, s, cols, pk, PgDdl(AlterColumn, plan));
    } else {
      NothingUpserted(s.rows, cols, plan);
      StepIs(n, s, cols, pk, NoDdl);
    }
  }

  lemma StepIs(n: Naming, s: State, cols: seq<string>, pk: set<nat>, ddl: PgDdl)
    requires s.catalog.Some? && ddl == Diff(s.catalog.value, pk, Mapped(n, cols))
    ensures Aligned(cols, ddl)
    ensures Step(n, s, AlterTable(cols, pk)) == State(Some(Executed(s.catalog.value, ddl)), UpdatedRows(s.rows, cols, ddl))
  {
    DiffAligned(n, cols, s.catalog.value, pk);
  }

  lemma AlterSpellings(n: Naming, known: set<string>, s: State, cols: seq<string>, pk: set<nat>, i: nat, k: nat)
    requires NoColumnRules(n) && InStep(n, known, s) && Executable(n, known, s, AlterTable(cols, pk))
    requires Follows(n, s, AlterTable(cols, pk)) && ColumnIs(n, Step(n, s, AlterTable(cols, pk)).catalog.value, cols, i, k)
    ensures var e := AlterTable(cols, pk);
      RowBecomes(s.rows, Step(n, s, e).rows, i, Rewrites(n, s, e, i, k), NR.Clipped(cols[k]))
  {
    var cat, want := s.catalog.value, Mapped(n, cols);
    Sizes(cat, want);
    if |cols| > LiveCount(cat) {
      AddIs(n, s, cols, pk);
      UsableIsNewDistinct(cat, want);
      AddAllAppends(cat, want);
      AddSpelling(n, known, cols, cat, s.rows, i, k);
    } else if |cols| < LiveCount(cat) {
      DropIs(n, s, cols, pk);
      DropKeepsRow(n, known, want, cat, s.rows, i);
    } else {
      SameSizeIs(n, s, cols, pk);
      assert RightAt(n, known, cat, s.rows, i + 1);
      AlterSpelling(n, cols, cat, pk, s.rows, i, k);
    }
  }

  /** Under lower casing, the list (id) after (ID): the row of a key column keeps the text ID. */
  lemma RespelledKeyIsStale()
    ensures var n := Naming(map[], NR.Lowercase, "d.t");
      var s := Step(n, State(None, map[]), CreateTable(["ID"]));
      Step(n, s, AlterTable(["id"], {1})).rows[1] == "ID" && 1 in Step(n, s, AlterTable(["id"], {1})).rows
  {
  }

  /**
   * A table created with a column x of 64 characters, then the list (x, b):
   * attribute 2 is b, but its row says x.
   */
  lemma LongNameBreaksMap(x: string, pk: set<nat>)
    requires |x| == 64 && !Marked(x)
    ensures var n := Naming(map[], NR.AsIs, "d.t");
      var s := Step(n, State(None, map[]), CreateTable([x]));
      var s' := Step(n, s, AlterTable([x, "b"], pk));
      && s'.catalog == Some(Fresh([x]) + [Attr("b", false)])
      && 2 in s'.rows && s'.rows[2] == NR.Clipped(x)
  {
    var n := Naming(map[], NR.AsIs, "d.t");
    var s := Step(n, State(None, map[]), CreateTable([x]));
    AsIsNames(n, x);
    assert Mapped(n, [x]) == [x];
    LongNameAlter(n, s, x, pk);
  }

  lemma LongNameAlter(n: Naming, s: State, x: string, pk: set<nat>)
    requires |x| == 64 && !Marked(x) && n.rules == map[] && n.strategy == NR.AsIs
    requires s.catalog == Some(Fresh([x]))
    ensures var s' := Step(n, s, AlterTable([x, "b"], pk));
      && s'.catalog == Some(Fresh([x]) + [Attr("b", false)])
      && 2 in s'.rows && s'.rows[2] == NR.Clipped(x)
  {
    AsIsNames(n, x);
    AsIsNames(n, "b");
    assert Mapped(n, [x, "b"]) == [x, "b"];
    LongNameMispredicted(x);
    LongNameUsable(x);
    AddIs(n, s, [x, "b"], pk);
    var plan := AddPlan(Fresh([x]), [x, "b"]);
    var i := UpsertedAt(s.rows, [x, "b"], plan, 2);
    assert CoveredBy(plan, 2, 0) && !CoveredBy(plan, 2, 1);
  }

  lemma LongNameUsable(x: string)
    requires |x| == 64 && !Marked(x)
    ensures Usable([x, "b"]) && LiveCount(Fresh([x])) == 1
  {
    MarkedClipped(x);
    NotAHole(NR.Clipped(x));
    NotAHole("b");
    assert ClippedNames([x, "b"]) == [NR.Clipped(x), "b"];
    assert LiveCount(Fresh([x])[..0]) == 0;
  }

  /** Two live attributes never share a remote column. */
  lemma MapIsInjective(n: Naming, known: set<string>, cat: Catalog, rows: Rows, i: nat, j: nat)
    requires Unambiguous(n, known) && MapRight(n, known, cat, rows) && LiveDistinct(cat)
    requires i < j < |cat| && !cat[i].dropped && !cat[j].dropped
    ensures rows[i + 1] != rows[j + 1]
  {
    assert RightAt(n, known, cat, rows, i + 1) && RightAt(n, known, cat, rows, j + 1);
  }
}

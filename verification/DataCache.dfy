/**
 * The per-table metadata cache of the DML path (parseDBZDML in
 * src/backend/converter/debezium_event_handler.c) and its invalidation by DDL
 * (convert2PGDDL in src/backend/converter/format_converter.c), under the
 * exit-on-error strategy with fixed mapping rules.
 */
module DataCache {

  import opened Wrappers
  import NR = NameResolution

  // --------------------------------------------------------- catalog and entry

  datatype Column = Column(name: string, typeOid: nat, typemod: int)
  datatype Table = Table(oid: nat, columns: seq<Column>, pk: set<nat>)
  type Catalog = map<NR.Target, Table>

  datatype ColumnInfo = ColumnInfo(typeOid: nat, position: nat, typemod: int, isPk: bool)
  datatype Entry = Entry(tableOid: nat, natts: nat, columns: map<string, ColumnInfo>)

  function InfoAt(t: Table, i: nat): ColumnInfo
    requires i < |t.columns|
  {
    ColumnInfo(t.columns[i].typeOid, i + 1, t.columns[i].typemod, i + 1 in t.pk)
  }

  /** HASH_ENTER for the first n attributes: a name already present is left alone. */
  function ColumnsOf(t: Table, n: nat): map<string, ColumnInfo>
    requires n <= |t.columns|
  {
    if n == 0 then map[]
    else
      var before := ColumnsOf(t, n - 1);
      var name := t.columns[n - 1].name;
      if name in before then before else before[name := InfoAt(t, n - 1)]
  }

  /** A fresh read of the catalog. */
  function ReadEntry(t: Table): Entry {
    Entry(t.oid, |t.columns|, ColumnsOf(t, |t.columns|))
  }

  method FillEntry(t: Table) returns (e: Entry)
    ensures e == ReadEntry(t)
  {
    var columns: map<string, ColumnInfo> := map[];
    for attnum := 1 to |t.columns| + 1
      invariant columns == ColumnsOf(t, attnum - 1)
    {
      var attr := t.columns[attnum - 1];
      if attr.name !in columns {
        columns := columns[attr.name := ColumnInfo(attr.typeOid, attnum, attr.typemod, attnum in t.pk)];
      }
    }
    e := Entry(t.oid, |t.columns|, columns);
  }

  ghost predicate FirstWithName(t: Table, i: nat) {
    i < |t.columns| && forall j :: 0 <= j < i ==> t.columns[j].name != t.columns[i].name
  }

  /** An entry knows the names of the attributes read and no others. */
  lemma {:induction false} EntryNames(t: Table, n: nat)
    requires n <= |t.columns|
    ensures forall name :: name in ColumnsOf(t, n) <==> exists i :: 0 <= i < n && t.columns[i].name == name
  {
    if n > 0 {
      EntryNames(t, n - 1);
    }
  }

  /** Each name stands for its first attribute. */
  lemma {:induction false} EntryFindsColumn(t: Table, n: nat, i: nat)
    requires i < n <= |t.columns| && FirstWithName(t, i)
    ensures var column, cols := t.columns[i], ColumnsOf(t, n);
      && column.name in cols && cols[column.name].typeOid == column.typeOid && cols[column.name].typemod == column.typemod
      && cols[column.name].position == i + 1 && (cols[column.name].isPk <==> i + 1 in t.pk)
  {
    if i < n - 1 {
      EntryFindsColumn(t, n - 1, i);
    } else {
      EntryNames(t, n - 1);
    }
  }

  // ---------------------------------------------------------------- cache keys

  /** strlcpy into two 64-byte fields, and the name under which PostgreSQL stores a table. */
  function Key(t: NR.Target): NR.Target {
    NR.Target(NR.Clipped(t.schema), NR.Clipped(t.table))
  }

  predicate Short(t: NR.Target) {
    |t.schema| < NR.NAMEDATALEN && |t.table| < NR.NAMEDATALEN
  }

  lemma KeyOfShort(t: NR.Target)
    ensures Short(Key(t)) && (Key(t) == t <==> Short(t))
  {
  }

  // ------------------------------------------------------------------- events

  datatype Change = Create(table: Table) | Alter(table: Table) | Drop
  datatype Event = Ddl(id: string, change: Change) | Dml(db: string, schema: Option<string>, table: string)

  datatype Naming = Naming(rules: NR.Rules, strategy: NR.Casing)

  function TargetOf(n: Naming, e: Event): Option<NR.Target> {
    match e
    case Ddl(id, _) => NR.DdlTarget(n.rules, n.strategy, id)
    case Dml(db, schema, table) => NR.DmlTarget(n.rules, n.strategy, db, schema, table)
  }

  /** An error stops the worker; otherwise a DML event learns an entry. */
  datatype Outcome<W> = Stopped | Went(world: W, answer: Option<Entry>)

  /** Statements name a table by its clipped names; ALTER is only issued for a table found under its full ones. */
  function Changed(catalog: Catalog, t: NR.Target, c: Change): Catalog {
    match c
    case Create(table) => if Key(t) in catalog then catalog else catalog[Key(t) := table]
    case Alter(table) => catalog[t := table]
    case Drop => catalog - {Key(t)}
  }

  /** What a worker without a cache would do. */
  function PlainStep(n: Naming, catalog: Catalog, e: Event): Outcome<Catalog> {
    var target := TargetOf(n, e);
    if target.None? then Stopped
    else if e.Ddl? then
      if e.change.Alter? && target.value !in catalog then Stopped
      else Went(Changed(catalog, target.value, e.change), None)
    else if target.value !in catalog then Stopped
    else Went(catalog, Some(ReadEntry(catalog[target.value])))
  }

  datatype World = World(catalog: Catalog, cache: map<NR.Target, Entry>)

  function Step(n: Naming, w: World, e: Event): Outcome<World> {
    var target := TargetOf(n, e);
    if target.None? then Stopped
    else
      var t, k := target.value, Key(target.value);
      if e.Ddl? then
        if e.change.Alter? && t !in w.catalog then Stopped
        else Went(World(Changed(w.catalog, t, e.change), if e.change.Create? then w.cache else w.cache - {k}), None)
      else if k in w.cache then Went(w, Some(w.cache[k]))
      else if t !in w.catalog then Stopped
      else
        var entry := ReadEntry(w.catalog[t]);
        Went(w.(cache := w.cache[k := entry]), Some(entry))
  }

  class Worker {
    var catalog: Catalog
    var cache: map<NR.Target, Entry>

    ghost function W(): World
      reads this
    {
      World(catalog, cache)
    }

    /** The cache part of convert2PGDDL followed by the execution of the statement. */
    method HandleDdl(n: Naming, id: string, change: Change) returns (stopped: bool)
      modifies this
      ensures stopped == Step(n, old(W()), Ddl(id, change)).Stopped?
      ensures !stopped ==> Went(W(), None) == Step(n, old(W()), Ddl(id, change))
    {
      var target := NR.DdlTarget(n.rules, n.strategy, id);
      if target.None? {
        return true;
      }
      var t := target.value;
      if !change.Create? {
        cache := cache - {Key(t)};
      }
      if change.Alter? && t !in catalog {
        return true;
      }
      catalog := Changed(catalog, t, change);
      return false;
    }

    /** The cache part of parseDBZDML. */
    method HandleDml(n: Naming, db: string, schema: Option<string>, table: string)
      returns (stopped: bool, entry: Option<Entry>)
      modifies this`cache
      ensures stopped == Step(n, old(W()), Dml(db, schema, table)).Stopped?
      ensures !stopped ==> Went(W(), entry) == Step(n, old(W()), Dml(db, schema, table))
    {
      var target := NR.DmlTarget(n.rules, n.strategy, db, schema, table);
      if target.None? {
        return true, None;
      }
      var t, k := target.value, Key(target.value);
      if k in cache {
        return false, Some(cache[k]);
      }
      if t !in catalog {
        return true, None;
      }
      var e := FillEntry(catalog[t]);
      cache := cache[k := e];
      return false, Some(e);
    }
  }

  // ------------------------------------------------------------------ coherence

  /** PostgreSQL stores short names only, and every entry is what a fresh read of its table gives. */
  ghost predicate Coherent(w: World) {
    && (forall t :: t in w.catalog ==> Short(t))
    && (forall k :: k in w.cache ==> k in w.catalog && w.cache[k] == ReadEntry(w.catalog[k]))
  }

  /** A DML event whose names PostgreSQL can store, or whose clipped names are not cached. */
  ghost predicate Fresh(n: Naming, w: World, e: Event) {
    e.Dml? && TargetOf(n, e).Some? ==> Short(TargetOf(n, e).value) || Key(TargetOf(n, e).value) !in w.cache
  }

  /** The outcome without the cache. */
  ghost function Uncached(o: Outcome<World>): Outcome<Catalog> {
    if o.Stopped? then Stopped else Went(o.world.catalog, o.answer)
  }

  lemma StepCoherent(n: Naming, w: World, e: Event)
    requires Coherent(w)
    ensures Step(n, w, e).Went? ==> Coherent(Step(n, w, e).world)
  {
    if TargetOf(n, e).Some? {
      KeyOfShort(TargetOf(n, e).value);
    }
  }

  /**
   * An event has the outcome of a worker without a cache if and only if it is
   * no DML event with a long name whose clipped form is cached.
   */
  lemma StepRefines(n: Naming, w: World, e: Event)
    requires Coherent(w)
    ensures Uncached(Step(n, w, e)) == PlainStep(n, w.catalog, e) <==> Fresh(n, w, e)
  {
    if TargetOf(n, e).Some? {
      KeyOfShort(TargetOf(n, e).value);
    }
  }

  function Answers(n: Naming, w: World, events: seq<Event>): seq<Option<Entry>>
    decreases |events|
  {
    if events == [] then []
    else
      match Step(n, w, events[0])
      case Stopped => []
      case Went(w', answer) => [answer] + Answers(n, w', events[1..])
  }

  function PlainAnswers(n: Naming, catalog: Catalog, events: seq<Event>): seq<Option<Entry>>
    decreases |events|
  {
    if events == [] then []
    else
      match PlainStep(n, catalog, events[0])
      case Stopped => []
      case Went(c', answer) => [answer] + PlainAnswers(n, c', events[1..])
  }

  /** Every event that the run reaches is fresh. */
  ghost predicate AllFresh(n: Naming, w: World, events: seq<Event>)
    decreases |events|
  {
    events == [] ||
    (Fresh(n, w, events[0]) &&
     (Step(n, w, events[0]).Went? ==> AllFresh(n, Step(n, w, events[0]).world, events[1..])))
  }

  /**
   * A run gives the same answers as one that reads the catalog each time, if
   * and only if no DML event in it has a long name whose clipped form is cached.
   */
  lemma {:induction false} CacheIsTransparent(n: Naming, w: World, events: seq<Event>)
    requires Coherent(w)
    ensures Answers(n, w, events) == PlainAnswers(n, w.catalog, events) <==> AllFresh(n, w, events)
    decreases |events|
  {
    if events != [] {
      var e, rest := events[0], events[1..];
      StepRefines(n, w, e);
      StepCoherent(n, w, e);
      if !Fresh(n, w, e) {
        assert PlainStep(n, w.catalog, e).Stopped? && Step(n, w, e).Went?;
      } else if Step(n, w, e).Went? {
        var w' := Step(n, w, e).world;
        CacheIsTransparent(n, w', rest);
        SameTails([Step(n, w, e).answer], Answers(n, w', rest), PlainAnswers(n, w'.catalog, rest));
      }
    }
  }

  lemma SameTails(a: seq<Option<Entry>>, b: seq<Option<Entry>>, c: seq<Option<Entry>>)
    ensures a + b == a + c <==> b == c
  {
    assert (a + b)[|a|..] == b && (a + c)[|a|..] == c;
  }

  /** Names below 64 characters make every run transparent, from the empty cache of a worker that starts. */
  lemma ShortRunsAreTransparent(n: Naming, catalog: Catalog, events: seq<Event>)
    requires forall t :: t in catalog ==> Short(t)
    requires forall i :: 0 <= i < |events| && TargetOf(n, events[i]).Some? ==> Short(TargetOf(n, events[i]).value)
    ensures Answers(n, World(catalog, map[]), events) == PlainAnswers(n, catalog, events)
  {
    CacheIsTransparent(n, World(catalog, map[]), events);
    ShortIsFresh(n, World(catalog, map[]), events);
  }

  lemma {:induction false} ShortIsFresh(n: Naming, w: World, events: seq<Event>)
    requires forall i :: 0 <= i < |events| && TargetOf(n, events[i]).Some? ==> Short(TargetOf(n, events[i]).value)
    ensures AllFresh(n, w, events)
    decreases |events|
  {
    if events != [] && Step(n, w, events[0]).Went? {
      ShortIsFresh(n, Step(n, w, events[0]).world, events[1..]);
    }
  }

  /**
   * DML right after a DDL event of the same clean object learns the created
   * table, or the one that was there already; the altered table; after a DROP
   * it stops, as does an ALTER of a table that is not there.
   */
  lemma DdlThenDml(n: Naming, w: World, db: string, schema: Option<string>, table: string, change: Change)
    requires Coherent(w)
    requires NR.Clean(db) && NR.Clean(table) && (schema.Some? ==> NR.Clean(schema.value))
    requires TargetOf(n, Dml(db, schema, table)).Some? && Short(TargetOf(n, Dml(db, schema, table)).value)
    ensures var target := TargetOf(n, Dml(db, schema, table)).value;
      var answers := Answers(n, w, [Ddl(NR.ObjectId(db, schema, table), change), Dml(db, schema, table)]);
      && (change.Create? && target !in w.catalog ==> answers == [None, Some(ReadEntry(change.table))])
      && (change.Create? && target in w.catalog ==> answers == [None, Some(ReadEntry(w.catalog[target]))])
      && (change.Alter? && target in w.catalog ==> answers == [None, Some(ReadEntry(change.table))])
      && (change.Alter? && target !in w.catalog ==> answers == [])
      && (change.Drop? ==> answers == [None])
  {
    var ddl, dml := Ddl(NR.ObjectId(db, schema, table), change), Dml(db, schema, table);
    NR.PathsAgree(n.rules, n.strategy, db, schema, table);
    StepRefines(n, w, ddl);
    StepCoherent(n, w, ddl);
    if Step(n, w, ddl).Went? {
      var w' := Step(n, w, ddl).world;
      StepRefines(n, w', dml);
      AnswersOfTwo(n, w, ddl, dml);
    }
  }

  lemma AnswersOfTwo(n: Naming, w: World, a: Event, b: Event)
    requires Step(n, w, a).Went?
    ensures var w' := Step(n, w, a).world;
      Answers(n, w, [a, b]) == [Step(n, w, a).answer] + if Step(n, w', b).Stopped? then [] else [Step(n, w', b).answer]
  {
    var w' := Step(n, w, a).world;
    assert [a, b][1..] == [b];
    assert Answers(n, w, [a, b]) == [Step(n, w, a).answer] + Answers(n, w', [b]);
    AnswersOfOne(n, w', b);
  }

  lemma AnswersOfOne(n: Naming, w: World, e: Event)
    ensures Answers(n, w, [e]) == if Step(n, w, e).Stopped? then [] else [Step(n, w, e).answer]
  {
    assert [e][1..] == [];
  }

  /** A DDL event touches the one table that its target names. */
  lemma OthersStay(n: Naming, w: World, e: Event, t: NR.Target)
    requires Coherent(w) && Step(n, w, e).Went? && t != Key(TargetOf(n, e).value)
    ensures var w' := Step(n, w, e).world;
      && (t in w'.catalog <==> t in w.catalog) && (t in w.catalog ==> w'.catalog[t] == w.catalog[t])
      && (t in w'.cache <==> t in w.cache) && (t in w.cache ==> w'.cache[t] == w.cache[t])
  {
    KeyOfShort(TargetOf(n, e).value);
  }

  /**
   * A table whose names have 63 characters, and then DML for a name that goes
   * on behind them: the second event should stop the worker for want of a
   * table, and is answered with the first one's entry instead.
   */
  lemma LongNamesCollide(n: Naming, catalog: Catalog, a: Event, b: Event)
    requires a.Dml? && b.Dml? && TargetOf(n, a).Some? && TargetOf(n, b).Some?
    requires forall t :: t in catalog ==> Short(t)
    requires TargetOf(n, a).value in catalog && !Short(TargetOf(n, b).value)
    requires Key(TargetOf(n, a).value) == Key(TargetOf(n, b).value)
    ensures var entry := ReadEntry(catalog[TargetOf(n, a).value]);
      && Answers(n, World(catalog, map[]), [a, b]) == [Some(entry), Some(entry)]
      && PlainAnswers(n, catalog, [a, b]) == [Some(entry)]
  {
    var w := World(catalog, map[]);
    var w' := Step(n, w, a).world;
    assert [a, b][1..] == [b];
    assert Answers(n, w', [b]) == [Some(ReadEntry(catalog[TargetOf(n, a).value]))] by {
      assert [b][1..] == [];
    }
    assert PlainAnswers(n, catalog, [b]) == [];
  }
}

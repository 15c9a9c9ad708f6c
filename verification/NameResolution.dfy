/**
 * From remote names to PostgreSQL names (src/backend/converter/format_converter.c
 * and src/backend/converter/debezium_event_handler.c). DDL events carry one
 * dotted identifier, DML events its parts; both paths consult the rule table
 * first and apply the letter-casing strategy otherwise, each in its own code.
 */
module NameResolution {

  import opened Wrappers

  // ------------------------------------------------------------ letter casing

  datatype Casing = AsIs | Lowercase | Uppercase

  function ToLower(c: char): char {
    if 'A' <= c <= 'Z' then c - 'A' + 'a' else c
  }

  function ToUpper(c: char): char {
    if 'a' <= c <= 'z' then c - 'a' + 'A' else c
  }

  function CaseOf(strategy: Casing, c: char): char {
    match strategy
    case AsIs => c
    case Lowercase => ToLower(c)
    case Uppercase => ToUpper(c)
  }

  /** The strategies exchange letters that stand 32 apart, 65 to 90 and 97 to 122, and keep everything else. */
  lemma LettersRecased(c: char)
    ensures CaseOf(AsIs, c) == c
    ensures CaseOf(Lowercase, c) as int == c as int + if 65 <= c as int <= 90 then 32 else 0
    ensures CaseOf(Uppercase, c) as int == c as int - if 97 <= c as int <= 122 then 32 else 0
  {
  }

  function Normalized(strategy: Casing, s: string): (t: string)
    ensures |t| == |s|
  {
    seq(|s|, i requires 0 <= i < |s| => CaseOf(strategy, s[i]))
  }

  /** fc_normalize_name, in place. */
  method NormalizeName(strategy: Casing, name: array<char>, len: nat)
    requires len <= name.Length
    modifies name
    ensures name[..len] == Normalized(strategy, old(name[..len]))
    ensures name[len..] == old(name[len..])
  {
    if strategy.AsIs? {
      assert name[..len] == Normalized(strategy, name[..len]);
      return;
    }
    for i := 0 to len
      invariant forall k :: 0 <= k < name.Length ==>
        name[k] == if k < i then CaseOf(strategy, old(name[k])) else old(name[k])
    {
      name[i] := CaseOf(strategy, name[i]);
    }
  }

  function Lower(s: string): (t: string)
    ensures |t| == |s|
  {
    Normalized(Lowercase, s)
  }

  function Upper(s: string): (t: string)
    ensures |t| == |s|
  {
    Normalized(Uppercase, s)
  }

  lemma NormalizedConcat(strategy: Casing, s: string, t: string)
    ensures Normalized(strategy, s + t) == Normalized(strategy, s) + Normalized(strategy, t)
  {
  }

  // ------------------------------------------------------- PostgreSQL's limit

  const NAMEDATALEN: nat := 64

  /** PostgreSQL and the code's name buffers keep at most 63 characters. */
  function Clipped(s: string): (t: string)
    ensures |t| < NAMEDATALEN && t <= s && (t == s <==> |s| < NAMEDATALEN)
  {
    if |s| >= NAMEDATALEN then s[..NAMEDATALEN - 1] else s
  }

  lemma ClippedNormalized(strategy: Casing, s: string)
    ensures Clipped(Normalized(strategy, s)) == Normalized(strategy, Clipped(s))
  {
  }

  // -------------------------------------------------------------- splitting

  function CountDots(s: string): nat {
    if s == "" then 0 else CountDots(s[..|s| - 1]) + if s[|s| - 1] == '.' then 1 else 0
  }

  function SkipDots(s: string): (t: string)
    ensures |t| <= |s| && (t != "" ==> t[0] != '.')
  {
    if s != "" && s[0] == '.' then SkipDots(s[1..]) else s
  }

  function TokenLength(s: string): (n: nat)
    ensures n <= |s| && '.' !in s[..n]
    ensures n < |s| ==> s[n] == '.'
    ensures s != "" && s[0] != '.' ==> n > 0
  {
    if s == "" || s[0] == '.' then 0 else
      var n := TokenLength(s[1..]);
      assert s[..n + 1] == [s[0]] + s[1..][..n];
      n + 1
  }

  /** What successive strtok calls with "." return: empty parts are skipped. */
  function Tokens(s: string): seq<string>
    decreases |s|
  {
    var t := SkipDots(s);
    if t == "" then [] else
      var n := TokenLength(t);
      [t[..n]] + Tokens(t[n..])
  }

  datatype Parts = Parts(db: Option<string>, schema: Option<string>, table: Option<string>)

  function Nth(ts: seq<string>, i: nat): Option<string> {
    if i < |ts| then Some(ts[i]) else None
  }

  function Split(id: string, usedb: bool): Parts {
    var ts := Tokens(id);
    match CountDots(id)
    case 0 => Parts(None, None, Some(id))
    case 1 => if usedb then Parts(Nth(ts, 0), None, Nth(ts, 1)) else Parts(None, Nth(ts, 0), Nth(ts, 1))
    case 2 => Parts(Nth(ts, 0), Nth(ts, 1), Nth(ts, 2))
    case _ => Parts(None, None, None)
  }

  /** One strtok call on what earlier calls left over. */
  method Strtok(s: string) returns (token: Option<string>, rest: string)
    ensures if token.None? then Tokens(s) == [] && rest == "" else Tokens(s) == [token.value] + Tokens(rest)
  {
    var i := 0;
    while i < |s| && s[i] == '.'
      invariant i <= |s| && SkipDots(s) == SkipDots(s[i..])
    {
      i := i + 1;
    }
    if i == |s| {
      return None, "";
    }
    var t := s[i..];
    var n := 0;
    while n < |t| && t[n] != '.'
      invariant n <= |t| && TokenLength(t) == n + TokenLength(t[n..])
    {
      n := n + 1;
    }
    token, rest := Some(t[..n]), t[n..];
  }

  method ThreeStrtoks(s: string) returns (a: Option<string>, b: Option<string>, c: Option<string>)
    ensures a == Nth(Tokens(s), 0) && b == Nth(Tokens(s), 1) && c == Nth(Tokens(s), 2)
  {
    var rest;
    a, rest := Strtok(s);
    b, rest := Strtok(rest);
    c, rest := Strtok(rest);
  }

  /** splitIdString: a loop counts the dots, then strtok hands out the parts. */
  method SplitIdString(id: string, usedb: bool) returns (p: Parts)
    ensures p == Split(id, usedb)
  {
    var dotCount := 0;
    for i := 0 to |id|
      invariant dotCount == CountDots(id[..i])
    {
      if id[i] == '.' {
        dotCount := dotCount + 1;
      }
      assert id[..i + 1][..i] == id[..i];
    }
    assert id[..|id|] == id;
    if dotCount == 0 {
      return Parts(None, None, Some(id));
    }
    if dotCount > 2 {
      return Parts(None, None, None);
    }
    var first, second, third := ThreeStrtoks(id);
    if dotCount == 1 {
      p := if usedb then Parts(first, None, second) else Parts(None, first, second);
    } else {
      p := Parts(first, second, third);
    }
  }

  // ------------------------------------------------------ the two code paths

  datatype ObjectType = TableObject | ColumnObject
  type Rules = map<(string, ObjectType), string>

  /** transform_object_name. */
  function Lookup(rules: Rules, id: string, t: ObjectType): Option<string> {
    if (id, t) in rules then Some(rules[(id, t)]) else None
  }

  datatype Target = Target(schema: string, table: string)

  /** A rule's target: [schema.]table, with "public" when the schema is left out. */
  function MappedTarget(mapped: string): Option<Target> {
    var p := Split(mapped, false);
    if p.table.None? then None
    else Some(Target(if p.schema.Some? then p.schema.value else "public", p.table.value))
  }

  /** CREATE, ALTER and DROP: the identifier is normalised as a whole and then split; None is an error. */
  function DdlTarget(rules: Rules, strategy: Casing, id: string): Option<Target> {
    var mapped := Lookup(rules, id, TableObject);
    if mapped.Some? then MappedTarget(mapped.value) else
      var p := Split(Normalized(strategy, id), true);
      if p.db.None? || p.table.None? then None else Some(Target(p.db.value, p.table.value))
  }

  /** The identifier that a DML event's source block spells out. */
  function ObjectId(db: string, schema: Option<string>, table: string): string {
    db + "." + (if schema.Some? then schema.value + "." else "") + table
  }

  /** DML: database and table are normalised separately. */
  function DmlTarget(rules: Rules, strategy: Casing, db: string, schema: Option<string>, table: string): Option<Target> {
    var mapped := Lookup(rules, ObjectId(db, schema, table), TableObject);
    if mapped.Some? then MappedTarget(mapped.value)
    else Some(Target(Normalized(strategy, db), Normalized(strategy, table)))
  }

  predicate Clean(part: string) {
    part != "" && '.' !in part
  }

  /**
   * DDL and DML resolve an object to the same PostgreSQL table if and only if a
   * rule maps it, or its database, schema (if any) and table names are all
   * non-empty and free of dots.
   */
  lemma PathsAgree(rules: Rules, strategy: Casing, db: string, schema: Option<string>, table: string)
    ensures DdlTarget(rules, strategy, ObjectId(db, schema, table)) == DmlTarget(rules, strategy, db, schema, table)
      <==> Lookup(rules, ObjectId(db, schema, table), TableObject).Some?
           || (Clean(db) && Clean(table) && (schema.Some? ==> Clean(schema.value)))
  {
    var id := ObjectId(db, schema, table);
    if Lookup(rules, id, TableObject).None? {
      if Clean(db) && Clean(table) {
        CleanPathsAgree(strategy, db, schema, table);
      } else {
        UncleanPathsDiffer(strategy, id, db, table);
      }
    }
  }

  /** The parts that the DDL path works with. */
  function DdlParts(strategy: Casing, id: string): Parts {
    Split(Normalized(strategy, id), true)
  }

  lemma CleanPathsAgree(strategy: Casing, db: string, schema: Option<string>, table: string)
    requires Clean(db) && Clean(table)
    ensures var p := DdlParts(strategy, ObjectId(db, schema, table));
      (p.db == Some(Normalized(strategy, db)) && p.table == Some(Normalized(strategy, table))) <==>
      (schema.Some? ==> Clean(schema.value))
    ensures var p := DdlParts(strategy, ObjectId(db, schema, table)); p.table.None? || p.db.Some?
  {
    if schema.None? {
      TwoParts(strategy, db, table);
    } else {
      ThreeParts(strategy, db, schema.value, table);
    }
  }

  /** strtok never hands out an empty part or one with a dot. */
  lemma UncleanPathsDiffer(strategy: Casing, id: string, db: string, table: string)
    requires !Clean(db) || !Clean(table)
    ensures var p := DdlParts(strategy, id);
      p.db.Some? && p.table.Some? ==> p.db.value != Normalized(strategy, db) || p.table.value != Normalized(strategy, table)
  {
    TokensAreClean(Normalized(strategy, id));
    NormalizedClean(strategy, db);
    NormalizedClean(strategy, table);
  }

  lemma {:induction false} DotsOfConcat(s: string, t: string)
    ensures CountDots(s + t) == CountDots(s) + CountDots(t)
  {
    if t == "" {
      assert s + t == s;
    } else {
      DotsOfConcat(s, t[..|t| - 1]);
      assert (s + t)[..|s + t| - 1] == s + t[..|t| - 1];
    }
  }

  lemma {:induction false} NormalizedDots(strategy: Casing, s: string)
    ensures CountDots(Normalized(strategy, s)) == CountDots(s)
  {
    if s != "" {
      var n := |s| - 1;
      NormalizedDots(strategy, s[..n]);
      assert Normalized(strategy, s)[..n] == Normalized(strategy, s[..n]);
    }
  }

  lemma {:induction false} DotFree(s: string)
    ensures '.' !in s <==> CountDots(s) == 0
  {
    if s != "" {
      DotFree(s[..|s| - 1]);
      assert s == s[..|s| - 1] + [s[|s| - 1]];
    }
  }

  lemma NormalizedClean(strategy: Casing, s: string)
    ensures Clean(Normalized(strategy, s)) <==> Clean(s)
  {
    NormalizedDots(strategy, s);
    DotFree(s);
    DotFree(Normalized(strategy, s));
  }

  lemma {:induction false} TokensAreClean(s: string)
    ensures forall i :: 0 <= i < |Tokens(s)| ==> Clean(Tokens(s)[i])
    decreases |s|
  {
    var t := SkipDots(s);
    if t != "" {
      TokensAreClean(t[TokenLength(t)..]);
    }
  }

  lemma FirstToken(part: string, rest: string)
    requires Clean(part) && (rest == "" || rest[0] == '.')
    ensures Tokens(part + rest) == [part] + Tokens(rest)
  {
    var s := part + rest;
    var n := TokenLength(s);
    assert SkipDots(s) == s;
    assert forall k :: 0 <= k < |part| ==> s[k] == part[k] && part[k] in part;
    assert rest != "" ==> s[|part|] == '.';
    assert n == |part|;
    assert s[..n] == part && s[n..] == rest;
  }

  lemma DottedTokens(rest: string)
    ensures Tokens("." + rest) == Tokens(rest)
  {
    assert ("." + rest)[1..] == rest;
  }

  lemma TwoTokens(d: string, t: string)
    requires Clean(d) && Clean(t)
    ensures Tokens(d + ("." + t)) == [d, t]
  {
    FirstToken(d, "." + t);
    DottedTokens(t);
    FirstToken(t, "");
    assert t + "" == t;
    assert Tokens("") == [];
  }

  lemma ThreeTokens(d: string, c: string, t: string)
    requires Clean(d) && Clean(c) && Clean(t)
    ensures Tokens(d + ("." + (c + ("." + t)))) == [d, c, t]
  {
    FirstToken(d, "." + (c + ("." + t)));
    DottedTokens(c + ("." + t));
    TwoTokens(c, t);
  }

  lemma SkippedToken(d: string, t: string)
    requires Clean(d) && Clean(t)
    ensures Tokens(d + ("." + ("." + t))) == [d, t]
  {
    FirstToken(d, "." + ("." + t));
    DottedTokens("." + t);
    FirstToken(d, "." + t);
    TwoTokens(d, t);
  }

  lemma DotsOfTwo(d: string, t: string)
    ensures CountDots(d + ("." + t)) == CountDots(d) + 1 + CountDots(t)
  {
    DotsOfConcat(d, "." + t);
    DotsOfConcat(".", t);
  }

  lemma TwoParts(strategy: Casing, db: string, table: string)
    requires Clean(db) && Clean(table)
    ensures var n := Normalized(strategy, ObjectId(db, None, table));
      CountDots(n) == 1 && Tokens(n) == [Normalized(strategy, db), Normalized(strategy, table)]
  {
    var d, t := Normalized(strategy, db), Normalized(strategy, table);
    assert Normalized(strategy, ObjectId(db, None, table)) == d + ("." + t);
    NormalizedClean(strategy, db);
    NormalizedClean(strategy, table);
    TwoTokens(d, t);
    DotsOfTwo(d, t);
    DotFree(d);
    DotFree(t);
  }

  lemma ThreeParts(strategy: Casing, db: string, schema: string, table: string)
    requires Clean(db) && Clean(table)
    ensures var n := Normalized(strategy, ObjectId(db, Some(schema), table));
      if Clean(schema) then
        CountDots(n) == 2 && Tokens(n) == [Normalized(strategy, db), Normalized(strategy, schema), Normalized(strategy, table)]
      else CountDots(n) > 2 || (CountDots(n) == 2 && |Tokens(n)| == 2)
  {
    var d, c, t := Normalized(strategy, db), Normalized(strategy, schema), Normalized(strategy, table);
    assert Normalized(strategy, ObjectId(db, Some(schema), table)) == d + ("." + (c + ("." + t)));
    NormalizedClean(strategy, db);
    NormalizedClean(strategy, schema);
    NormalizedClean(strategy, table);
    DotsOfTwo(d, c + ("." + t));
    DotsOfTwo(c, t);
    DotFree(d);
    DotFree(c);
    DotFree(t);
    if Clean(schema) {
      ThreeTokens(d, c, t);
    } else if schema == "" {
      assert c + ("." + t) == "." + t;
      SkippedToken(d, t);
    }
  }

  // --------------------------------------------------------- targets of rules

  function OnePart(part: string): seq<string> {
    if part == "" then [] else [part]
  }

  lemma TokensOfPart(part: string, rest: string)
    requires '.' !in part
    ensures Tokens(part) == OnePart(part)
    ensures Tokens(part + ("." + rest)) == OnePart(part) + Tokens(rest)
  {
    DottedTokens(rest);
    if part == "" {
      assert part + ("." + rest) == "." + rest && Tokens("") == [];
    } else {
      FirstToken(part, "");
      assert part + "" == part && Tokens("") == [];
      FirstToken(part, "." + rest);
    }
  }

  /** The first dot of a name. */
  lemma SplitAtDot(s: string) returns (a: string, b: string)
    requires CountDots(s) > 0
    ensures s == a + ("." + b) && '.' !in a && CountDots(b) == CountDots(s) - 1
  {
    var n := TokenLength(s);
    DotFree(s);
    a := s[..n];
    assert s[..|s|] == s;
    b := s[n + 1..];
    DotsOfTwo(a, b);
    DotFree(a);
  }

  /** What a rule may name: a table, a schema and a table, or a database, a schema and a table. */
  ghost predicate Names(mapped: string, t: Target) {
    || ('.' !in mapped && t == Target("public", mapped))
    || (Clean(t.schema) && Clean(t.table) && mapped == t.schema + ("." + t.table))
    || (Clean(t.schema) && Clean(t.table) &&
        exists db :: Clean(db) && mapped == db + ("." + (t.schema + ("." + t.table))))
  }

  /** A rule's target is read as what it names, for every text; one that names nothing is an error. */
  lemma MappedTargetMeans(mapped: string, t: Target)
    ensures MappedTarget(mapped) == Some(t) <==> Names(mapped, t)
  {
    if Names(mapped, t) {
      NamedIsRead(mapped, t);
    } else if MappedTarget(mapped) == Some(t) {
      ReadIsNamed(mapped);
    }
  }

  lemma NamedIsRead(mapped: string, t: Target)
    requires Names(mapped, t)
    ensures MappedTarget(mapped) == Some(t)
  {
    if '.' !in mapped {
      DotFree(mapped);
    } else if mapped == t.schema + ("." + t.table) {
      TwoRead(t.schema, t.table);
    } else {
      var db :| Clean(db) && mapped == db + ("." + (t.schema + ("." + t.table)));
      ThreeRead(db, t.schema, t.table);
    }
  }

  lemma TwoRead(schema: string, table: string)
    requires Clean(schema) && Clean(table)
    ensures MappedTarget(schema + ("." + table)) == Some(Target(schema, table))
  {
    DotFree(schema);
    DotFree(table);
    TwoTokens(schema, table);
    DotsOfTwo(schema, table);
  }

  lemma ThreeRead(db: string, schema: string, table: string)
    requires Clean(db) && Clean(schema) && Clean(table)
    ensures MappedTarget(db + ("." + (schema + ("." + table)))) == Some(Target(schema, table))
  {
    DotFree(db);
    DotFree(schema);
    DotFree(table);
    ThreeTokens(db, schema, table);
    DotsOfTwo(db, schema + ("." + table));
    DotsOfTwo(schema, table);
  }

  lemma ReadIsNamed(mapped: string)
    requires MappedTarget(mapped).Some?
    ensures Names(mapped, MappedTarget(mapped).value)
  {
    DotFree(mapped);
    if CountDots(mapped) > 0 {
      var a, b := SplitAtDot(mapped);
      if CountDots(b) == 0 {
        DotFree(b);
        TwoNamed(a, b);
      } else {
        var c, d := SplitAtDot(b);
        if CountDots(d) == 0 {
          DotFree(d);
          ThreeNamed(a, c, d);
        }
      }
    }
  }

  lemma ReadByTokens(mapped: string)
    ensures CountDots(mapped) == 1 ==>
      MappedTarget(mapped) == if |Tokens(mapped)| >= 2 then Some(Target(Tokens(mapped)[0], Tokens(mapped)[1])) else None
    ensures CountDots(mapped) == 2 ==>
      MappedTarget(mapped) == if |Tokens(mapped)| >= 3 then Some(Target(Tokens(mapped)[1], Tokens(mapped)[2])) else None
  {
  }

  lemma TwoNamed(a: string, b: string)
    requires '.' !in a && '.' !in b && MappedTarget(a + ("." + b)).Some?
    ensures Clean(a) && Clean(b) && MappedTarget(a + ("." + b)) == Some(Target(a, b))
  {
    DotFree(a);
    DotFree(b);
    DotsOfTwo(a, b);
    ReadByTokens(a + ("." + b));
    TokensOfPart(a, b);
    TokensOfPart(b, "");
  }

  lemma ThreeNamed(a: string, b: string, c: string)
    requires '.' !in a && '.' !in b && '.' !in c && MappedTarget(a + ("." + (b + ("." + c)))).Some?
    ensures Clean(a) && Clean(b) && Clean(c) && MappedTarget(a + ("." + (b + ("." + c)))) == Some(Target(b, c))
  {
    DotsOfThree(a, b, c);
    ReadByTokens(a + ("." + (b + ("." + c))));
    TokensOfThree(a, b, c);
    AllThree(a, b, c);
  }

  lemma DotsOfThree(a: string, b: string, c: string)
    requires '.' !in a && '.' !in b && '.' !in c
    ensures CountDots(a + ("." + (b + ("." + c)))) == 2
  {
    DotFree(a);
    DotFree(b);
    DotFree(c);
    DotsOfTwo(a, b + ("." + c));
    DotsOfTwo(b, c);
  }

  lemma TokensOfThree(a: string, b: string, c: string)
    requires '.' !in a && '.' !in b && '.' !in c
    ensures Tokens(a + ("." + (b + ("." + c)))) == OnePart(a) + (OnePart(b) + OnePart(c))
  {
    TokensOfPart(a, b + ("." + c));
    TokensOfPart(b, c);
    TokensOfPart(c, "");
  }

  lemma AllThree(a: string, b: string, c: string)
    ensures |OnePart(a) + (OnePart(b) + OnePart(c))| >= 3 ==>
      a != "" && b != "" && c != "" && OnePart(a) + (OnePart(b) + OnePart(c)) == [a, b, c]
  {
  }

  // ---------------------------------------------------------------- columns

  /** transformDDLColumns: the rule's target, or else the normalised name. */
  function DdlColumn(rules: Rules, strategy: Casing, id: string, column: string): string {
    var mapped := Lookup(rules, id + "." + column, ColumnObject);
    if mapped.Some? then mapped.value else Normalized(strategy, column)
  }

  /** parseDBZDML: normalised first, then replaced by the rule's target. */
  method DmlColumn(rules: Rules, strategy: Casing, id: string, column: string) returns (name: string)
    ensures name == DdlColumn(rules, strategy, id, column)
  {
    var chars := new char[|column|](i requires 0 <= i < |column| => column[i]);
    assert chars[..|column|] == column;
    NormalizeName(strategy, chars, |column|);
    name := chars[..|column|];
    var mapped := Lookup(rules, id + "." + column, ColumnObject);
    if mapped.Some? {
      name := mapped.value;
    }
  }

  /** populate_primary_keys: replaced by the rule's target first, then normalised. */
  function KeyColumn(rules: Rules, strategy: Casing, id: string, column: string): string {
    var mapped := Lookup(rules, id + "." + column, ColumnObject);
    Normalized(strategy, if mapped.Some? then mapped.value else column)
  }

  /**
   * A primary-key clause names the column as the column list does, if and only
   * if no rule maps it or the rule's target already has the strategy's casing.
   */
  lemma KeyColumnAgrees(rules: Rules, strategy: Casing, id: string, column: string)
    ensures KeyColumn(rules, strategy, id, column) == DdlColumn(rules, strategy, id, column) <==>
      var mapped := Lookup(rules, id + "." + column, ColumnObject);
      mapped.Some? ==> forall i :: 0 <= i < |mapped.value| ==> CaseOf(strategy, mapped.value[i]) == mapped.value[i]
  {
    var mapped := Lookup(rules, id + "." + column, ColumnObject);
    if mapped.Some? {
      var m := mapped.value;
      if Normalized(strategy, m) == m {
        forall i | 0 <= i < |m| ensures CaseOf(strategy, m[i]) == m[i] {
          assert Normalized(strategy, m)[i] == m[i];
        }
      }
    }
  }

  /** A database called a.b: DDL puts its table t into schema a, DML looks for it in schema a.b. */
  lemma DottedDatabaseDiverges(strategy: Casing)
    ensures DdlTarget(map[], strategy, ObjectId("a.b", None, "t")) != DmlTarget(map[], strategy, "a.b", None, "t")
  {
    PathsAgree(map[], strategy, "a.b", None, "t");
    assert "a.b"[1] == '.';
  }

  /** A rule that maps column c of d.t to Name, under lower casing: the key clause says name. */
  lemma MappedKeyDiverges()
    ensures var rules: Rules := map[("d.t.c", ColumnObject) := "Name"];
      DdlColumn(rules, Lowercase, "d.t", "c") == "Name" && KeyColumn(rules, Lowercase, "d.t", "c") == "name"
  {
    assert "d.t" + "." + "c" == "d.t.c";
    assert Normalized(Lowercase, "Name") == "name";
  }
}

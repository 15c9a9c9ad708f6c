/**
 * The token automaton that turns a row image into column/value pairs
 * (parseDBZDML in src/backend/converter/debezium_event_handler.c). Nested
 * containers are passed over with a pause flag, which is not a depth counter:
 * the first closing token inside a container ends the pause.
 */
module JsonAutomaton {

  import opened Wrappers

  // ------------------------------------------------- documents and their tokens

  datatype Scalar = Null | Text(s: string) | Numeric(s: string) | Boolean(b: bool)

  datatype Json = Leaf(v: Scalar) | Object(members: seq<Member>) | Array(elems: seq<Json>)
  datatype Member = Member(name: string, value: Json)

  datatype Token = BeginObject | EndObject | BeginArray | EndArray | Key(name: string) | Value(v: Scalar) | Elem(v: Scalar)

  /** What the JSONB iterator delivers for a document; scalars differ by where they stand. */
  function Tokens(j: Json, inArray: bool): seq<Token>
    decreases j, 1
  {
    match j
    case Leaf(v) => [if inArray then Elem(v) else Value(v)]
    case Object(ms) => [BeginObject] + MemberTokens(ms) + [EndObject]
    case Array(es) => [BeginArray] + ElemTokens(es) + [EndArray]
  }

  function MemberTokens(ms: seq<Member>): seq<Token>
    decreases ms, 0
  {
    if ms == [] then [] else [Key(ms[0].name)] + Tokens(ms[0].value, false) + MemberTokens(ms[1..])
  }

  function ElemTokens(es: seq<Json>): seq<Token>
    decreases es, 0
  {
    if es == [] then [] else Tokens(es[0], true) + ElemTokens(es[1..])
  }

  predicate IsEnd(t: Token) {
    t.EndObject? || t.EndArray?
  }

  // ---------------------------------------------------------- the automaton

  type Column = (string, string)

  datatype State = State(key: Option<string>, value: Option<string>, pause: bool, out: seq<Column>)

  const START := State(None, None, false, [])

  function ScalarText(v: Scalar): string {
    match v
    case Null => "NULL"
    case Text(s) => s
    case Numeric(s) => s
    case Boolean(b) => if b then "true" else "false"
  }

  /** A leading '[' becomes '{' and a trailing ']' becomes '}', as PostgreSQL arrays want. */
  function Braced(s: string): string {
    var t := if s != "" && s[0] == '[' then s[0 := '{'] else s;
    if t != "" && t[|t| - 1] == ']' then t[|t| - 1 := '}'] else t
  }

  /** `find` is what a path lookup of a top-level name returns, printed. */
  function Close(s: State, find: string -> Option<string>, isArray: bool): State {
    if !s.pause then s else
      var found := if s.key.Some? then find(s.key.value) else None;
      var s' := s.(pause := false);
      if found.None? then s' else s'.(value := Some(if isArray then Braced(found.value) else found.value))
  }

  function Digest(s: State, t: Token, find: string -> Option<string>): State {
    match t
    case BeginObject => if s.key.Some? then s.(pause := true) else s
    case BeginArray => if s.key.Some? then s.(pause := true) else s
    case EndObject => Close(s, find, false)
    case EndArray => Close(s, find, true)
    case Key(name) => if s.pause then s else s.(key := Some(name), value := None)
    case Value(v) => if s.pause then s else s.(value := Some(ScalarText(v)))
    case Elem(v) => if s.pause then s else s.(value := Some(ScalarText(v)))
  }

  /** One turn of the loop: digest the token, then emit a completed pair. */
  function Step(s: State, t: Token, find: string -> Option<string>): State {
    var d := Digest(s, t, find);
    if d.key.Some? && d.value.Some? then State(None, None, d.pause, d.out + [(d.key.value, d.value.value)]) else d
  }

  function Run(s: State, ts: seq<Token>, find: string -> Option<string>): State
    decreases |ts|
  {
    if ts == [] then s else Run(Step(s, ts[0], find), ts[1..], find)
  }

  /** The loop as written: three variables and a result list. */
  method ParseRow(ts: seq<Token>, find: string -> Option<string>) returns (columns: seq<Column>, last: State)
    ensures last == Run(START, ts, find) && columns == last.out
  {
    var key: Option<string>, value: Option<string>, pause := None, None, false;
    columns := [];
    for i := 0 to |ts|
      invariant Run(START, ts, find) == Run(State(key, value, pause, columns), ts[i..], find)
    {
      assert ts[i..][0] == ts[i] && ts[i..][1..] == ts[i + 1..];
      match ts[i] {
        case BeginObject =>
          if key.Some? { pause := true; }
        case BeginArray =>
          if key.Some? { pause := true; }
        case EndObject =>
          if pause {
            pause := false;
            if key.Some? {
              var found := find(key.value);
              if found.Some? { value := found; }
            }
          }
        case EndArray =>
          if pause {
            pause := false;
            if key.Some? {
              var found := find(key.value);
              if found.Some? { value := Some(Braced(found.value)); }
            }
          }
        case Key(name) =>
          if !pause { key, value := Some(name), None; }
        case Value(v) =>
          if !pause { value := Some(ScalarText(v)); }
        case Elem(v) =>
          if !pause { value := Some(ScalarText(v)); }
      }
      if key.Some? && value.Some? {
        columns := columns + [(key.value, value.value)];
        key, value := None, None;
      }
    }
    last := State(key, value, pause, columns);
  }

  lemma {:induction false} RunConcat(s: State, a: seq<Token>, b: seq<Token>, find: string -> Option<string>)
    ensures Run(s, a + b, find) == Run(Run(s, a, find), b, find)
    decreases |a|
  {
    if a == [] {
      assert a + b == b;
    } else {
      assert (a + b)[0] == a[0] && (a + b)[1..] == a[1..] + b;
      RunConcat(Step(s, a[0], find), a[1..], b, find);
    }
  }

  // ------------------------------------------------------ what should come out

  /** A printer puts objects in braces and arrays in brackets. */
  ghost predicate Prints(show: Json -> string) {
    forall j: Json ::
      && (j.Object? ==> Bracketed(show(j), '{', '}'))
      && (j.Array? ==> Bracketed(show(j), '[', ']'))
  }

  predicate Bracketed(s: string, open: char, close: char) {
    |s| >= 2 && s[0] == open && s[|s| - 1] == close
  }

  /** The value a column should get. */
  function Rendering(j: Json, show: Json -> string): string {
    match j
    case Leaf(v) => ScalarText(v)
    case Object(_) => show(j)
    case Array(_) => Braced(show(j))
  }

  /** The text that a column has to get, by the kind of value. */
  ghost predicate TextFor(text: string, j: Json, show: Json -> string) {
    && (j == Leaf(Null) ==> text == "NULL")
    && (j.Leaf? && j.v.Text? ==> text == j.v.s)
    && (j.Leaf? && j.v.Numeric? ==> text == j.v.s)
    && (j == Leaf(Boolean(true)) ==> text == "true")
    && (j == Leaf(Boolean(false)) ==> text == "false")
    && (j.Object? ==> text == show(j))
    && (j.Array? ==> |show(j)| >= 2 && text == "{" + show(j)[1..|show(j)| - 1] + "}")
  }

  /** One pair for each member, in order, with its name and its text. */
  ghost predicate PairsAre(cs: seq<Column>, ms: seq<Member>, show: Json -> string) {
    |cs| == |ms| && forall i :: 0 <= i < |cs| ==> cs[i].0 == ms[i].name && TextFor(cs[i].1, ms[i].value, show)
  }

  /** Brackets at both ends become braces, and nothing else changes. */
  lemma BracedKeeps(s: string)
    ensures Bracketed(s, '{', '}') ==> Braced(s) == s
    ensures Bracketed(s, '[', ']') ==> Braced(s) == "{" + s[1..|s| - 1] + "}" && Braced(s) != s
  {
  }

  lemma RenderingIs(j: Json, show: Json -> string, text: string)
    requires Prints(show)
    ensures text == Rendering(j, show) <==> TextFor(text, j, show)
  {
    assert j.Array? ==> Bracketed(show(j), '[', ']');
    BracedKeeps(show(j));
  }

  lemma ExpectedIs(cs: seq<Column>, ms: seq<Member>, show: Json -> string)
    requires Prints(show)
    ensures cs == Expected(ms, show) <==> PairsAre(cs, ms, show)
  {
    forall i, text | 0 <= i < |ms| ensures text == Rendering(ms[i].value, show) <==> TextFor(text, ms[i].value, show) {
      RenderingIs(ms[i].value, show, text);
    }
    if PairsAre(cs, ms, show) {
      assert forall i :: 0 <= i < |cs| ==> cs[i] == (cs[i].0, cs[i].1);
      assert cs == Expected(ms, show);
    }
  }

  function Expected(ms: seq<Member>, show: Json -> string): (cs: seq<Column>)
    ensures |cs| == |ms| && forall i :: 0 <= i < |cs| ==> cs[i] == (ms[i].name, Rendering(ms[i].value, show))
  {
    seq(|ms|, i requires 0 <= i < |ms| => (ms[i].name, Rendering(ms[i].value, show)))
  }

  /** A path lookup of a member's name finds that member (its name has no dots). */
  ghost predicate Finds(ms: seq<Member>, show: Json -> string, find: string -> Option<string>) {
    forall i :: 0 <= i < |ms| && !ms[i].value.Leaf? ==> find(ms[i].name) == Some(show(ms[i].value))
  }

  // ------------------------------------------- containers, seen as token lists

  function FirstEnd(ts: seq<Token>): (n: nat)
    ensures n <= |ts|
    ensures forall i :: 0 <= i < n ==> !IsEnd(ts[i])
    ensures n < |ts| ==> IsEnd(ts[n])
  {
    if ts == [] || IsEnd(ts[0]) then 0 else 1 + FirstEnd(ts[1..])
  }

  function Body(j: Json): (ts: seq<Token>) {
    Tokens(j, false)
  }

  lemma ContainerShape(j: Json)
    requires !j.Leaf?
    ensures var ts := Body(j);
      |ts| >= 2 && (ts[0].BeginObject? || ts[0].BeginArray?) && 0 < FirstEnd(ts) < |ts|
  {
    var ts := Body(j);
    assert IsEnd(ts[|ts| - 1]);
  }

  /** What follows the first closing token of a container. */
  function Tail(j: Json): seq<Token>
    requires !j.Leaf?
  {
    ContainerShape(j);
    Body(j)[FirstEnd(Body(j)) + 1..]
  }

  function FirstClosing(j: Json): Token
    requires !j.Leaf?
  {
    ContainerShape(j);
    Body(j)[FirstEnd(Body(j))]
  }

  predicate NoKeys(ts: seq<Token>) {
    forall i :: 0 <= i < |ts| ==> !ts[i].Key?
  }

  /**
   * No pair comes out of these tokens, read behind the first closing token of a
   * container with the given key pending: a key that gets a scalar leaks, and so
   * does one whose container ends where a top-level member of its name is found.
   */
  predicate Silent(ts: seq<Token>, key: Option<string>, find: string -> Option<string>)
    decreases |ts|
  {
    if ts == [] then true
    else if ts[0].Key? then Silent(ts[1..], Some(ts[0].name), find)
    else if key.None? || IsEnd(ts[0]) then Silent(ts[1..], key, find)
    else if ts[0].Value? || ts[0].Elem? then false
    else
      var rest, n := ts[1..], FirstEnd(ts[1..]);
      n == |rest| || (find(key.value).None? && Silent(rest[n + 1..], key, find))
  }

  /**
   * The values that the pause flag handles: scalars, and containers that are
   * silent behind their first closing token; in an array that token must close
   * an array.
   */
  predicate Tame(j: Json, find: string -> Option<string>) {
    j.Leaf? ||
    (Silent(Tail(j), None, find) && (j.Array? ==> FirstClosing(j).EndArray?))
  }

  /** After the first closing token every key has a scalar value. */
  predicate FlatTail(ts: seq<Token>) {
    forall i :: 0 <= i < |ts| && ts[i].Key? ==> i + 1 < |ts| && (ts[i + 1].Value? || ts[i + 1].Elem?)
  }

  /** A scalar, or a container that its first closing token ends. */
  predicate Plain(j: Json) {
    j.Leaf? || Tail(j) == []
  }

  predicate PlainMembers(ms: seq<Member>) {
    forall i :: 0 <= i < |ms| ==> Plain(ms[i].value)
  }

  // ------------------------------------------------------- the three phases

  lemma {:induction false} PausedStays(s: State, ts: seq<Token>, find: string -> Option<string>)
    requires s.pause && s.key.Some? && s.value.None? && forall i :: 0 <= i < |ts| ==> !IsEnd(ts[i])
    ensures Run(s, ts, find) == s
    decreases |ts|
  {
    if ts != [] {
      assert Step(s, ts[0], find) == s;
      PausedStays(s, ts[1..], find);
    }
  }

  lemma {:induction false} OutGrows(s: State, ts: seq<Token>, find: string -> Option<string>)
    ensures s.out <= Run(s, ts, find).out
    decreases |ts|
  {
    if ts != [] {
      OutGrows(Step(s, ts[0], find), ts[1..], find);
    }
  }

  /** A key is pending only while its value is not there yet. */
  predicate Settled(s: State) {
    !s.pause && (s.key.Some? ==> s.value.None?)
  }

  /** Tokens that cannot emit a pair: keys, scalars and openings without a pending key, closings without a pause. */
  lemma QuietStep(s: State, t: Token, find: string -> Option<string>)
    requires Settled(s) && (t.Key? || s.key.None? || IsEnd(t))
    ensures var s' := Step(s, t, find);
      Settled(s') && s'.out == s.out && s'.key == if t.Key? then Some(t.name) else s.key
  {
  }

  lemma ScalarLeaks(s: State, ts: seq<Token>, find: string -> Option<string>)
    requires Settled(s) && s.key.Some? && ts != [] && (ts[0].Value? || ts[0].Elem?)
    ensures Run(s, ts, find).out != []
  {
    assert Step(s, ts[0], find).out != [];
    OutGrows(Step(s, ts[0], find), ts[1..], find);
  }

  /** Exactly the silent token lists emit nothing. */
  lemma {:induction false} SilentEmitsNothing(s: State, ts: seq<Token>, find: string -> Option<string>)
    requires Settled(s) && s.out == []
    ensures Run(s, ts, find).out == [] <==> Silent(ts, s.key, find)
    decreases |ts|
  {
    if ts != [] {
      if ts[0].Key? || s.key.None? || IsEnd(ts[0]) {
        QuietStep(s, ts[0], find);
        SilentEmitsNothing(Step(s, ts[0], find), ts[1..], find);
      } else if ts[0].Value? || ts[0].Elem? {
        ScalarLeaks(s, ts, find);
      } else {
        SilentContainer(s, ts, find);
        var rest, n := ts[1..], FirstEnd(ts[1..]);
        if n < |rest| && find(s.key.value).None? {
          SilentEmitsNothing(s, rest[n + 1..], find);
        }
      }
    }
  }

  /** A container under a pending key: nothing before its first closing token, then the lookup decides. */
  lemma SilentContainer(s: State, ts: seq<Token>, find: string -> Option<string>)
    requires Settled(s) && s.out == [] && s.key.Some? && ts != [] && (ts[0].BeginObject? || ts[0].BeginArray?)
    ensures var rest, n := ts[1..], FirstEnd(ts[1..]);
      if n == |rest| then Run(s, ts, find).out == []
      else if find(s.key.value).None? then Run(s, ts, find) == Run(s, rest[n + 1..], find)
      else Run(s, ts, find).out != []
  {
    var rest, n := ts[1..], FirstEnd(ts[1..]);
    var paused := s.(pause := true);
    assert Step(s, ts[0], find) == paused;
    PausedUntilEnd(paused, rest, find);
    if n < |rest| {
      var closed := Step(paused, rest[n], find);
      CloseStep(s, rest[n], find);
      OutGrows(closed, rest[n + 1..], find);
    }
  }

  lemma {:induction false} PausedUntilEnd(s: State, ts: seq<Token>, find: string -> Option<string>)
    requires s.pause && s.key.Some? && s.value.None?
    ensures var n := FirstEnd(ts);
      Run(s, ts, find) == if n == |ts| then s else Run(Step(s, ts[n], find), ts[n + 1..], find)
    decreases |ts|
  {
    if ts != [] && !IsEnd(ts[0]) {
      assert Step(s, ts[0], find) == s;
      PausedUntilEnd(s, ts[1..], find);
      var n := FirstEnd(ts[1..]);
      if n < |ts[1..]| {
        assert ts[1..][n] == ts[n + 1] && ts[1..][n + 1..] == ts[n + 2..];
      }
    }
  }

  lemma CloseStep(s: State, end: Token, find: string -> Option<string>)
    requires Settled(s) && s.key.Some? && s.out == [] && IsEnd(end)
    ensures var closed := Step(s.(pause := true), end, find);
      if find(s.key.value).None? then closed == s else closed.out != []
  {
  }

  /** Without keys nothing can leak; where every key has a scalar, nothing else is silent. */
  lemma {:induction false} FlatSilence(ts: seq<Token>, find: string -> Option<string>)
    ensures NoKeys(ts) ==> Silent(ts, None, find)
    ensures FlatTail(ts) && Silent(ts, None, find) ==> NoKeys(ts)
    decreases |ts|
  {
    if ts != [] && ts[0].Key? {
      if FlatTail(ts) {
        var rest := ts[1..];
        assert rest[0] == ts[1];
        assert !Silent(rest, Some(ts[0].name), find);
      }
    } else if ts != [] {
      FlatSilence(ts[1..], find);
      assert forall i :: 0 < i < |ts| ==> ts[i] == ts[1..][i - 1];
      if FlatTail(ts) {
        FlatRest(ts);
      }
    }
  }

  lemma FlatRest(ts: seq<Token>)
    requires FlatTail(ts) && ts != []
    ensures FlatTail(ts[1..])
  {
    forall i | 0 <= i < |ts[1..]| && ts[1..][i].Key?
      ensures i + 1 < |ts[1..]| && (ts[1..][i + 1].Value? || ts[1..][i + 1].Elem?)
    {
      assert ts[i + 1].Key?;
      assert ts[1..][i + 1] == ts[i + 2];
    }
  }

  // ------------------------------------------------ runs that differ in the past

  /** The second state is the first one with an empty output list. */
  predicate SameButOut(s: State, t: State, before: seq<Column>) {
    s.key == t.key && s.pause == t.pause && s.value == t.value && s.out == before + t.out
  }

  lemma {:induction false} OutIsAdded(s: State, t: State, before: seq<Column>, ts: seq<Token>, find: string -> Option<string>)
    requires SameButOut(s, t, before)
    ensures SameButOut(Run(s, ts, find), Run(t, ts, find), before)
    decreases |ts|
  {
    if ts != [] {
      StepAdds(s, t, before, ts[0], find);
      OutIsAdded(Step(s, ts[0], find), Step(t, ts[0], find), before, ts[1..], find);
    }
  }

  lemma StepAdds(s: State, t: State, before: seq<Column>, token: Token, find: string -> Option<string>)
    requires SameButOut(s, t, before)
    ensures SameButOut(Step(s, token, find), Step(t, token, find), before)
  {
    var d := Digest(t, token, find);
    if d.key.Some? && d.value.Some? {
      OutAssociates(before, t.out, [(d.key.value, d.value.value)]);
    }
  }

  lemma NotPausedAfterEnd(s: State, ts: seq<Token>, find: string -> Option<string>)
    requires ts != [] && IsEnd(ts[|ts| - 1])
    ensures !Run(s, ts, find).pause
  {
    var n := |ts| - 1;
    assert ts == ts[..n] + [ts[n]];
    RunConcat(s, ts[..n], [ts[n]], find);
    var mid := Run(s, ts[..n], find);
    assert Run(mid, [ts[n]], find) == Step(mid, ts[n], find);
  }

  // -------------------------------------------------------- one member, a row

  /** The pairs that leak from a container behind its first closing token. */
  function Leaks(ts: seq<Token>, find: string -> Option<string>): seq<Column> {
    Run(START, ts, find).out
  }

  /** The pairs that one member produces. */
  function Emitted(m: Member, show: Json -> string, find: string -> Option<string>): (cs: seq<Column>)
    ensures |cs| >= 1
  {
    if m.value.Leaf? then [(m.name, ScalarText(m.value.v))] else
      [(m.name, if FirstClosing(m.value).EndArray? then Braced(show(m.value)) else show(m.value))] + Leaks(Tail(m.value), find)
  }

  lemma MemberRun(s: State, m: Member, show: Json -> string, find: string -> Option<string>)
    requires !s.pause && (!m.value.Leaf? ==> find(m.name) == Some(show(m.value)))
    ensures var s' := Run(s, [Key(m.name)] + Body(m.value), find);
      && !s'.pause && s'.out == s.out + Emitted(m, show, find)
      && (Plain(m.value) ==> s'.key.None? && s'.value.None?)
  {
    var body := Body(m.value);
    var keyed := Step(s, Key(m.name), find);
    RunConcat(s, [Key(m.name)], body, find);
    assert Run(s, [Key(m.name)], find) == keyed;
    if m.value.Leaf? {
      assert Run(keyed, body, find) == Step(keyed, body[0], find);
    } else {
      ContainerRun(keyed, m, show, find);
    }
  }

  lemma ContainerRun(s: State, m: Member, show: Json -> string, find: string -> Option<string>)
    requires s.key == Some(m.name) && s.value.None? && !s.pause
    requires !m.value.Leaf? && find(m.name) == Some(show(m.value))
    ensures var s' := Run(s, Body(m.value), find);
      && !s'.pause && s'.out == s.out + Emitted(m, show, find)
      && (Plain(m.value) ==> s'.key.None? && s'.value.None?)
  {
    var body, tail := Body(m.value), Tail(m.value);
    ContainerShape(m.value);
    var n := FirstEnd(body);
    assert body == ([body[0]] + body[1..n] + [body[n]]) + tail;
    RunConcat(s, [body[0]] + body[1..n] + [body[n]], tail, find);
    PauseAndClose(s, body[0], body[1..n], body[n], find);
    var first := [(m.name, if body[n].EndArray? then Braced(show(m.value)) else show(m.value))];
    var closed := State(None, None, false, s.out + first);
    assert s.out + first + [] == s.out + first;
    OutIsAdded(closed, START, s.out + first, tail, find);
    OutAssociates(s.out, first, Leaks(tail, find));
    BodyEnds(m.value);
    NotPausedAfterEnd(s, body, find);
  }

  lemma BodyEnds(j: Json)
    requires !j.Leaf?
    ensures Body(j) != [] && IsEnd(Body(j)[|Body(j)| - 1])
  {
  }

  /** A container up to its first closing token yields one pair. */
  lemma PauseAndClose(s: State, open: Token, middle: seq<Token>, end: Token, find: string -> Option<string>)
    requires s.key.Some? && s.value.None? && !s.pause && find(s.key.value).Some?
    requires (open.BeginObject? || open.BeginArray?) && IsEnd(end) && forall i :: 0 <= i < |middle| ==> !IsEnd(middle[i])
    ensures Run(s, [open] + middle + [end], find) ==
      var text := find(s.key.value).value;
      State(None, None, false, s.out + [(s.key.value, if end.EndArray? then Braced(text) else text)])
  {
    var paused := s.(pause := true);
    RunConcat(s, [open] + middle, [end], find);
    RunConcat(s, [open], middle, find);
    assert Run(s, [open], find) == paused;
    PausedStays(paused, middle, find);
    assert Run(paused, [end], find) == Step(paused, end, find);
  }

  function EmittedAll(ms: seq<Member>, show: Json -> string, find: string -> Option<string>): seq<Column> {
    if ms == [] then [] else Emitted(ms[0], show, find) + EmittedAll(ms[1..], show, find)
  }

  lemma OutAssociates(a: seq<Column>, b: seq<Column>, c: seq<Column>)
    ensures a + b + c == a + (b + c)
  {
  }

  /** What the automaton makes of the members of any row, leaked pairs included. */
  lemma {:induction false} MembersRun(s: State, ms: seq<Member>, show: Json -> string, find: string -> Option<string>)
    requires !s.pause && Finds(ms, show, find)
    ensures var s' := Run(s, MemberTokens(ms), find);
      && !s'.pause && s'.out == s.out + EmittedAll(ms, show, find)
      && (s.key.None? && s.value.None? && PlainMembers(ms) ==> s'.key.None? && s'.value.None?)
    decreases |ms|
  {
    if ms != [] {
      var m, rest := ms[0], ms[1..];
      var head := [Key(m.name)] + Body(m.value);
      MemberRun(s, m, show, find);
      var s1 := Run(s, head, find);
      assert Finds(rest, show, find) && (PlainMembers(ms) ==> PlainMembers(rest)) by {
        assert forall i :: 0 <= i < |rest| ==> rest[i] == ms[i + 1];
      }
      MembersRun(s1, rest, show, find);
      RunConcat(s, head, MemberTokens(rest), find);
      OutAssociates(s.out, Emitted(m, show, find), EmittedAll(rest, show, find));
    }
  }

  /** One pair, the member's own. */
  predicate EmitsItself(m: Member, show: Json -> string, find: string -> Option<string>) {
    Emitted(m, show, find) == [(m.name, Rendering(m.value, show))]
  }

  lemma TameEmits(m: Member, show: Json -> string, find: string -> Option<string>)
    requires Prints(show)
    ensures EmitsItself(m, show, find) <==> Tame(m.value, find)
  {
    if !m.value.Leaf? {
      SilentEmitsNothing(START, Tail(m.value), find);
      BracedKeeps(show(m.value));
      var cs := Emitted(m, show, find);
      assert cs == [cs[0]] + Leaks(Tail(m.value), find);
      if Leaks(Tail(m.value), find) != [] {
        assert |cs| > 1;
      }
    }
  }

  ghost predicate AllEmitThemselves(ms: seq<Member>, show: Json -> string, find: string -> Option<string>) {
    forall i :: 0 <= i < |ms| ==> EmitsItself(ms[i], show, find)
  }

  lemma FirstAndOthers(ms: seq<Member>, show: Json -> string, find: string -> Option<string>)
    requires ms != []
    ensures AllEmitThemselves(ms, show, find) <==> EmitsItself(ms[0], show, find) && AllEmitThemselves(ms[1..], show, find)
  {
    assert forall i :: 0 <= i < |ms[1..]| ==> ms[1..][i] == ms[i + 1];
    assert forall i :: 0 < i < |ms| ==> ms[i] == ms[1..][i - 1];
  }

  lemma ExpectedSplit(ms: seq<Member>, show: Json -> string)
    requires ms != []
    ensures Expected(ms, show) == [(ms[0].name, Rendering(ms[0].value, show))] + Expected(ms[1..], show)
  {
  }

  lemma OneMoreAsExpected(m: Member, show: Json -> string, find: string -> Option<string>, rest: seq<Column>, want: seq<Column>)
    requires |rest| >= |want|
    ensures Emitted(m, show, find) + rest == [(m.name, Rendering(m.value, show))] + want
      <==> EmitsItself(m, show, find) && rest == want
  {
    HeadAndRest(Emitted(m, show, find), rest, (m.name, Rendering(m.value, show)), want);
  }

  lemma {:induction false} AllAsExpected(ms: seq<Member>, show: Json -> string, find: string -> Option<string>)
    ensures |EmittedAll(ms, show, find)| >= |ms|
    ensures EmittedAll(ms, show, find) == Expected(ms, show) <==> AllEmitThemselves(ms, show, find)
    decreases |ms|
  {
    if ms == [] {
      assert Expected(ms, show) == [];
    } else {
      FirstAndOthers(ms, show, find);
      AllAsExpected(ms[1..], show, find);
      ExpectedSplit(ms, show);
      OneMoreAsExpected(ms[0], show, find, EmittedAll(ms[1..], show, find), Expected(ms[1..], show));
    }
  }

  lemma HeadAndRest(e: seq<Column>, rest: seq<Column>, head: Column, tail: seq<Column>)
    requires |e| >= 1 && |rest| >= |tail|
    ensures e + rest == [head] + tail <==> e == [head] && rest == tail
  {
    if e + rest == [head] + tail {
      assert |e| == 1 && (e + rest)[0] == head;
      assert (e + rest)[1..] == rest && ([head] + tail)[1..] == tail;
    }
  }

  /** The whole row: the pairs of its members, and no pause at the end. */
  lemma RowRun(ms: seq<Member>, show: Json -> string, find: string -> Option<string>)
    requires Finds(ms, show, find)
    ensures var s := Run(START, Tokens(Object(ms), false), find);
      && !s.pause && s.out == EmittedAll(ms, show, find)
      && (PlainMembers(ms) ==> s.key.None? && s.value.None?)
  {
    var ts := MemberTokens(ms);
    assert Tokens(Object(ms), false) == [BeginObject] + (ts + [EndObject]);
    RunConcat(START, [BeginObject], ts + [EndObject], find);
    assert Run(START, [BeginObject], find) == START;
    RunConcat(START, ts, [EndObject], find);
    MembersRun(START, ms, show, find);
    var s := Run(START, ts, find);
    LastEndKeeps(s, find, ms);
    assert s.out == EmittedAll(ms, show, find);
  }

  /**
   * For every row, however deeply nested, the automaton emits exactly the
   * members in order, once each with their rendering, if and only if every
   * member is tame; it always ends without pause.
   */
  lemma RowIsFaithful(ms: seq<Member>, show: Json -> string, find: string -> Option<string>)
    requires Prints(show) && Finds(ms, show, find)
    ensures var s := Run(START, Tokens(Object(ms), false), find);
      && !s.pause && (PlainMembers(ms) ==> s.key.None? && s.value.None?)
      && (PairsAre(s.out, ms, show) <==> forall i :: 0 <= i < |ms| ==> Tame(ms[i].value, find))
  {
    RowRun(ms, show, find);
    var s := Run(START, Tokens(Object(ms), false), find);
    AllAsExpected(ms, show, find);
    ExpectedIs(s.out, ms, show);
    forall i | 0 <= i < |ms| ensures EmitsItself(ms[i], show, find) <==> Tame(ms[i].value, find) {
      TameEmits(ms[i], show, find);
    }
  }

  /** A scalar behind a pending key emits the pair at once, wherever the key stood. */
  lemma ScalarEmits(s: State, v: Scalar, inArray: bool, show: Json -> string, find: string -> Option<string>)
    requires !s.pause && s.key.Some?
    ensures var s' := Step(s, if inArray then Elem(v) else Value(v), find);
      exists text :: TextFor(text, Leaf(v), show) && s' == State(None, None, false, s.out + [(s.key.value, text)])
  {
    var s' := Step(s, if inArray then Elem(v) else Value(v), find);
    var text := s'.out[|s.out|].1;
    assert TextFor(text, Leaf(v), show);
  }

  lemma {:induction false} EmittedSplit(ms: seq<Member>, i: nat, show: Json -> string, find: string -> Option<string>)
    requires i < |ms|
    ensures EmittedAll(ms, show, find) ==
      EmittedAll(ms[..i], show, find) + (Emitted(ms[i], show, find) + EmittedAll(ms[i + 1..], show, find))
    decreases i
  {
    if i > 0 {
      EmittedSplit(ms[1..], i - 1, show, find);
      assert ms[1..][..i - 1] == ms[..i][1..] && ms[1..][i..] == ms[i + 1..];
      OutAssociates(Emitted(ms[0], show, find), EmittedAll(ms[..i][1..], show, find),
        Emitted(ms[i], show, find) + EmittedAll(ms[i + 1..], show, find));
    }
  }

  /** Where the pair of member i stands in the output: behind the pairs, leaked ones included, of those before it. */
  function PlaceOf(ms: seq<Member>, i: nat, show: Json -> string, find: string -> Option<string>): nat
    requires i <= |ms|
  {
    |EmittedAll(ms[..i], show, find)|
  }

  /** The pair that carries a member's name: its text, unless an array's first closing token closes an object. */
  lemma FirstPair(m: Member, show: Json -> string, find: string -> Option<string>)
    requires Prints(show)
    ensures var pair := Emitted(m, show, find)[0];
      pair.0 == m.name &&
      if m.value.Array? && FirstClosing(m.value).EndObject? then pair.1 == show(m.value) else TextFor(pair.1, m.value, show)
  {
    RenderingIs(m.value, show, Rendering(m.value, show));
    BracedKeeps(show(m.value));
    if !m.value.Leaf? {
      ContainerShape(m.value);
    }
  }

  /**
   * In every row each member comes out with its own name, whatever leaks from
   * the others; its text is right unless it is an array whose first closing
   * token closes an object: that one is printed with its brackets.
   */
  lemma EveryMemberComesOut(ms: seq<Member>, i: nat, show: Json -> string, find: string -> Option<string>)
    requires Prints(show) && Finds(ms, show, find) && i < |ms|
    ensures var out, k := Run(START, Tokens(Object(ms), false), find).out, PlaceOf(ms, i, show, find);
      k < |out| && out[k].0 == ms[i].name &&
      if ms[i].value.Array? && FirstClosing(ms[i].value).EndObject? then out[k].1 == show(ms[i].value)
      else TextFor(out[k].1, ms[i].value, show)
  {
    RowRun(ms, show, find);
    EmittedSplit(ms, i, show, find);
    FirstPair(ms[i], show, find);
  }

  lemma {:induction false} RunSettles(s: State, ts: seq<Token>, find: string -> Option<string>)
    requires s.key.Some? ==> s.value.None?
    ensures Run(s, ts, find).key.Some? ==> Run(s, ts, find).value.None?
    decreases |ts|
  {
    if ts != [] {
      RunSettles(Step(s, ts[0], find), ts[1..], find);
    }
  }

  lemma LastEndKeeps(s: State, find: string -> Option<string>, ms: seq<Member>)
    requires !s.pause && s == Run(START, MemberTokens(ms), find)
    ensures Run(s, [EndObject], find) == s
  {
    RunSettles(START, MemberTokens(ms), find);
    assert Run(s, [EndObject], find) == Step(s, EndObject, find);
  }

  /** Scalars, and objects and arrays that hold scalars only. */
  predicate Shallow(j: Json) {
    && (j.Object? ==> forall i :: 0 <= i < |j.members| ==> j.members[i].value.Leaf?)
    && (j.Array? ==> forall i :: 0 <= i < |j.elems| ==> j.elems[i].Leaf?)
  }

  /**
   * A row of scalars and containers of scalars yields exactly its members, in
   * order and once each, with no pause and no pending key or value at the end.
   */
  lemma ShallowRows(ms: seq<Member>, show: Json -> string, find: string -> Option<string>)
    requires Prints(show) && Finds(ms, show, find)
    requires forall i :: 0 <= i < |ms| ==> Shallow(ms[i].value)
    ensures var s := Run(START, Tokens(Object(ms), false), find);
      s == State(None, None, false, s.out) && PairsAre(s.out, ms, show)
  {
    forall i | 0 <= i < |ms| ensures Tame(ms[i].value, find) && Plain(ms[i].value) {
      ScalarContainersAreTame(ms[i].value, find);
    }
    RowIsFaithful(ms, show, find);
  }

  /** Containers of scalars, such as geometries and variable-scale numbers, are tame. */
  lemma ScalarContainersAreTame(j: Json, find: string -> Option<string>)
    requires Shallow(j)
    ensures Tame(j, find) && Plain(j)
  {
    if j.Object? {
      ScalarMembersOpen(j.members);
      OnlyLastEnds(BeginObject, MemberTokens(j.members), EndObject);
    } else if j.Array? {
      ScalarElemsOpen(j.elems);
      OnlyLastEnds(BeginArray, ElemTokens(j.elems), EndArray);
    }
  }

  lemma OnlyLastEnds(open: Token, middle: seq<Token>, end: Token)
    requires !IsEnd(open) && IsEnd(end) && forall i :: 0 <= i < |middle| ==> !IsEnd(middle[i])
    ensures FirstEnd([open] + middle + [end]) == |middle| + 1
  {
    var ts := [open] + middle + [end];
    forall i | 0 <= i < |middle| + 1 ensures !IsEnd(ts[i]) {
      if i > 0 {
        assert ts[i] == middle[i - 1];
      }
    }
    FirstEndIs(ts, |middle| + 1);
  }

  lemma {:induction false} ScalarMembersOpen(ms: seq<Member>)
    requires forall i :: 0 <= i < |ms| ==> ms[i].value.Leaf?
    ensures forall i :: 0 <= i < |MemberTokens(ms)| ==> !IsEnd(MemberTokens(ms)[i])
  {
    if ms != [] {
      ScalarMembersOpen(ms[1..]);
    }
  }

  lemma {:induction false} ScalarElemsOpen(es: seq<Json>)
    requires forall i :: 0 <= i < |es| ==> es[i].Leaf?
    ensures forall i :: 0 <= i < |ElemTokens(es)| ==> !IsEnd(ElemTokens(es)[i])
  {
    if es != [] {
      ScalarElemsOpen(es[1..]);
    }
  }

  lemma FirstEndIs(ts: seq<Token>, n: nat)
    requires n < |ts| && IsEnd(ts[n]) && forall i :: 0 <= i < n ==> !IsEnd(ts[i])
    ensures FirstEnd(ts) == n
  {
  }

  /** The tokens of {"b": [null], "c": value}. */
  lemma NestedBody(value: Json)
    ensures Body(Object([Member("b", Array([Leaf(Null)])), Member("c", value)])) ==
      [BeginObject, Key("b"), BeginArray, Elem(Null), EndArray] + ([Key("c")] + Tokens(value, false) + [EndObject])
  {
    var inner := Array([Leaf(Null)]);
    InnerTokens();
    TwoMemberTokens(Member("b", inner), Member("c", value));
    NestedConcat([Key("c")] + Tokens(value, false));
  }

  lemma NestedConcat(rest: seq<Token>)
    ensures [BeginObject] + ([Key("b")] + [BeginArray, Elem(Null), EndArray] + rest) + [EndObject] ==
      [BeginObject, Key("b"), BeginArray, Elem(Null), EndArray] + (rest + [EndObject])
  {
  }

  lemma InnerTokens()
    ensures Tokens(Array([Leaf(Null)]), false) == [BeginArray, Elem(Null), EndArray]
  {
    assert [Leaf(Null)][1..] == [];
    assert ElemTokens([Leaf(Null)]) == [Elem(Null)];
  }

  lemma TwoMemberTokens(a: Member, b: Member)
    ensures MemberTokens([a, b]) == [Key(a.name)] + Tokens(a.value, false) + ([Key(b.name)] + Tokens(b.value, false))
  {
    assert [a, b][1..] == [b] && [b][1..] == [];
    assert MemberTokens([b]) == [Key(b.name)] + Tokens(b.value, false);
  }

  /** What stands behind its first closing token. */
  lemma NestedTail(value: Json)
    ensures var j := Object([Member("b", Array([Leaf(Null)])), Member("c", value)]);
      Tail(j) == [Key("c")] + Tokens(value, false) + [EndObject]
  {
    NestedBody(value);
    var head := [BeginObject, Key("b"), BeginArray, Elem(Null), EndArray];
    var ts := head + ([Key("c")] + Tokens(value, false) + [EndObject]);
    assert forall i :: 0 <= i < 5 ==> ts[i] == head[i];
    FirstEndIs(ts, 4);
    assert ts[5..] == [Key("c")] + Tokens(value, false) + [EndObject];
  }

  /** The row {"a": {"b": [null], "c": null}}: the inner key c escapes, so that the output is not the member a alone. */
  lemma NestedKeyEscapes(show: Json -> string, find: string -> Option<string>)
    requires Prints(show)
    requires var j := Object([Member("b", Array([Leaf(Null)])), Member("c", Leaf(Null))]); find("a") == Some(show(j))
    ensures var ms := [Member("a", Object([Member("b", Array([Leaf(Null)])), Member("c", Leaf(Null))]))];
      !PairsAre(Run(START, Tokens(Object(ms), false), find).out, ms, show)
  {
    var j := Object([Member("b", Array([Leaf(Null)])), Member("c", Leaf(Null))]);
    var ms := [Member("a", j)];
    NestedTail(Leaf(Null));
    assert Tail(j) == [Key("c"), Value(Null), EndObject];
    KeyWithScalar(find);
    assert !Tame(ms[0].value, find);
    RowIsFaithful(ms, show, find);
  }

  lemma KeyWithScalar(find: string -> Option<string>)
    ensures !Silent([Key("c"), Value(Null), EndObject], None, find)
  {
    var ts := [Key("c"), Value(Null), EndObject];
    assert ts[1..][0] == Value(Null);
    assert !Silent(ts[1..], Some("c"), find);
  }

  lemma KeyWithContainer(find: string -> Option<string>)
    ensures Silent([Key("c"), BeginObject, EndObject, EndObject], None, find) <==> find("c").None?
  {
    var ts := [Key("c"), BeginObject, EndObject, EndObject];
    var inside, rest := ts[1..], ts[1..][1..];
    assert inside[0] == BeginObject && rest[0] == EndObject && FirstEnd(rest) == 0;
    assert rest[1..] == [EndObject] && [EndObject][1..] == [];
    assert Silent([EndObject], Some("c"), find);
    assert Silent(inside, Some("c"), find) <==> find("c").None?;
  }

  /** The value {"b": [null], "c": {}} is passed over as a whole, unless the row has a member c of its own. */
  lemma NestedContainerIsSilent(find: string -> Option<string>)
    ensures Tame(Object([Member("b", Array([Leaf(Null)])), Member("c", Object([]))]), find) <==> find("c").None?
  {
    var empty := Object([]);
    NestedTail(empty);
    assert Tokens(empty, false) == [BeginObject, EndObject];
    assert [Key("c")] + Tokens(empty, false) + [EndObject] == [Key("c"), BeginObject, EndObject, EndObject];
    KeyWithContainer(find);
  }
}

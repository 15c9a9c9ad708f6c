/**
 * The lookahead filter between the Oracle parser and its core lexer
 * (src/backend/olr/oracle_parser16/liboracle_parser.c). A growable pushback
 * buffer sits in front of the lexer; the filter peeks, prefetches and eats
 * through it. The core lexer is the sequence of tokens it has not delivered yet.
 */
module TokenQueue {

  import opened Wrappers
  import opened UnicodeEscapes

  /** Token numbers; 0 and the characters are fixed, the others only have to differ. */
  type Kind = int

  const END_OF_INPUT := 0
  const SEMICOLON := ';' as int
  const FORMAT := 258
  const JSON := 259
  const NOT := 260
  const BETWEEN := 261
  const IN_P := 262
  const LIKE := 263
  const ILIKE := 264
  const SIMILAR := 265
  const NULLS_P := 266
  const FIRST_P := 267
  const LAST_P := 268
  const WITH := 269
  const TIME := 270
  const ORDINALITY := 271
  const LOCAL := 272
  const WITHOUT := 273
  const LONG_P := 274
  const RAW_P := 275
  const UIDENT := 276
  const USCONST := 277
  const UESCAPE := 278
  const SCONST := 279
  const IDENT := 280
  const CURSOR := 281
  const FOR := 282
  const FORMAT_LA := 283
  const NOT_LA := 284
  const NULLS_LA := 285
  const WITH_LA := 286
  const WITHOUT_LA := 287
  const LONG_RAW := 288

  datatype Aux = Aux(text: string, lloc: int)
  datatype Token = Token(kind: Kind, aux: Aux)

  /** Result of one call: a token (with the escape character used, for U& tokens) or a syntax error. */
  datatype Result = Yield(token: Token, escape: Option<char>) | SyntaxError

  // -------------------------------------------------- the filter on a stream

  predicate IsSpace(c: char) {
    c == ' ' || 9 <= c as int <= 13
  }

  predicate UescapeChar(c: char) {
    !(IsHex(c) || c == '+' || c == '\'' || c == '"' || IsSpace(c))
  }

  predicate IsUnicode(k: Kind) {
    k == UIDENT || k == USCONST
  }

  predicate NeedsLookahead(k: Kind) {
    k == FORMAT || k == NOT || k == NULLS_P || k == WITH || IsUnicode(k) || k == WITHOUT || k == LONG_P
  }

  /** The kind that `cur` is replaced by when `next` and `third` follow it. */
  function Replaced(cur: Kind, next: Kind, third: Kind): Kind {
    if cur == FORMAT && next == JSON then FORMAT_LA
    else if cur == NOT && (next == BETWEEN || next == IN_P || next == LIKE || next == ILIKE || next == SIMILAR) then NOT_LA
    else if cur == NULLS_P && (next == FIRST_P || next == LAST_P) then NULLS_LA
    else if cur == WITH && (next == TIME || next == ORDINALITY || (next == LOCAL && third == TIME)) then WITH_LA
    else if cur == WITHOUT && next == TIME then WITHOUT_LA
    else if cur == LONG_P && next == RAW_P then LONG_RAW
    else if cur == UIDENT then IDENT
    else if cur == USCONST then SCONST
    else cur
  }

  function Consumed(cur: Kind, next: Kind): nat {
    if cur == LONG_P && next == RAW_P then 2
    else if IsUnicode(cur) && next == UESCAPE then 3
    else 1
  }

  /** What the filter makes of a token followed by two others. */
  function Filtered(cur: Token, next: Token, third: Token): Result {
    if IsUnicode(cur.kind) && next.kind == UESCAPE then
      if third.kind != SCONST || |third.aux.text| != 1 || !UescapeChar(third.aux.text[0]) then SyntaxError
      else Yield(Token(Replaced(cur.kind, next.kind, third.kind), cur.aux), Some(third.aux.text[0]))
    else
      Yield(Token(Replaced(cur.kind, next.kind, third.kind), cur.aux),
            if IsUnicode(cur.kind) then Some('\\') else None)
  }

  /** Token i of a stream; the lexer keeps answering end-of-input after its last token. */
  function At(s: seq<Token>, i: nat): Token {
    if i < |s| then s[i] else Token(END_OF_INPUT, Aux("", 0))
  }

  function StepResult(s: seq<Token>): Result {
    Filtered(At(s, 0), At(s, 1), At(s, 2))
  }

  function StepLength(s: seq<Token>): nat {
    Consumed(At(s, 0).kind, At(s, 1).kind)
  }

  // ------------------------------------------- what a result has to be

  /**
   * The kind that a token comes out with, given the kind behind it; `time` when
   * the token taken for the third one is TIME.
   */
  predicate KindFor(kind: Kind, head: Kind, next: Kind, time: bool) {
    && (kind == FORMAT_LA <==> head == FORMAT_LA || (head == FORMAT && next == JSON))
    && (kind == NOT_LA <==> head == NOT_LA || (head == NOT && next in {BETWEEN, IN_P, LIKE, ILIKE, SIMILAR}))
    && (kind == NULLS_LA <==> head == NULLS_LA || (head == NULLS_P && next in {FIRST_P, LAST_P}))
    && (kind == WITH_LA <==> head == WITH_LA || (head == WITH && (next in {TIME, ORDINALITY} || (next == LOCAL && time))))
    && (kind == WITHOUT_LA <==> head == WITHOUT_LA || (head == WITHOUT && next == TIME))
    && (kind == LONG_RAW <==> head == LONG_RAW || (head == LONG_P && next == RAW_P))
    && (kind == IDENT <==> head in {IDENT, UIDENT})
    && (kind == SCONST <==> head in {SCONST, USCONST})
    && (kind == head || kind in {FORMAT_LA, NOT_LA, NULLS_LA, WITH_LA, WITHOUT_LA, LONG_RAW, IDENT, SCONST})
  }

  /** A string of one character that is no hexadecimal digit, plus sign, quote or white space. */
  predicate GivesEscape(t: Token) {
    && t.kind == SCONST && |t.aux.text| == 1
    && t.aux.text[0] !in "0123456789abcdef" && t.aux.text[0] !in "0123456789ABCDEF" && t.aux.text[0] !in "+'\""
    && t.aux.text[0] as int !in {9, 10, 11, 12, 13, 32}
  }

  /** The escape that a U& token is read with. */
  predicate EscapeFor(escape: Option<char>, head: Kind, next: Kind, third: Token) {
    && (escape == None <==> head !in {UIDENT, USCONST})
    && (head in {UIDENT, USCONST} && next != UESCAPE ==> escape == Some('\\'))
    && (head in {UIDENT, USCONST} && next == UESCAPE ==> GivesEscape(third) && escape == Some(third.aux.text[0]))
  }

  /** What a call has to answer when it sees `head`, then a token of kind `next`, and takes `third` for the third one. */
  predicate Means(head: Token, next: Kind, third: Token, r: Result) {
    && (r.SyntaxError? <==> head.kind in {UIDENT, USCONST} && next == UESCAPE && !GivesEscape(third))
    && (r.Yield? ==>
      && r.token.aux == head.aux
      && KindFor(r.token.kind, head.kind, next, third.kind == TIME)
      && EscapeFor(r.escape, head.kind, next, third))
  }

  /** How many tokens of the stream a result stands for. */
  predicate LengthFor(n: nat, head: Kind, next: Kind) {
    && (n == 2 <==> head == LONG_P && next == RAW_P)
    && (n == 3 <==> head in {UIDENT, USCONST} && next == UESCAPE)
    && n in {1, 2, 3}
  }

  lemma EscapeChars(t: Token)
    requires t.kind == SCONST && |t.aux.text| == 1
    ensures GivesEscape(t) <==> UescapeChar(t.aux.text[0])
  {
    HexDigits(t.aux.text[0]);
  }

  lemma KindIs(head: Kind, next: Kind, third: Kind)
    ensures KindFor(Replaced(head, next, third), head, next, third == TIME)
  {
  }

  lemma FilteredMeans(cur: Token, next: Token, third: Token)
    ensures Means(cur, next.kind, third, Filtered(cur, next, third))
  {
    KindIs(cur.kind, next.kind, third.kind);
    if third.kind == SCONST && |third.aux.text| == 1 {
      EscapeChars(third);
    }
  }

  /** The filter answers what it has to, and consumes the tokens that its answer stands for. */
  lemma StepMeans(s: seq<Token>)
    ensures Means(At(s, 0), At(s, 1).kind, At(s, 2), StepResult(s))
    ensures LengthFor(StepLength(s), At(s, 0).kind, At(s, 1).kind)
  {
    FilteredMeans(At(s, 0), At(s, 1), At(s, 2));
  }

  /** The results of a run over a stream, one after another. */
  ghost predicate Reads(s: seq<Token>, out: seq<Result>)
    decreases |out|
  {
    out == [] || (
      && Means(At(s, 0), At(s, 1).kind, At(s, 2), out[0])
      && (|out| > 1 ==> out[0].Yield? && out[0].token.kind != END_OF_INPUT)
      && exists n: nat :: LengthFor(n, At(s, 0).kind, At(s, 1).kind) && Reads(Drop(s, n), out[1..]))
  }

  /** A syntax error or the end of input came last. */
  predicate Ended(out: seq<Result>) {
    out != [] && var last := out[|out| - 1]; last.SyntaxError? || last.token.kind == END_OF_INPUT
  }

  /** A stream without its first n tokens. */
  function Drop(s: seq<Token>, n: nat): seq<Token> {
    if n <= |s| then s[n..] else []
  }

  lemma DropAt(s: seq<Token>, n: nat, i: nat)
    ensures At(Drop(s, n), i) == At(s, i + n)
  {
  }

  /** The same stream, with or without repeated end-of-input tokens at its end. */
  ghost predicate Same(s: seq<Token>, t: seq<Token>) {
    forall i: nat :: At(s, i) == At(t, i)
  }

  predicate EndsRun(s: seq<Token>) {
    StepResult(s).SyntaxError? || At(s, 0).kind == END_OF_INPUT
  }

  /** Up to n calls on a token stream; a syntax error or the end of input ends the run. */
  function FilterRun(s: seq<Token>, n: nat): seq<Result>
    decreases n
  {
    if n == 0 then []
    else if EndsRun(s) then [StepResult(s)]
    else [StepResult(s)] + FilterRun(Drop(s, StepLength(s)), n - 1)
  }

  /** The filter's run is a reading of its stream. */
  lemma {:induction false} FilterRunReads(s: seq<Token>, n: nat)
    ensures Reads(s, FilterRun(s, n))
    ensures |FilterRun(s, n)| == n || Ended(FilterRun(s, n))
    decreases n
  {
    if n > 0 {
      StepMeans(s);
      var rest := Drop(s, StepLength(s));
      if EndsRun(s) {
        assert Reads(rest, [StepResult(s)][1..]);
      } else {
        FilterRunReads(rest, n - 1);
        assert FilterRun(s, n)[1..] == FilterRun(rest, n - 1);
      }
    }
  }

  lemma SameRest(s: seq<Token>, t: seq<Token>, n: nat)
    requires Same(s, t)
    ensures Same(Drop(s, n), Drop(t, n))
  {
    forall i: nat ensures At(Drop(s, n), i) == At(Drop(t, n), i) {
      DropAt(s, n, i);
      DropAt(t, n, i);
    }
  }

  lemma {:induction false} SameRun(s: seq<Token>, t: seq<Token>, n: nat)
    requires Same(s, t)
    ensures FilterRun(s, n) == FilterRun(t, n)
    decreases n
  {
    if n > 0 {
      assert At(s, 0) == At(t, 0) && At(s, 1) == At(t, 1) && At(s, 2) == At(t, 2);
      if !EndsRun(s) {
        SameRest(s, t, StepLength(s));
        SameRun(Drop(s, StepLength(s)), Drop(t, StepLength(t)), n - 1);
      }
    }
  }

  // ------------------------------------------------------------- the buffer

  class Pushback {
    var unread: seq<Token>       // what the core lexer has still to deliver
    var slots: array<Token>      // pushback_token and pushback_auxdata
    var loc: nat                 // loc_pushback
    var num: nat                 // num_pushbacks

    ghost predicate Valid()
      reads this
    {
      0 < slots.Length && loc <= num <= slots.Length
    }

    function Queue(): (q: seq<Token>)
      requires Valid()
      reads this, slots
    {
      slots[loc..num]
    }

    constructor (core: seq<Token>, capacity: nat)
      requires capacity > 0
      ensures Valid() && fresh(slots) && unread == core && Queue() == []
    {
      unread, loc, num := core, 0, 0;
      slots := new Token[capacity](i => Token(END_OF_INPUT, Aux("", 0)));
    }

    /** push_back_token: append behind the last pushed-back token, doubling the arrays when full. */
    method PushBack(t: Token)
      requires Valid()
      modifies this`slots, this`num, slots
      ensures Valid() && Queue() == old(Queue()) + [t]
      ensures slots == old(slots) || fresh(slots)
    {
      if num >= slots.Length {
        Grow(t);
      }
      slots[num] := t;
      num := num + 1;
    }

    /** repalloc to twice the size; what the new slots hold does not matter. */
    method Grow(filler: Token)
      requires Valid()
      modifies this`slots
      ensures Valid() && fresh(slots) && slots.Length == 2 * old(slots.Length) && Queue() == old(Queue())
    {
      var bigger := new Token[slots.Length * 2](i => filler);
      forall i | 0 <= i < num {
        bigger[i] := slots[i];
      }
      assert forall i :: loc <= i < num ==> bigger[i] == slots[i];
      slots := bigger;
    }

    /** forward_token: put a token in front of the queue, into the slot before loc when there is one. */
    method Forward(t: Token)
      requires Valid() && (loc < num ==> loc > 0)
      modifies this`slots, this`loc, this`num, slots
      ensures Valid() && Queue() == [t] + old(Queue())
      ensures slots == old(slots) || fresh(slots)
    {
      if loc >= num {
        PushBack(t);
      } else {
        slots[loc - 1] := t;
        loc := loc - 1;
      }
    }

    /** ora_internal_yylex: straight from the core lexer. */
    method CoreNext() returns (t: Token)
      requires Valid()
      modifies this`unread
      ensures t == At(old(unread), 0) && unread == if old(unread) == [] then [] else old(unread)[1..]
    {
      t := At(unread, 0);
      unread := if unread == [] then [] else unread[1..];
    }

    /** internal_yylex: the queue first, then the core lexer; an emptied queue is rewound. */
    method Next() returns (t: Token)
      requires Valid()
      modifies this`unread, this`loc, this`num
      ensures Valid() && (loc < num ==> loc > 0)
      ensures t == At(old(Queue() + unread), 0)
      ensures (Queue(), unread) == AfterTake(old(Queue()), old(unread))
    {
      if loc < num {
        t := slots[loc];
        loc := loc + 1;
        if loc >= num {
          loc, num := 0, 0;
        }
      } else {
        t := CoreNext();
      }
    }

    /** internal_yylex followed by forward_token. */
    method Peek() returns (t: Token)
      requires Valid()
      modifies this`unread, this`slots, this`loc, this`num, slots
      ensures Valid() && t == At(old(Queue() + unread), 0)
      ensures (Queue(), unread) == AfterPeek(old(Queue()), old(unread))
      ensures slots == old(slots) || fresh(slots)
    {
      ghost var q := Queue();
      t := Next();
      Forward(t);
      assert if q == [] then Queue() == [t] else [t] + q[1..] == q;
    }

    /** ora_internal_yylex followed by push_back_token. */
    method Prefetch() returns (t: Token)
      requires Valid()
      modifies this`unread, this`slots, this`num, slots
      ensures Valid() && t == At(old(unread), 0)
      ensures (Queue(), unread) == AfterPrefetch(old(Queue()), old(unread))
      ensures slots == old(slots) || fresh(slots)
    {
      t := CoreNext();
      PushBack(t);
    }

    /** ++loc_pushback. */
    method Eat()
      requires Valid() && loc < num
      modifies this`loc
      ensures Valid() && Queue() == old(Queue())[1..]
    {
      loc := loc + 1;
    }

    /** The lookahead part: cur has been taken and wants to know what follows. */
    method Resolve(cur: Token) returns (r: Result)
      requires Valid()
      modifies this`unread, this`slots, this`loc, this`num, slots
      ensures Valid() && (r, Queue(), unread) == ResolveStep(cur, old(Queue()), old(unread))
      ensures slots == old(slots) || fresh(slots)
    {
      var next := Peek();
      if cur.kind == WITH && next.kind == LOCAL {
        var third := Prefetch();
        r := Filtered(cur, next, third);
      } else if cur.kind == LONG_P && next.kind == RAW_P {
        Eat();
        r := Filtered(cur, next, next);
      } else if IsUnicode(cur.kind) && next.kind == UESCAPE {
        var third := CoreNext();
        r := Filtered(cur, next, third);
        if r.Yield? {
          Eat();
        }
      } else {
        r := Filtered(cur, next, next);
      }
    }

    /**
     * The scan behind DECLARE that looks for a cursor declaration: it prefetches
     * up to a semicolon, the end of input or the token after CURSOR.
     */
    method ScanDeclare() returns (isCursor: bool)
      requires Valid()
      modifies this`unread, this`slots, this`num, slots
      ensures Valid() && (Queue(), unread) == AfterScan(old(Queue()), old(unread))
      ensures isCursor <==> DefinesCursor(old(unread))
      ensures slots == old(slots) || fresh(slots)
      ensures loc == old(loc)
    {
      ghost var q, u, k := Queue(), unread, 1;
      isCursor := false;
      assert q + Padded(u, 0) == q && Drop(u, 0) == u;
      var token := ScanOne(q, u, 0);
      var stop := false;
      while !stop && token.kind != END_OF_INPUT && token.kind != SEMICOLON
        invariant Valid() && (slots == old(slots) || fresh(slots)) && loc == old(loc)
        invariant k > 0 && Queue() == q + Padded(u, k) && unread == Drop(u, k)
        invariant if stop then ScanStops(u, k, isCursor) else !isCursor && token == At(u, k - 1) && ScanGoesOn(u, k - 1)
        decreases !stop, |unread|, token.kind != END_OF_INPUT
      {
        token, stop, isCursor := ScanTurn(token, q, u, k);
        k := k + 1;
      }
      if !stop {
        ScanEnds(u, k);
      }
    }

    /** One turn of the scan: the token after CURSOR decides. */
    method ScanTurn(token: Token, ghost q: seq<Token>, ghost u: seq<Token>, ghost k: nat)
      returns (token': Token, stop: bool, isCursor: bool)
      requires Valid() && k > 0 && Queue() == q + Padded(u, k) && unread == Drop(u, k)
      requires token == At(u, k - 1) && ScanGoesOn(u, k - 1) && token.kind != END_OF_INPUT && token.kind != SEMICOLON
      modifies this`unread, this`slots, this`num, slots
      ensures Valid() && Queue() == q + Padded(u, k + 1) && unread == Drop(u, k + 1)
      ensures slots == old(slots) || fresh(slots)
      ensures loc == old(loc)
      ensures if stop then ScanStops(u, k + 1, isCursor) else !isCursor && token' == At(u, k) && ScanGoesOn(u, k)
      ensures |unread| < old(|unread|) || (|unread| == old(|unread|) && token'.kind == END_OF_INPUT)
    {
      stop := token.kind == CURSOR;
      ScanDecides(q, u, k);
      token' := ScanOne(q, u, k);
      isCursor := stop && (token'.kind == WITH || token'.kind == FOR || token'.kind == WITHOUT);
    }

    method ScanOne(ghost q: seq<Token>, ghost u: seq<Token>, ghost k: nat) returns (token: Token)
      requires Valid() && Queue() == q + Padded(u, k) && unread == Drop(u, k)
      modifies this`unread, this`slots, this`num, slots
      ensures Valid() && Queue() == q + Padded(u, k + 1) && unread == Drop(u, k + 1) && token == At(u, k)
      ensures slots == old(slots) || fresh(slots)
      ensures loc == old(loc)
      ensures |unread| < old(|unread|) || (|unread| == old(|unread|) && token.kind == END_OF_INPUT)
    {
      ScanStep(q, u, k);
      DropAt(u, k, 0);
      token := Prefetch();
    }

    /**
     * ora_base_yylex outside PL/SQL bodies; `declare` when the token begins what
     * may be a DECLARE block, so that the scan runs before the lookahead. The
     * third token, where one is needed, is read from the core lexer.
     */
    method BaseLex(declare: bool) returns (r: Result)
      requires Valid()
      modifies this`unread, this`slots, this`loc, this`num, slots
      ensures Valid() && (r, Queue(), unread) == LexStep(old(Queue()), old(unread), declare)
      ensures var s := old(Queue() + unread); Means(At(s, 0), At(s, 1).kind, ThirdTaken(old(Queue()), old(unread), declare), r)
      ensures slots == old(slots) || fresh(slots)
    {
      CallMeans(Queue(), unread, declare);
      var cur := Next();
      if declare {
        var isCursor := ScanDeclare();
      }
      if NeedsLookahead(cur.kind) {
        r := Resolve(cur);
      } else {
        r := Yield(cur, None);
      }
    }
  }

  // -------------------------------------- the same steps on queue and rest

  function AfterTake(q: seq<Token>, u: seq<Token>): (seq<Token>, seq<Token>) {
    if q != [] then (q[1..], u) else ([], Drop(u, 1))
  }

  function AfterPeek(q: seq<Token>, u: seq<Token>): (r: (seq<Token>, seq<Token>))
    ensures r.0 != []
  {
    if q != [] then (q, u) else ([At(u, 0)], Drop(u, 1))
  }

  function AfterPrefetch(q: seq<Token>, u: seq<Token>): (seq<Token>, seq<Token>) {
    (q + [At(u, 0)], Drop(u, 1))
  }

  /** How many tokens the scan behind DECLARE prefetches. */
  function ScanLength(u: seq<Token>): (k: nat)
    ensures k > 0
    decreases |u|
  {
    var kind := At(u, 0).kind;
    if kind == END_OF_INPUT || kind == SEMICOLON then 1
    else if kind == CURSOR then 2
    else 1 + ScanLength(u[1..])
  }

  /** WITH, FOR or WITHOUT comes right behind the first CURSOR of the statement. */
  function DefinesCursor(u: seq<Token>): bool
    decreases |u|
  {
    var kind := At(u, 0).kind;
    if kind == END_OF_INPUT || kind == SEMICOLON then false
    else if kind == CURSOR then At(u, 1).kind == WITH || At(u, 1).kind == FOR || At(u, 1).kind == WITHOUT
    else DefinesCursor(u[1..])
  }

  /** The scan ends with token i: a semicolon, the end of input or the token behind CURSOR. */
  predicate StopsAt(u: seq<Token>, i: nat) {
    At(u, i).kind in {END_OF_INPUT, SEMICOLON} || (i > 0 && At(u, i - 1).kind == CURSOR)
  }

  /**
   * The scan prefetches up to the first token that stops it, and finds a cursor
   * definition if and only if this is WITH, FOR or WITHOUT behind CURSOR.
   */
  lemma {:induction false} ScanIs(u: seq<Token>)
    ensures StopsAt(u, ScanLength(u) - 1) && forall i :: 0 <= i < ScanLength(u) - 1 ==> !StopsAt(u, i)
    ensures var k := ScanLength(u);
      DefinesCursor(u) <==> k > 1 && At(u, k - 2).kind == CURSOR && At(u, k - 1).kind in {WITH, FOR, WITHOUT}
    decreases |u|
  {
    var kind := At(u, 0).kind;
    if kind != END_OF_INPUT && kind != SEMICOLON && kind != CURSOR {
      ScanIs(u[1..]);
      assert forall i: nat :: At(u[1..], i) == At(u, i + 1);
      assert forall i :: 0 < i < ScanLength(u) ==> (StopsAt(u, i) <==> StopsAt(u[1..], i - 1));
    }
  }

  /** The first k tokens of a stream, end-of-input tokens included. */
  function Padded(u: seq<Token>, k: nat): (s: seq<Token>)
    ensures |s| == k && forall i :: 0 <= i < k ==> s[i] == At(u, i)
  {
    seq(k, i requires 0 <= i < k => At(u, i))
  }

  function AfterScan(q: seq<Token>, u: seq<Token>): (seq<Token>, seq<Token>) {
    (q + Padded(u, ScanLength(u)), Drop(u, ScanLength(u)))
  }

  /** The scan of u is, behind its first k tokens, the scan of what follows them. */
  ghost predicate ScanGoesOn(u: seq<Token>, k: nat) {
    ScanLength(u) == k + ScanLength(Drop(u, k)) && DefinesCursor(u) == DefinesCursor(Drop(u, k))
  }

  /** The scan of u stops behind k tokens. */
  ghost predicate ScanStops(u: seq<Token>, k: nat, isCursor: bool) {
    ScanLength(u) == k && DefinesCursor(u) == isCursor
  }

  lemma ScanEnds(u: seq<Token>, k: nat)
    requires k > 0 && ScanGoesOn(u, k - 1) && (At(u, k - 1).kind == END_OF_INPUT || At(u, k - 1).kind == SEMICOLON)
    ensures ScanStops(u, k, false)
  {
    DropAt(u, k - 1, 0);
  }

  lemma ScanDecides(q: seq<Token>, u: seq<Token>, k: nat)
    requires k > 0 && ScanGoesOn(u, k - 1) && At(u, k - 1).kind != END_OF_INPUT && At(u, k - 1).kind != SEMICOLON
    ensures At(u, k - 1).kind != CURSOR ==> ScanGoesOn(u, k)
    ensures At(u, k - 1).kind == CURSOR ==>
      ScanStops(u, k + 1, At(u, k).kind == WITH || At(u, k).kind == FOR || At(u, k).kind == WITHOUT)
  {
    DropAt(u, k - 1, 0);
    DropAt(u, k - 1, 1);
    ScanStep(q, u, k - 1);
  }

  /** One more token of the scan. */
  lemma ScanStep(q: seq<Token>, u: seq<Token>, k: nat)
    ensures q + Padded(u, k) + [At(Drop(u, k), 0)] == q + Padded(u, k + 1)
    ensures Drop(Drop(u, k), 1) == Drop(u, k + 1)
    ensures var kind := At(u, k).kind;
      kind != END_OF_INPUT && kind != SEMICOLON && kind != CURSOR ==>
        ScanLength(Drop(u, k)) == 1 + ScanLength(Drop(u, k + 1)) && DefinesCursor(Drop(u, k)) == DefinesCursor(Drop(u, k + 1))
  {
    assert Padded(u, k + 1) == Padded(u, k) + [At(u, k)];
    assert q + Padded(u, k) + [At(u, k)] == q + (Padded(u, k) + [At(u, k)]);
    if k < |u| {
      assert Drop(u, k)[1..] == Drop(u, k + 1);
    }
  }

  /** The lookahead part; only WITH and the U& tokens look at the third token. */
  function ResolveStep(cur: Token, q: seq<Token>, u: seq<Token>): (Result, seq<Token>, seq<Token>) {
    var next := At(q + u, 0);
    var (q2, u2) := AfterPeek(q, u);
    if cur.kind == WITH && next.kind == LOCAL then
      (Filtered(cur, next, At(u2, 0)), AfterPrefetch(q2, u2).0, AfterPrefetch(q2, u2).1)
    else if cur.kind == LONG_P && next.kind == RAW_P then (Filtered(cur, next, next), q2[1..], u2)
    else if IsUnicode(cur.kind) && next.kind == UESCAPE then
      var r := Filtered(cur, next, At(u2, 0));
      (r, if r.Yield? then q2[1..] else q2, Drop(u2, 1))
    else (Filtered(cur, next, next), q2, u2)
  }

  /** Queue and unread tokens when the current token has been taken and DECLARE scanned. */
  function Ready(q: seq<Token>, u: seq<Token>, declare: bool): (seq<Token>, seq<Token>) {
    var (q1, u1) := AfterTake(q, u);
    if declare then AfterScan(q1, u1) else (q1, u1)
  }

  /** One call: the result, the queue and what the core lexer has still to deliver. */
  function LexStep(q: seq<Token>, u: seq<Token>, declare: bool): (Result, seq<Token>, seq<Token>) {
    var cur := At(q + u, 0);
    var (q1, u1) := Ready(q, u, declare);
    if NeedsLookahead(cur.kind) then ResolveStep(cur, q1, u1) else (Yield(cur, None), q1, u1)
  }

  // ------------------------------------------ what they do to the stream

  lemma AtConcat(q: seq<Token>, u: seq<Token>, i: nat)
    ensures At(q + u, i) == if i < |q| then q[i] else At(u, i - |q|)
  {
  }

  /** Peeking, prefetching and scanning leave "pushed back, then unread" as it is; taking removes its head. */
  lemma LookaheadKeepsStream(q: seq<Token>, u: seq<Token>)
    ensures Same(AfterPeek(q, u).0 + AfterPeek(q, u).1, q + u)
    ensures Same(AfterPrefetch(q, u).0 + AfterPrefetch(q, u).1, q + u)
    ensures Same(AfterTake(q, u).0 + AfterTake(q, u).1, Drop(q + u, 1))
  {
    TakeHead(q, u);
    EmptyQueue(q, u);
    if q != [] {
      assert q[1..] + u == (q + u)[1..];
    }
  }

  lemma EmptyQueue(q: seq<Token>, u: seq<Token>)
    ensures q == [] ==> Same([At(u, 0)] + Drop(u, 1), q + u) && [] + Drop(u, 1) == Drop(q + u, 1)
  {
    if q == [] {
      TakeHead([], u);
      assert [] + [At(u, 0)] == [At(u, 0)] && [] + u == u && q + u == u;
    }
  }

  lemma TakeHead(q: seq<Token>, u: seq<Token>)
    ensures Same((q + [At(u, 0)]) + Drop(u, 1), q + u)
  {
    forall i: nat ensures At((q + [At(u, 0)]) + Drop(u, 1), i) == At(q + u, i) {
      AtConcat(q + [At(u, 0)], Drop(u, 1), i);
      AtConcat(q, u, i);
      if i > |q| {
        DropAt(u, 1, i - |q| - 1);
      }
    }
  }

  lemma ScanKeepsStream(q: seq<Token>, u: seq<Token>)
    ensures Same(AfterScan(q, u).0 + AfterScan(q, u).1, q + u)
  {
    var k := ScanLength(u);
    var s := (q + Padded(u, k)) + Drop(u, k);
    forall i: nat ensures At(s, i) == At(q + u, i) {
      AtConcat(q + Padded(u, k), Drop(u, k), i);
      AtConcat(q, u, i);
      if i >= |q| + k {
        DropAt(u, k, i - |q| - k);
      }
    }
  }

  lemma ReadyDrops(q: seq<Token>, u: seq<Token>, declare: bool)
    ensures var (q1, u1) := Ready(q, u, declare); Same(q1 + u1, Drop(q + u, 1))
  {
    LookaheadKeepsStream(q, u);
    var (q1, u1) := AfterTake(q, u);
    ScanKeepsStream(q1, u1);
  }

  /** The tokens pushed back behind UESCAPE are all like the first unread one, which is taken in their stead. */
  predicate Repeats(q: seq<Token>, u: seq<Token>) {
    forall i :: 1 <= i < |q| ==> q[i] == At(u, 0)
  }

  /**
   * The lookahead part takes nothing, except RAW after LONG and the two tokens
   * of a UESCAPE clause; it takes these two if and only if the tokens pushed
   * back behind UESCAPE, if any, repeat the first unread one.
   */
  lemma ResolveConsumes(cur: Token, q: seq<Token>, u: seq<Token>)
    requires ResolveStep(cur, q, u).0.Yield?
    ensures Same(ResolveStep(cur, q, u).1 + ResolveStep(cur, q, u).2, Drop(q + u, Consumed(cur.kind, At(q + u, 0).kind) - 1))
      <==> (IsUnicode(cur.kind) && At(q + u, 0).kind == UESCAPE ==> Repeats(q, u))
  {
    if IsUnicode(cur.kind) && At(q + u, 0).kind == UESCAPE && |q| > 1 {
      TakesFromBehind(q, u);
    } else {
      ResolveShort(cur, q, u);
    }
  }

  lemma ResolveShort(cur: Token, q: seq<Token>, u: seq<Token>)
    requires ResolveStep(cur, q, u).0.Yield?
    requires IsUnicode(cur.kind) && At(q + u, 0).kind == UESCAPE ==> |q| <= 1
    ensures Same(ResolveStep(cur, q, u).1 + ResolveStep(cur, q, u).2, Drop(q + u, Consumed(cur.kind, At(q + u, 0).kind) - 1))
  {
    var (q2, u2) := AfterPeek(q, u);
    LookaheadKeepsStream(q, u);
    LookaheadKeepsStream(q2, u2);
    var (r, q', u') := ResolveStep(cur, q, u);
    var n := Consumed(cur.kind, At(q + u, 0).kind) - 1;
    forall i: nat ensures At(q' + u', i) == At(Drop(q + u, n), i) {
      DropAt(q + u, n, i);
      assert At(q2 + u2, i + n) == At(q + u, i + n);
      AtConcat(q', u', i);
      AtConcat(q2, u2, i + n);
      if n == 2 {
        DropAt(u2, 1, i);
      }
    }
  }

  /** Dropping the head of the queue and the first unread token is dropping two tokens, exactly for repeats. */
  lemma TakesFromBehind(q: seq<Token>, u: seq<Token>)
    requires |q| > 1
    ensures Same(q[1..] + Drop(u, 1), Drop(q + u, 2)) <==> Repeats(q, u)
  {
    var s, t := q[1..] + Drop(u, 1), Drop(q + u, 2);
    if Same(s, t) {
      RepeatsFrom(q, u, 1);
    }
    if Repeats(q, u) {
      forall i: nat ensures At(s, i) == At(t, i) {
        BehindAt(q, u, i);
      }
    }
  }

  lemma BehindAt(q: seq<Token>, u: seq<Token>, i: nat)
    requires |q| > 1
    ensures At(q[1..] + Drop(u, 1), i) == if i + 1 < |q| then q[i + 1] else At(u, i + 2 - |q|)
    ensures At(Drop(q + u, 2), i) == if i + 2 < |q| then q[i + 2] else At(u, i + 2 - |q|)
  {
    AtConcat(q[1..], Drop(u, 1), i);
    if i + 1 >= |q| {
      DropAt(u, 1, i + 1 - |q|);
    }
    DropAt(q + u, 2, i);
    AtConcat(q, u, i + 2);
  }

  lemma {:induction false} RepeatsFrom(q: seq<Token>, u: seq<Token>, k: nat)
    requires 1 <= k <= |q| && |q| > 1 && Same(q[1..] + Drop(u, 1), Drop(q + u, 2))
    ensures forall i :: k <= i < |q| ==> q[i] == At(u, 0)
    decreases |q| - k
  {
    if k < |q| {
      RepeatsFrom(q, u, k + 1);
      BehindAt(q, u, k - 1);
      assert At(q[1..] + Drop(u, 1), k - 1) == At(Drop(q + u, 2), k - 1);
    }
  }

  /** A U& token with its UESCAPE clause comes next. */
  predicate AtUescape(s: seq<Token>) {
    IsUnicode(At(s, 0).kind) && At(s, 1).kind == UESCAPE
  }

  /**
   * A call leaves the logical stream without exactly the tokens it consumed,
   * however many tokens are pushed back; with a UESCAPE clause, if and only if
   * the tokens pushed back behind it, if any, repeat the first unread one.
   */
  lemma CallConsumes(q: seq<Token>, u: seq<Token>, declare: bool)
    requires LexStep(q, u, declare).0.Yield?
    ensures Same(LexStep(q, u, declare).1 + LexStep(q, u, declare).2, Drop(q + u, StepLength(q + u)))
      <==> (AtUescape(q + u) ==> Repeats(Ready(q, u, declare).0, Ready(q, u, declare).1))
  {
    var s := q + u;
    var (q1, u1) := Ready(q, u, declare);
    ReadyDrops(q, u, declare);
    NextIs(s, q1 + u1);
    if NeedsLookahead(At(s, 0).kind) {
      ResolveConsumes(At(s, 0), q1, u1);
      DropTwice(s, q1 + u1, StepLength(s), LexStep(q, u, declare).1 + LexStep(q, u, declare).2);
    }
  }

  lemma NextIs(s: seq<Token>, rest: seq<Token>)
    requires Same(rest, Drop(s, 1))
    ensures At(rest, 0) == At(s, 1) && At(rest, 1) == At(s, 2)
  {
    DropAt(s, 1, 0);
    DropAt(s, 1, 1);
    assert At(rest, 0) == At(Drop(s, 1), 0) && At(rest, 1) == At(Drop(s, 1), 1);
  }

  lemma DropTwice(s: seq<Token>, mid: seq<Token>, n: nat, rest: seq<Token>)
    requires n > 0 && Same(mid, Drop(s, 1))
    ensures Same(rest, Drop(mid, n - 1)) <==> Same(rest, Drop(s, n))
  {
    forall i: nat ensures At(Drop(mid, n - 1), i) == At(Drop(s, n), i) {
      DropAt(s, n, i);
      DropAt(mid, n - 1, i);
      DropAt(s, 1, i + (n - 1));
      assert At(mid, i + (n - 1)) == At(Drop(s, 1), i + (n - 1));
    }
  }

  /** The escape character that a token gives to a UESCAPE clause. */
  function EscapeOf(t: Token): Option<char> {
    if t.kind == SCONST && |t.aux.text| == 1 && UescapeChar(t.aux.text[0]) then Some(t.aux.text[0]) else None
  }

  /** Two tokens that the filter cannot tell apart as the third one. */
  predicate Alike(cur: Kind, next: Kind, t: Token, u: Token) {
    && (cur == WITH && next == LOCAL ==> (t.kind == TIME <==> u.kind == TIME))
    && (IsUnicode(cur) && next == UESCAPE ==> EscapeOf(t) == EscapeOf(u))
  }

  lemma FilteredAlike(cur: Token, next: Token, t: Token, u: Token)
    ensures Filtered(cur, next, t) == Filtered(cur, next, u) <==> Alike(cur.kind, next.kind, t, u)
  {
  }

  /**
   * A call is the filter on the logical stream if and only if at most one token
   * is pushed back behind the current one, or the first unread token, which the
   * code takes for the third of the stream, is like it.
   */
  lemma CallFilters(q: seq<Token>, u: seq<Token>, declare: bool)
    ensures var s, (q1, u1) := q + u, Ready(q, u, declare);
      LexStep(q, u, declare).0 == StepResult(s) <==>
        |q1| <= 1 || Alike(At(s, 0).kind, At(s, 1).kind, At(u1, 0), At(s, 2))
  {
    var s := q + u;
    var (q1, u1) := Ready(q, u, declare);
    var cur, next := At(s, 0), At(s, 1);
    ReadyDrops(q, u, declare);
    NextIs(s, q1 + u1);
    var (q2, u2) := AfterPeek(q1, u1);
    FilteredAlike(cur, next, At(u2, 0), At(s, 2));
    FilteredAlike(cur, next, next, At(s, 2));
    if |q1| <= 1 {
      assert At(u2, 0) == At(s, 2) by {
        AtConcat(q1, u1, 1);
      }
    }
  }

  /**
   * With more than two tokens pushed back, WITH LOCAL is classified by the first
   * unread token, so rightly if and only if that and the third token of the
   * stream agree on being TIME.
   */
  lemma CallMisfilters(q: seq<Token>, u: seq<Token>)
    requires |q| > 2 && q[0].kind == WITH && q[1].kind == LOCAL
    ensures LexStep(q, u, false).0 == StepResult(q + u) <==> (At(u, 0).kind == TIME <==> q[2].kind == TIME)
  {
    CallFilters(q, u, false);
  }

  /** At most two tokens pushed back, and no scan: the queue stays that short. */
  lemma QueueStaysShort(q: seq<Token>, u: seq<Token>)
    requires |q| <= 2
    ensures |Ready(q, u, false).0| <= 1 && |LexStep(q, u, false).1| <= 2
  {
  }

  /**
   * Behind DECLARE c, the scan of WITH LOCAL TIME CURSOR FOR buffers all of it;
   * WITH is then classified by the end of input instead of TIME.
   */
  lemma DeclareMisleads()
    ensures var t := (kind: Kind) => Token(kind, Aux("", 0));
      var s := [t(IDENT), t(WITH), t(LOCAL), t(TIME), t(CURSOR), t(FOR), t(END_OF_INPUT)];
      var (r, q, u) := LexStep([], s, true);
      r == StepResult(s) && q == s[1..6] && u == s[6..] &&
      LexStep(q, u, false).0 == Yield(t(WITH), None) && StepResult(q + u) == Yield(t(WITH_LA), None)
  {
    var t := (kind: Kind) => Token(kind, Aux("", 0));
    var u := [t(WITH), t(LOCAL), t(TIME), t(CURSOR), t(FOR), t(END_OF_INPUT)];
    var s := [t(IDENT)] + u;
    assert [] + s == s && Drop(s, 1) == u;
    assert ScanLength(u[1..][1..][1..]) == 2;
    assert ScanLength(u[1..][1..]) == 3;
    assert ScanLength(u[1..]) == 4;
    assert ScanLength(u) == 5;
    assert Padded(u, 5) == u[..5];
    assert [] + u[..5] == u[..5];
  }

  /**
   * Behind DECLARE c, the scan of U&'...' UESCAPE '!' ; buffers all of it. The
   * clause then takes the string behind the semicolon instead of its own, which
   * stays in front of the semicolon.
   */
  lemma DeclareMovesEscape()
    ensures var t := (kind: Kind) => Token(kind, Aux("!", 0));
      var s := [t(IDENT), t(USCONST), t(UESCAPE), t(SCONST), t(SEMICOLON), t(SCONST), t(END_OF_INPUT)];
      var (r, q, u) := LexStep([], s, true);
      q == s[1..5] && u == s[5..] &&
      LexStep(q, u, false) == (Yield(t(SCONST), Some('!')), [t(SCONST), t(SEMICOLON)], [t(END_OF_INPUT)])
  {
    var t := (kind: Kind) => Token(kind, Aux("!", 0));
    var u := [t(USCONST), t(UESCAPE), t(SCONST), t(SEMICOLON), t(SCONST), t(END_OF_INPUT)];
    var s := [t(IDENT)] + u;
    assert [] + s == s && Drop(s, 1) == u;
    assert ScanLength(u[1..][1..][1..]) == 1;
    assert ScanLength(u[1..][1..]) == 2;
    assert ScanLength(u[1..]) == 3;
    assert ScanLength(u) == 4;
    assert Padded(u, 4) == u[..4] && [] + u[..4] == u[..4];
    var q, rest := u[..4], u[4..];
    assert Drop(u, 4) == rest;
    assert At(q + rest, 0) == t(USCONST) && At(q[1..] + rest, 0) == t(UESCAPE);
    assert q[1..][1..] == [t(SCONST), t(SEMICOLON)] && Drop(rest, 1) == [t(END_OF_INPUT)];
  }

  // ------------------------------------------------------------------ whole runs

  /** The token as lookahead leaves it; behind WITH LOCAL either way. */
  predicate IsVersion(t: Token, head: Token, next: Kind) {
    t.aux == head.aux && (KindFor(t.kind, head.kind, next, true) || KindFor(t.kind, head.kind, next, false))
  }

  /** The token that a call takes for the third one: the first unread token, unless the stream's is the same. */
  function ThirdTaken(q: seq<Token>, u: seq<Token>, declare: bool): Token {
    var (q1, u1) := Ready(q, u, declare);
    if |q1| <= 1 then At(q + u, 2) else At(u1, 0)
  }

  /** Every call answers what it has to, for the token it takes for the third one. */
  lemma CallMeans(q: seq<Token>, u: seq<Token>, declare: bool)
    ensures Means(At(q + u, 0), At(q + u, 1).kind, ThirdTaken(q, u, declare), LexStep(q, u, declare).0)
  {
    ReadyDrops(q, u, declare);
    var (q1, u1) := Ready(q, u, declare);
    NextIs(q + u, q1 + u1);
    AtConcat(q1, u1, 1);
    ResolvedMeans(At(q + u, 0), q1, u1, ThirdTaken(q, u, declare));
  }

  lemma ResolvedMeans(cur: Token, q: seq<Token>, u: seq<Token>, third: Token)
    requires third == if q == [] then At(u, 1) else At(u, 0)
    ensures Means(cur, At(q + u, 0).kind, third, ResolveStep(cur, q, u).0)
    ensures !NeedsLookahead(cur.kind) ==> Means(cur, At(q + u, 0).kind, third, Yield(cur, None))
  {
    var next := At(q + u, 0);
    DropAt(u, 1, 0);
    AtConcat(q, u, 0);
    FilteredMeans(cur, next, third);
    FilteredMeans(cur, next, next);
  }

  lemma ResultIsVersion(q: seq<Token>, u: seq<Token>, declare: bool)
    ensures LexStep(q, u, declare).0.Yield? ==> IsVersion(LexStep(q, u, declare).0.token, At(q + u, 0), At(q + u, 1).kind)
    ensures LexStep(q, u, declare).0.SyntaxError? ==> AtUescape(q + u)
  {
    CallMeans(q, u, declare);
  }

  /**
   * The results account for the stream up to what is left of it: each one is
   * the next token, or its lookahead variant, and nothing else is taken but the
   * tokens that this one stands for.
   */
  ghost predicate Accounts(s: seq<Token>, out: seq<Result>, rest: seq<Token>)
    decreases |out|
  {
    if out == [] then Same(s, rest)
    else
      && out[0].Yield? && IsVersion(out[0].token, At(s, 0), At(s, 1).kind)
      && Accounts(Drop(s, StepLength(s)), out[1..], rest)
  }

  lemma {:induction false} AccountsMore(s: seq<Token>, out: seq<Result>, mid: seq<Token>, r: Result, rest: seq<Token>)
    requires Accounts(s, out, mid) && r.Yield? && IsVersion(r.token, At(mid, 0), At(mid, 1).kind) && Same(rest, Drop(mid, StepLength(mid)))
    ensures Accounts(s, out + [r], rest)
    decreases |out|
  {
    if out == [] {
      AccountsOne(s, mid, r, rest);
      assert out + [r] == [r];
    } else {
      AccountsMore(Drop(s, StepLength(s)), out[1..], mid, r, rest);
      assert (out + [r])[1..] == out[1..] + [r];
    }
  }

  lemma AccountsOne(s: seq<Token>, mid: seq<Token>, r: Result, rest: seq<Token>)
    requires Same(s, mid) && r.Yield? && IsVersion(r.token, At(mid, 0), At(mid, 1).kind) && Same(rest, Drop(mid, StepLength(mid)))
    ensures Accounts(s, [r], rest)
  {
    SameDrop(s, mid, rest);
    assert At(s, 0) == At(mid, 0) && At(s, 1) == At(mid, 1);
    assert [r][1..] == [];
    assert Accounts(Drop(s, StepLength(s)), [], rest);
  }

  lemma SameDrop(s: seq<Token>, mid: seq<Token>, rest: seq<Token>)
    requires Same(s, mid) && Same(rest, Drop(mid, StepLength(mid)))
    ensures StepLength(s) == StepLength(mid) && Same(Drop(s, StepLength(s)), rest)
  {
    assert At(s, 0) == At(mid, 0) && At(s, 1) == At(mid, 1);
    var n := StepLength(s);
    forall i: nat ensures At(Drop(s, n), i) == At(rest, i) {
      DropAt(s, n, i);
      DropAt(mid, n, i);
      assert At(s, i + n) == At(mid, i + n);
      assert At(rest, i) == At(Drop(mid, n), i);
    }
  }

  /** No UESCAPE clause anywhere in the stream. */
  ghost predicate UescapeFree(s: seq<Token>) {
    forall i: nat :: !(IsUnicode(At(s, i).kind) && At(s, i + 1).kind == UESCAPE)
  }

  /** WITH is never followed by LOCAL. */
  ghost predicate WithLocalFree(s: seq<Token>) {
    forall i: nat :: !(At(s, i).kind == WITH && At(s, i + 1).kind == LOCAL)
  }

  lemma FreeSuffix(s: seq<Token>, n: nat, t: seq<Token>)
    requires Same(t, Drop(s, n))
    ensures UescapeFree(s) ==> UescapeFree(t)
    ensures WithLocalFree(s) ==> WithLocalFree(t)
  {
    if UescapeFree(s) {
      forall i: nat ensures !(IsUnicode(At(t, i).kind) && At(t, i + 1).kind == UESCAPE) {
        SuffixPair(s, n, t, i);
      }
    }
    if WithLocalFree(s) {
      forall i: nat ensures !(At(t, i).kind == WITH && At(t, i + 1).kind == LOCAL) {
        SuffixPair(s, n, t, i);
      }
    }
  }

  lemma SuffixPair(s: seq<Token>, n: nat, t: seq<Token>, i: nat)
    requires Same(t, Drop(s, n))
    ensures At(t, i) == At(s, i + n) && At(t, i + 1) == At(s, (i + n) + 1)
  {
    DropAt(s, n, i);
    DropAt(s, n, i + 1);
    assert At(t, i) == At(Drop(s, n), i) && At(t, i + 1) == At(Drop(s, n), i + 1);
  }

  /** The filter's result comes out of a call on such a stream, however many tokens are pushed back. */
  ghost predicate Plain(s: seq<Token>) {
    UescapeFree(s) && WithLocalFree(s)
  }

  lemma PlainCall(q: seq<Token>, u: seq<Token>, declare: bool)
    requires Plain(q + u)
    ensures LexStep(q, u, declare).0 == StepResult(q + u)
  {
    CallFilters(q, u, declare);
    assert !AtUescape(q + u) by {
      assert !(IsUnicode(At(q + u, 0).kind) && At(q + u, 0 + 1).kind == UESCAPE);
    }
    assert !(At(q + u, 0).kind == WITH && At(q + u, 0 + 1).kind == LOCAL);
  }

  /** The results so far account for the stream, unless it has a UESCAPE clause. */
  ghost predicate Accounted(s: seq<Token>, out: seq<Result>, q: seq<Token>, u: seq<Token>) {
    UescapeFree(s) ==> UescapeFree(q + u) && Accounts(s, out, q + u)
  }

  /** The results so far and the filter's results on the rest are the filter's results on the stream. */
  ghost predicate Filtering(s: seq<Token>, n: nat, out: seq<Result>, done: bool, q: seq<Token>, u: seq<Token>) {
    |out| <= n && FilterRun(s, n) == out + if done then [] else FilterRun(q + u, n - |out|)
  }

  /** Where a run over stream s stands after returning `out`; `short` if it began so and scans nothing. */
  ghost predicate OnTrack(s: seq<Token>, n: nat, out: seq<Result>, done: bool, q: seq<Token>, u: seq<Token>, short: bool) {
    && (short ==> |q| <= 2 && Filtering(s, n, out, done, q, u))
    && (Plain(s) ==> Plain(q + u) && Filtering(s, n, out, done, q, u))
  }

  lemma CallStaysOnTrack(s: seq<Token>, n: nat, out: seq<Result>, q: seq<Token>, u: seq<Token>, short: bool, declare: bool)
    requires OnTrack(s, n, out, false, q, u, short) && |out| < n && (short ==> !declare)
    ensures var (r, q', u') := LexStep(q, u, declare);
      OnTrack(s, n, out + [r], r.SyntaxError? || r.token.kind == END_OF_INPUT, q', u', short)
  {
    if short {
      ShortCallFilters(s, n, out, q, u);
    }
    if Plain(s) {
      PlainCallFilters(s, n, out, q, u, declare);
    }
  }

  lemma ShortCallFilters(s: seq<Token>, n: nat, out: seq<Result>, q: seq<Token>, u: seq<Token>)
    requires Filtering(s, n, out, false, q, u) && |out| < n && |q| <= 2
    ensures var (r, q', u') := LexStep(q, u, false);
      |q'| <= 2 && Filtering(s, n, out + [r], r.SyntaxError? || r.token.kind == END_OF_INPUT, q', u')
  {
    QueueStaysShort(q, u);
    CallFilters(q, u, false);
    FilteringStep(s, n, out, q, u, false);
  }

  lemma PlainCallFilters(s: seq<Token>, n: nat, out: seq<Result>, q: seq<Token>, u: seq<Token>, declare: bool)
    requires Plain(q + u) && Filtering(s, n, out, false, q, u) && |out| < n
    ensures var (r, q', u') := LexStep(q, u, declare);
      Plain(q' + u') && Filtering(s, n, out + [r], r.SyntaxError? || r.token.kind == END_OF_INPUT, q', u')
  {
    UescapeFreeHere(q + u);
    PlainCall(q, u, declare);
    PlainStays(q, u, declare);
    FilteringStep(s, n, out, q, u, declare);
  }

  lemma FilteringStep(s: seq<Token>, n: nat, out: seq<Result>, q: seq<Token>, u: seq<Token>, declare: bool)
    requires Filtering(s, n, out, false, q, u) && |out| < n && LexStep(q, u, declare).0 == StepResult(q + u)
    requires AtUescape(q + u) ==> |Ready(q, u, declare).0| <= 1
    ensures var (r, q', u') := LexStep(q, u, declare);
      Filtering(s, n, out + [r], r.SyntaxError? || r.token.kind == END_OF_INPUT, q', u')
  {
    if !EndsRun(q + u) {
      CallConsumes(q, u, declare);
    }
    FilteringGoesOn(s, n, out, q, u, LexStep(q, u, declare).0, LexStep(q, u, declare).1, LexStep(q, u, declare).2);
  }

  lemma FilteringGoesOn(s: seq<Token>, n: nat, out: seq<Result>, q: seq<Token>, u: seq<Token>,
                        r: Result, q': seq<Token>, u': seq<Token>)
    requires Filtering(s, n, out, false, q, u) && |out| < n && r == StepResult(q + u)
    requires !EndsRun(q + u) ==> Same(q' + u', Drop(q + u, StepLength(q + u)))
    ensures Filtering(s, n, out + [r], r.SyntaxError? || r.token.kind == END_OF_INPUT, q', u')
  {
    EndIsVisible(q + u);
    FilteringNext(FilterRun(s, n), n - |out|, out, q + u, q' + u');
  }

  /** The run on a stream, seen as what is out already, the next result and the run on the rest. */
  lemma FilteringNext(all: seq<Result>, n: nat, out: seq<Result>, s: seq<Token>, rest: seq<Token>)
    requires n > 0 && all == out + FilterRun(s, n)
    requires !EndsRun(s) ==> Same(rest, Drop(s, StepLength(s)))
    ensures all == (out + [StepResult(s)]) + if EndsRun(s) then [] else FilterRun(rest, n - 1)
  {
    if !EndsRun(s) {
      RunUnfolds(s, rest, n);
      assert out + ([StepResult(s)] + FilterRun(rest, n - 1)) == (out + [StepResult(s)]) + FilterRun(rest, n - 1);
    }
  }

  lemma UescapeFreeHere(s: seq<Token>)
    requires UescapeFree(s)
    ensures !AtUescape(s)
  {
    assert !(IsUnicode(At(s, 0).kind) && At(s, 0 + 1).kind == UESCAPE);
  }

  lemma AccountsCall(s: seq<Token>, out: seq<Result>, q: seq<Token>, u: seq<Token>, declare: bool)
    requires UescapeFree(s) && Accounted(s, out, q, u)
    ensures var (r, q', u') := LexStep(q, u, declare); Accounted(s, out + [r], q', u')
  {
    var (r, q', u') := LexStep(q, u, declare);
    UescapeFreeHere(q + u);
    ResultIsVersion(q, u, declare);
    CallConsumes(q, u, declare);
    FreeSuffix(q + u, StepLength(q + u), q' + u');
    AccountsMore(s, out, q + u, r, q' + u');
  }

  lemma PlainStays(q: seq<Token>, u: seq<Token>, declare: bool)
    requires Plain(q + u)
    ensures var (r, q', u') := LexStep(q, u, declare); Plain(q' + u')
  {
    var (r, q', u') := LexStep(q, u, declare);
    UescapeFreeHere(q + u);
    ResultIsVersion(q, u, declare);
    CallConsumes(q, u, declare);
    FreeSuffix(q + u, StepLength(q + u), q' + u');
  }

  lemma RunUnfolds(s: seq<Token>, rest: seq<Token>, n: nat)
    requires n > 0 && !EndsRun(s) && Same(rest, Drop(s, StepLength(s)))
    ensures FilterRun(s, n) == [StepResult(s)] + FilterRun(rest, n - 1)
  {
    SameRun(rest, Drop(s, StepLength(s)), n - 1);
  }

  lemma EndIsVisible(s: seq<Token>)
    ensures EndsRun(s) <==> StepResult(s).SyntaxError? || StepResult(s).token.kind == END_OF_INPUT
  {
  }

  /** Everything that holds between two calls of a run. */
  ghost predicate Ongoing(s: seq<Token>, n: nat, out: seq<Result>, done: bool, q: seq<Token>, u: seq<Token>, short: bool) {
    |out| <= n && (done ==> Ended(out)) && Accounted(s, out, q, u) && OnTrack(s, n, out, done, q, u, short)
  }

  lemma CallKeepsOngoing(s: seq<Token>, n: nat, out: seq<Result>, q: seq<Token>, u: seq<Token>, short: bool, declare: bool)
    requires Ongoing(s, n, out, false, q, u, short) && |out| < n && (short ==> !declare)
    ensures var (r, q', u') := LexStep(q, u, declare);
      Ongoing(s, n, out + [r], r.SyntaxError? || r.token.kind == END_OF_INPUT, q', u', short)
  {
    if UescapeFree(s) {
      AccountsCall(s, out, q, u, declare);
    }
    CallStaysOnTrack(s, n, out, q, u, short, declare);
  }

  /** One call of a run. */
  method RunTurn(lexer: Pushback, ghost s: seq<Token>, ghost n: nat, out: seq<Result>, ghost short: bool, declare: bool)
    returns (done: bool, out': seq<Result>)
    requires lexer.Valid() && Ongoing(s, n, out, false, lexer.Queue(), lexer.unread, short)
    requires |out| < n && (short ==> !declare)
    modifies lexer, lexer.slots
    ensures lexer.Valid() && (lexer.slots == old(lexer.slots) || fresh(lexer.slots))
    ensures |out'| == |out| + 1 && Ongoing(s, n, out', done, lexer.Queue(), lexer.unread, short)
  {
    CallKeepsOngoing(s, n, out, lexer.Queue(), lexer.unread, short, declare);
    var r := lexer.BaseLex(declare);
    done := r.SyntaxError? || r.token.kind == END_OF_INPUT;
    out' := out + [r];
  }

  /**
   * A run of up to n calls, with DECLARE scans wherever they occur. Without a
   * UESCAPE clause no token is lost, duplicated or reordered, however long the
   * queue grows. The results are exactly the filtered stream when WITH LOCAL
   * does not occur either, and also, with both, when there is no scan and the
   * run starts with at most two tokens pushed back.
   */
  method Run(lexer: Pushback, n: nat, declares: nat -> bool) returns (out: seq<Result>)
    requires lexer.Valid()
    modifies lexer, lexer.slots
    ensures lexer.Valid()
    ensures UescapeFree(old(lexer.Queue() + lexer.unread)) ==>
      Accounts(old(lexer.Queue() + lexer.unread), out, lexer.Queue() + lexer.unread)
    ensures Plain(old(lexer.Queue() + lexer.unread)) ==> out == FilterRun(old(lexer.Queue() + lexer.unread), n)
    ensures |old(lexer.Queue())| <= 2 && (forall k :: !declares(k)) ==> out == FilterRun(old(lexer.Queue() + lexer.unread), n)
    ensures out == FilterRun(old(lexer.Queue() + lexer.unread), n) ==> Reads(old(lexer.Queue() + lexer.unread), out)
    ensures |out| == n || Ended(out)
  {
    ghost var s := lexer.Queue() + lexer.unread;
    ghost var short := |lexer.Queue()| <= 2 && forall k :: !declares(k);
    out := [];
    var done := false;
    assert [] + FilterRun(s, n) == FilterRun(s, n);
    while |out| < n && !done
      invariant lexer.Valid() && (lexer.slots == old(lexer.slots) || fresh(lexer.slots))
      invariant Ongoing(s, n, out, done, lexer.Queue(), lexer.unread, short)
      decreases n - |out|
    {
      done, out := RunTurn(lexer, s, n, out, short, declares(|out|));
    }
    FilterRunReads(s, n);
  }
}

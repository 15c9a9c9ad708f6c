/**
 * Unicode escapes in U&'...' literals (str_udeescape in
 * src/backend/olr/oracle_parser16/liboracle_parser.c). The reference reading
 * is in two phases, escapes first and surrogate pairs second; the code does
 * both in one pass over the input, writing into a buffer that it doubles.
 */
module UnicodeEscapes {

  import opened Wrappers

  const MAX_UNICODE_EQUIVALENT_STRING: nat := 16

  // --------------------------------------------------- phase one: escapes

  predicate IsHex(c: char) {
    '0' <= c <= '9' || 'a' <= c <= 'f' || 'A' <= c <= 'F'
  }

  function HexVal(c: char): (v: nat)
    requires IsHex(c)
    ensures v < 16
  {
    if '0' <= c <= '9' then c as int - '0' as int
    else if 'a' <= c <= 'f' then c as int - 'a' as int + 10
    else c as int - 'A' as int + 10
  }

  predicate AllHex(s: string) {
    forall i :: 0 <= i < |s| ==> IsHex(s[i])
  }

  function HexNumber(s: string): nat
    requires AllHex(s)
  {
    if s == "" then 0 else HexNumber(s[..|s| - 1]) * 16 + HexVal(s[|s| - 1])
  }

  datatype Item = Plain(c: char) | Number(v: nat)

  datatype Lexed = Bad | End | More(item: Item, length: nat)

  /** The first escape or character of s: a doubled escape, \XXXX, \+XXXXXX, or a plain character. */
  function LexOne(s: string, escape: char): (r: Lexed)
    ensures r.More? ==> 0 < r.length <= |s|
  {
    if s == "" then End
    else if s[0] != escape then More(Plain(s[0]), 1)
    else if |s| >= 2 && s[1] == escape then More(Plain(escape), 2)
    else if |s| >= 5 && AllHex(s[1..5]) then More(Number(HexNumber(s[1..5])), 5)
    else if |s| >= 8 && s[1] == '+' && AllHex(s[2..8]) then More(Number(HexNumber(s[2..8])), 8)
    else Bad
  }

  function Lex(s: string, escape: char): Option<seq<Item>>
    decreases |s|
  {
    match LexOne(s, escape)
    case Bad => None
    case End => Some([])
    case More(item, length) => Push(item, Lex(s[length..], escape))
  }

  function Push<T>(x: T, rest: Option<seq<T>>): Option<seq<T>> {
    if rest.None? then None else Some([x] + rest.value)
  }

  // ------------------------------------------ phase two: surrogate pairs

  predicate ValidCodepoint(v: nat) {
    0 < v <= 0x10FFFF
  }

  predicate IsFirst(v: nat) {
    0xD800 <= v <= 0xDBFF
  }

  predicate IsSecond(v: nat) {
    0xDC00 <= v <= 0xDFFF
  }

  function PairToCodepoint(first: nat, second: nat): (v: nat)
    requires IsFirst(first) && IsSecond(second)
    ensures 0x10000 <= v <= 0x10FFFF
  {
    (first - 0xD800) * 0x400 + 0x10000 + (second - 0xDC00)
  }

  datatype Output = Raw(c: char) | Code(v: nat)

  function Combine(items: seq<Item>): Option<seq<Output>> {
    if items == [] then Some([])
    else match items[0]
      case Plain(c) => Push(Raw(c), Combine(items[1..]))
      case Number(v) =>
        if !ValidCodepoint(v) || IsSecond(v) then None
        else if !IsFirst(v) then Push(Code(v), Combine(items[1..]))
        else if |items| >= 2 && items[1].Number? && IsSecond(items[1].v) then
          Push(Code(PairToCodepoint(v, items[1].v)), Combine(items[2..]))
        else None
  }

  function Reading(s: string, escape: char): Option<seq<Output>> {
    var items := Lex(s, escape);
    if items.None? then None else Combine(items.value)
  }

  // ------------------------------------------ what the reading guarantees

  predicate FirstAt(items: seq<Item>, i: int) {
    0 <= i < |items| && items[i].Number? && IsFirst(items[i].v)
  }

  predicate SecondAt(items: seq<Item>, i: int) {
    0 <= i < |items| && items[i].Number? && IsSecond(items[i].v)
  }

  ghost predicate FineAt(items: seq<Item>, i: nat)
    requires i < |items|
  {
    items[i].Number? ==>
      && ValidCodepoint(items[i].v)
      && (FirstAt(items, i) ==> SecondAt(items, i + 1))
      && (SecondAt(items, i) ==> FirstAt(items, i - 1))
  }

  /** Numbers are code points, and surrogates come exactly as a first followed by a second. */
  ghost predicate WellPaired(items: seq<Item>) {
    forall i :: 0 <= i < |items| ==> FineAt(items, i)
  }

  ghost predicate Scalars(outs: seq<Output>) {
    forall i :: 0 <= i < |outs| && outs[i].Code? ==>
      ValidCodepoint(outs[i].v) && !IsFirst(outs[i].v) && !IsSecond(outs[i].v)
  }

  /** Dropping a fine prefix of n items that does not end in a first surrogate. */
  lemma DropItems(items: seq<Item>, n: nat)
    requires 0 < n <= |items| && !FirstAt(items, n - 1)
    requires forall i :: 0 <= i < n ==> FineAt(items, i)
    ensures WellPaired(items) <==> WellPaired(items[n..])
  {
    var rest := items[n..];
    forall i | 0 <= i < |rest| ensures FineAt(rest, i) <==> FineAt(items, i + n) {
      assert rest[i] == items[i + n];
      assert FirstAt(rest, i) <==> FirstAt(items, i + n);
      assert SecondAt(rest, i) <==> SecondAt(items, i + n);
      assert SecondAt(rest, i + 1) <==> SecondAt(items, i + n + 1);
      assert FirstAt(rest, i - 1) <==> FirstAt(items, i + n - 1);
    }
    if WellPaired(rest) {
      forall i | n <= i < |items| ensures FineAt(items, i) {
        assert FineAt(rest, i - n);
      }
    }
  }

  /**
   * The reading accepts exactly the well-paired item lists and never yields a
   * surrogate (UTF-16, section 2.2 of RFC 2781).
   */
  lemma {:induction false} CombineAccepts(items: seq<Item>)
    ensures Combine(items).Some? <==> WellPaired(items)
    ensures Combine(items).Some? ==> Scalars(Combine(items).value)
  {
    if items == [] {
    } else if items[0].Number? && (!ValidCodepoint(items[0].v) || IsSecond(items[0].v)) {
      assert !FineAt(items, 0);
    } else if !FirstAt(items, 0) {
      CombineAccepts(items[1..]);
      DropItems(items, 1);
    } else if SecondAt(items, 1) {
      CombineAccepts(items[2..]);
      DropItems(items, 2);
    } else {
      assert !FineAt(items, 0);
    }
  }

  // ------------------------------------------------------------ the encoders

  function HexChar(d: nat): (c: char)
    requires d < 16
    ensures IsHex(c) && HexVal(c) == d
  {
    if d < 10 then '0' + d as char else 'A' + (d - 10) as char
  }

  /** The last n hexadecimal digits of v. */
  function Hex(v: nat, n: nat): (s: string)
    ensures |s| == n && AllHex(s)
  {
    if n == 0 then "" else Hex(v / 16, n - 1) + [HexChar(v % 16)]
  }

  function Pow16(n: nat): nat {
    if n == 0 then 1 else 16 * Pow16(n - 1)
  }

  lemma {:induction false} HexRoundTrip(v: nat, n: nat)
    requires v < Pow16(n)
    ensures HexNumber(Hex(v, n)) == v
  {
    if n > 0 {
      HexRoundTrip(v / 16, n - 1);
      assert Hex(v, n)[..n - 1] == Hex(v / 16, n - 1);
    }
  }

  /** The ways to write one character of a U& literal. */
  datatype Spelling = Itself(c: char) | Short(v: nat) | Long(v: nat) | Pair(v: nat, longFirst: bool, longSecond: bool)

  /** Escape characters that UESCAPE admits are neither hexadecimal digits nor a plus sign. */
  predicate UsableEscape(escape: char) {
    !IsHex(escape) && escape != '+'
  }

  /** The code points of characters: all but the surrogates. */
  predicate Scalar(v: nat) {
    0 < v < 0xD800 || 0xDFFF < v <= 0x10FFFF
  }

  /** Four digits reach the basic plane, a pair the other planes, six digits every code point. */
  predicate Admissible(w: Spelling) {
    match w
    case Itself(_) => true
    case Short(v) => Scalar(v) && v < 0x10000
    case Long(v) => Scalar(v)
    case Pair(v, _, _) => 0x10000 <= v <= 0x10FFFF
  }

  /** The high and the low ten bits of a code point beyond the basic plane, as surrogates. */
  function HighSurrogate(v: nat): nat
    requires v >= 0x10000
  {
    0xD800 + (v - 0x10000) / 0x400
  }

  function LowSurrogate(v: nat): nat
    requires v >= 0x10000
  {
    0xDC00 + (v - 0x10000) % 0x400
  }

  lemma PairInverts(v: nat)
    requires 0x10000 <= v <= 0x10FFFF
    ensures IsFirst(HighSurrogate(v)) && IsSecond(LowSurrogate(v))
    ensures PairToCodepoint(HighSurrogate(v), LowSurrogate(v)) == v
  {
  }

  /** The surrogates by their leading bits: 110110 for a first one, 110111 for a second one. */
  lemma SurrogateBits(v: nat)
    ensures IsFirst(v) <==> v / 0x400 == 0x36
    ensures IsSecond(v) <==> v / 0x400 == 0x37
    ensures Scalar(v) <==> ValidCodepoint(v) && !IsFirst(v) && !IsSecond(v)
  {
  }

  function Numeric(v: nat, long: bool, escape: char): string {
    if long then [escape, '+'] + Hex(v, 6) else [escape] + Hex(v, 4)
  }

  function Write(w: Spelling, escape: char): string
    requires Admissible(w)
  {
    match w
    case Itself(c) => if c == escape then [escape, escape] else [c]
    case Short(v) => Numeric(v, false, escape)
    case Long(v) => Numeric(v, true, escape)
    case Pair(v, longFirst, longSecond) =>
      Numeric(HighSurrogate(v), longFirst, escape) + Numeric(LowSurrogate(v), longSecond, escape)
  }

  function Meant(w: Spelling): Output
    requires Admissible(w)
  {
    match w
    case Itself(c) => Raw(c)
    case Short(v) => Code(v)
    case Long(v) => Code(v)
    case Pair(v, _, _) => Code(v)
  }

  function WriteAll(ws: seq<Spelling>, escape: char): string
    requires forall i :: 0 <= i < |ws| ==> Admissible(ws[i])
  {
    if ws == [] then "" else Write(ws[0], escape) + WriteAll(ws[1..], escape)
  }

  function MeantAll(ws: seq<Spelling>): seq<Output>
    requires forall i :: 0 <= i < |ws| ==> Admissible(ws[i])
  {
    if ws == [] then [] else [Meant(ws[0])] + MeantAll(ws[1..])
  }

  lemma LexNumeric(v: nat, long: bool, escape: char, rest: string)
    requires UsableEscape(escape) && v < if long then 0x100_0000 else 0x10000
    ensures Lex(Numeric(v, long, escape) + rest, escape) == Push(Number(v), Lex(rest, escape))
  {
    var s := Numeric(v, long, escape) + rest;
    assert Pow16(4) == 0x10000 && Pow16(6) == 0x100_0000 by {
      assert Pow16(2) == 0x100;
      assert Pow16(3) == 0x1000;
      assert Pow16(5) == 0x10_0000;
    }
    if long {
      HexRoundTrip(v, 6);
      assert s[2..8] == Hex(v, 6) && s[8..] == rest;
      assert !IsHex(s[1]) && s[1] == s[1..5][0];
    } else {
      HexRoundTrip(v, 4);
      assert s[1..5] == Hex(v, 4) && s[5..] == rest;
      assert IsHex(s[1..5][0]);
    }
  }

  lemma CombineOne(item: Item, items: seq<Item>)
    requires item.Number? ==> Scalar(item.v)
    ensures Combine([item] + items) == Push(if item.Plain? then Raw(item.c) else Code(item.v), Combine(items))
  {
    assert ([item] + items)[1..] == items;
  }

  lemma CombinePair(f: nat, t: nat, items: seq<Item>)
    requires IsFirst(f) && IsSecond(t)
    ensures Combine([Number(f)] + ([Number(t)] + items)) == Push(Code(PairToCodepoint(f, t)), Combine(items))
  {
    assert ([Number(f)] + ([Number(t)] + items))[2..] == items;
  }

  lemma LexPlain(c: char, escape: char, rest: string)
    ensures Lex(Write(Itself(c), escape) + rest, escape) == Push(Plain(c), Lex(rest, escape))
  {
    var w := Write(Itself(c), escape);
    assert (w + rest)[|w|..] == rest;
  }

  lemma ReadOne(w: Spelling, escape: char, rest: string)
    requires UsableEscape(escape) && Admissible(w)
    ensures Reading(Write(w, escape) + rest, escape) == Push(Meant(w), Reading(rest, escape))
  {
    var tail := Lex(rest, escape);
    match w {
      case Itself(c) =>
        LexPlain(c, escape, rest);
        if tail.Some? { CombineOne(Plain(c), tail.value); }
      case Short(v) =>
        LexNumeric(v, false, escape, rest);
        if tail.Some? { CombineOne(Number(v), tail.value); }
      case Long(v) =>
        LexNumeric(v, true, escape, rest);
        if tail.Some? { CombineOne(Number(v), tail.value); }
      case Pair(v, longFirst, longSecond) =>
        var f, t := HighSurrogate(v), LowSurrogate(v);
        PairInverts(v);
        var second := Numeric(t, longSecond, escape) + rest;
        assert Write(w, escape) + rest == Numeric(f, longFirst, escape) + second;
        LexNumeric(f, longFirst, escape, second);
        LexNumeric(t, longSecond, escape, rest);
        if tail.Some? { CombinePair(f, t, tail.value); }
    }
  }

  /** Every mixture of spellings reads back as what was meant. */
  lemma {:induction false} ReadingInvertsWriting(ws: seq<Spelling>, escape: char)
    requires UsableEscape(escape) && forall i :: 0 <= i < |ws| ==> Admissible(ws[i])
    ensures Reading(WriteAll(ws, escape), escape) == Some(MeantAll(ws))
  {
    if ws != [] {
      ReadingInvertsWriting(ws[1..], escape);
      ReadOne(ws[0], escape, WriteAll(ws[1..], escape));
    }
  }

  // ------------------------------------------- which strings are well formed

  /** A character, a doubled escape, or an escape with four digits or a plus sign and six. */
  predicate ValidPiece(p: string, escape: char) {
    || (|p| == 1 && p[0] != escape)
    || p == [escape, escape]
    || (|p| == 5 && p[0] == escape && AllHex(p[1..]))
    || (|p| == 8 && p[0] == escape && p[1] == '+' && AllHex(p[2..]))
  }

  ghost predicate ValidPieces(ps: seq<string>, escape: char) {
    forall i :: 0 <= i < |ps| ==> ValidPiece(ps[i], escape)
  }

  function Concat(ps: seq<string>): string {
    if ps == [] then "" else ps[0] + Concat(ps[1..])
  }

  lemma PieceIsLexed(p: string, rest: string, escape: char)
    requires UsableEscape(escape) && ValidPiece(p, escape)
    ensures LexOne(p + rest, escape).More? && LexOne(p + rest, escape).length == |p|
  {
    var s := p + rest;
    assert s[0] == p[0];
    if |p| == 5 && p[0] == escape {
      assert s[1..5] == p[1..] && s[1] == p[1..][0];
    } else if |p| == 8 && p[0] == escape {
      assert s[1] == '+' == s[1..5][0] && s[2..8] == p[2..];
    }
  }

  lemma {:induction false} PiecesAreLexed(ps: seq<string>, escape: char)
    requires UsableEscape(escape) && ValidPieces(ps, escape)
    ensures Lex(Concat(ps), escape).Some?
  {
    if ps != [] {
      PiecesAreLexed(ps[1..], escape);
      PieceIsLexed(ps[0], Concat(ps[1..]), escape);
      assert (ps[0] + Concat(ps[1..]))[|ps[0]|..] == Concat(ps[1..]);
    }
  }

  lemma {:induction false} LexedIsPieces(s: string, escape: char) returns (ps: seq<string>)
    requires Lex(s, escape).Some?
    ensures ValidPieces(ps, escape) && Concat(ps) == s
    decreases |s|
  {
    var here := LexOne(s, escape);
    if here.End? {
      ps := [];
    } else {
      assert Lex(s[here.length..], escape).Some?;
      var rest := LexedIsPieces(s[here.length..], escape);
      FirstIsPiece(s, escape);
      OnePieceMore(s[..here.length], rest, escape);
      ps := [s[..here.length]] + rest;
      assert s[..here.length] + s[here.length..] == s;
    }
  }

  lemma OnePieceMore(p: string, rest: seq<string>, escape: char)
    requires ValidPiece(p, escape) && ValidPieces(rest, escape)
    ensures ValidPieces([p] + rest, escape) && Concat([p] + rest) == p + Concat(rest)
  {
    assert ([p] + rest)[1..] == rest;
  }

  lemma FirstIsPiece(s: string, escape: char)
    requires LexOne(s, escape).More?
    ensures ValidPiece(s[..LexOne(s, escape).length], escape)
  {
    var p := s[..LexOne(s, escape).length];
    if |p| == 5 {
      assert p[1..] == s[1..5];
    } else if |p| == 8 {
      assert p[2..] == s[2..8];
    }
  }

  /** Escapes are accepted exactly in strings made of such pieces. */
  lemma EscapesAccepted(s: string, escape: char)
    requires UsableEscape(escape)
    ensures Lex(s, escape).Some? <==> exists ps :: ValidPieces(ps, escape) && Concat(ps) == s
  {
    if Lex(s, escape).Some? {
      var ps := LexedIsPieces(s, escape);
    }
    if ps :| ValidPieces(ps, escape) && Concat(ps) == s {
      PiecesAreLexed(ps, escape);
    }
  }

  /** The hexadecimal digits and their values, in both letter cases. */
  lemma HexDigits(c: char)
    ensures IsHex(c) <==> c in "0123456789abcdef" || c in "0123456789ABCDEF"
    ensures IsHex(c) ==> "0123456789abcdef"[HexVal(c)] == c || "0123456789ABCDEF"[HexVal(c)] == c
  {
    var low, high := "0123456789abcdef", "0123456789ABCDEF";
    if IsHex(c) {
      assert low[HexVal(c)] == c || high[HexVal(c)] == c;
    }
  }

  // ------------------------------------------------------- the one-pass code

  /** One character in the server encoding. */
  type Encoded = s: string | |s| <= MAX_UNICODE_EQUIVALENT_STRING

  /** The bytes an output stands for; toServer is the server-encoding converter. */
  function Render(outs: seq<Output>, toServer: nat -> Encoded): string {
    if outs == [] then "" else Render(outs[..|outs| - 1], toServer) + RenderOne(outs[|outs| - 1], toServer)
  }

  function RenderOne(o: Output, toServer: nat -> Encoded): Encoded {
    match o
    case Raw(c) => [c]
    case Code(v) => toServer(v)
  }

  lemma RenderMore(outs: seq<Output>, o: Output, toServer: nat -> Encoded)
    ensures Render(outs + [o], toServer) == Render(outs, toServer) + RenderOne(o, toServer)
  {
    assert (outs + [o])[..|outs|] == outs;
  }

  /** What is still to come when `pair` (0 for none) is a first surrogate waiting for its second. */
  function Rest(pair: nat, s: string, escape: char): Option<seq<Output>> {
    var items := Lex(s, escape);
    if items.None? then None else Combine(Waiting(pair) + items.value)
  }

  function Waiting(pair: nat): seq<Item> {
    if pair == 0 then [] else [Number(pair)]
  }

  function Prepend(outs: seq<Output>, rest: Option<seq<Output>>): Option<seq<Output>> {
    if rest.None? then None else Some(outs + rest.value)
  }

  lemma NothingYet(s: string, escape: char)
    ensures Reading(s, escape) == Prepend([], Rest(0, s, escape))
  {
    if Lex(s, escape).Some? {
      assert Waiting(0) + Lex(s, escape).value == Lex(s, escape).value;
      assert Reading(s, escape).Some? ==> [] + Reading(s, escape).value == Reading(s, escape).value;
    }
  }

  lemma PrependPush(outs: seq<Output>, o: Output, rest: Option<seq<Output>>)
    ensures Prepend(outs, Push(o, rest)) == Prepend(outs + [o], rest)
  {
    if rest.Some? {
      assert outs + ([o] + rest.value) == outs + [o] + rest.value;
    }
  }

  datatype Move = Fail | Emit(o: Output) | Hold(first: nat)

  /** The surrogate bookkeeping for one item. */
  function MoveOf(pair: nat, item: Item): (m: Move)
    requires pair == 0 || IsFirst(pair)
    ensures m.Hold? ==> pair == 0 && IsFirst(m.first)
  {
    match item
    case Plain(c) => if pair != 0 then Fail else Emit(Raw(c))
    case Number(unicode) =>
      if !ValidCodepoint(unicode) then Fail
      else if pair != 0 then
        if IsSecond(unicode) then Emit(Code(PairToCodepoint(pair, unicode))) else Fail
      else if IsSecond(unicode) then Fail
      else if IsFirst(unicode) then Hold(unicode)
      else Emit(Code(unicode))
  }

  lemma RestAfterItem(pair: nat, item: Item, tail: seq<Item>)
    requires pair == 0 || IsFirst(pair)
    ensures MoveOf(pair, item).Fail? ==> Combine(Waiting(pair) + ([item] + tail)) == None
    ensures MoveOf(pair, item).Emit? ==>
      Combine(Waiting(pair) + ([item] + tail)) == Push(MoveOf(pair, item).o, Combine(tail))
    ensures MoveOf(pair, item).Hold? ==>
      Combine(Waiting(pair) + ([item] + tail)) == Combine(Waiting(MoveOf(pair, item).first) + tail)
  {
    assert pair == 0 ==> Waiting(pair) + ([item] + tail) == [item] + tail;
    if pair != 0 && item.Number? && IsSecond(item.v) {
      CombinePair(pair, item.v, tail);
    } else if pair == 0 && (item.Number? ==> Scalar(item.v)) {
      CombineOne(item, tail);
    }
  }

  function AfterMove(outs: seq<Output>, m: Move, s: string, escape: char): Option<seq<Output>> {
    match m
    case Fail => None
    case Emit(o) => Prepend(outs + [o], Rest(0, s, escape))
    case Hold(first) => Prepend(outs, Rest(first, s, escape))
  }

  /** One turn of the loop keeps "already written, then the rest" equal to the reading. */
  lemma Turn(outs: seq<Output>, pair: nat, s: string, escape: char)
    requires pair == 0 || IsFirst(pair)
    requires LexOne(s, escape).More?
    ensures Prepend(outs, Rest(pair, s, escape)) ==
      var here := LexOne(s, escape);
      AfterMove(outs, MoveOf(pair, here.item), s[here.length..], escape)
  {
    var here := LexOne(s, escape);
    var items := Lex(s[here.length..], escape);
    if items.Some? {
      RestAfterItem(pair, here.item, items.value);
      assert Waiting(0) + items.value == items.value;
      if MoveOf(pair, here.item).Emit? {
        PrependPush(outs, MoveOf(pair, here.item).o, Combine(items.value));
      }
    }
  }

  /** The buffer holds the rendering of `outs`, with room for the final NUL. */
  ghost predicate Holds(buf: array<char>, out: nat, outs: seq<Output>, toServer: nat -> Encoded)
    reads buf
  {
    out < buf.Length && MAX_UNICODE_EQUIVALENT_STRING < buf.Length && buf[..out] == Render(outs, toServer)
  }

  /** Doubles the buffer when fewer than 17 bytes are left; the contents move along. */
  method Enlarge(buf: array<char>, out: nat, ghost outs: seq<Output>, ghost toServer: nat -> Encoded)
    returns (grown: array<char>)
    requires Holds(buf, out, outs, toServer)
    ensures Holds(grown, out, outs, toServer) && out + MAX_UNICODE_EQUIVALENT_STRING < grown.Length
    ensures grown == buf || fresh(grown)
  {
    grown := buf;
    if out > buf.Length - (MAX_UNICODE_EQUIVALENT_STRING + 1) {
      grown := new char[buf.Length * 2];
      forall i | 0 <= i < out {
        grown[i] := buf[i];
      }
      assert grown[..out] == buf[..out];
    }
  }

  /** Writes s and a terminating NUL at `out`. */
  method Put(buf: array<char>, out: nat, s: string) returns (next: nat)
    requires out + |s| < buf.Length
    modifies buf
    ensures next == out + |s| && buf[..next] == old(buf[..out]) + s
  {
    forall i | 0 <= i < |s| {
      buf[out + i] := s[i];
    }
    next := out + |s|;
    buf[next] := '\0';
    assert buf[..out] == old(buf[..out]);
  }

  /** The input before i has been read as `outs`, with a first surrogate waiting if `pair` is not 0. */
  ghost predicate Underway(str: string, i: nat, escape: char, pair: nat, outs: seq<Output>) {
    && i <= |str| && (pair == 0 || IsFirst(pair))
    && Reading(str, escape) == Prepend(outs, Rest(pair, str[i..], escape))
  }

  /** Scans one escape or character at i and settles what it means after `pair`. */
  method NextMove(str: string, i: nat, escape: char, pair: nat, ghost outs: seq<Output>)
    returns (m: Move, length: nat)
    requires i < |str| && Underway(str, i, escape, pair, outs)
    ensures i + length <= |str| && (!m.Fail? ==> length > 0)
    ensures m.Fail? ==> Reading(str, escape).None?
    ensures m.Hold? ==> Underway(str, i + length, escape, m.first, outs)
    ensures m.Emit? ==> Underway(str, i + length, escape, 0, outs + [m.o])
    ensures m.Emit? && m.o.Raw? ==> pair == 0
  {
    var here := LexOne(str[i..], escape);
    if here.Bad? {
      return Fail, 0;
    }
    m, length := MoveOf(pair, here.item), here.length;
    Turn(outs, pair, str[i..], escape);
    assert str[i..][length..] == str[i + length..];
  }

  lemma AtEnd(str: string, escape: char, pair: nat, outs: seq<Output>)
    requires Underway(str, |str|, escape, pair, outs)
    ensures Reading(str, escape) == if pair == 0 then Some(outs) else None
  {
    assert str[|str|..] == "";
    assert outs + [] == outs;
  }

  /** Appends one output; the caller has made room. */
  method EmitOne(buf: array<char>, out: nat, ghost outs: seq<Output>, o: Output, toServer: nat -> Encoded)
    returns (next: nat)
    requires Holds(buf, out, outs, toServer) && out + MAX_UNICODE_EQUIVALENT_STRING < buf.Length
    modifies buf
    ensures Holds(buf, next, outs + [o], toServer)
  {
    RenderMore(outs, o, toServer);
    next := Put(buf, out, RenderOne(o, toServer));
  }

  /**
   * str_udeescape: the result is the rendering of the reference reading, and
   * an error exactly when the reading rejects; no write leaves the buffer,
   * the final NUL included.
   */
  method Udeescape(str: string, escape: char, toServer: nat -> Encoded) returns (r: Option<string>)
    ensures r == if Reading(str, escape).None? then None else Some(Render(Reading(str, escape).value, toServer))
  {
    var buf := new char[|str| + MAX_UNICODE_EQUIVALENT_STRING + 1];
    var i: nat, out: nat, pair: nat := 0, 0, 0;
    ghost var outs: seq<Output> := [];
    assert str[0..] == str;
    NothingYet(str, escape);
    while i < |str|
      invariant fresh(buf) && Holds(buf, out, outs, toServer)
      invariant Underway(str, i, escape, pair, outs)
      decreases |str| - i
    {
      buf := Enlarge(buf, out, outs, toServer);
      var m, length := NextMove(str, i, escape, pair, outs);
      i := i + length;
      match m {
        case Fail =>
          return None;
        case Hold(first) =>
          pair := first;
        case Emit(o) =>
          pair := 0;
          out := EmitOne(buf, out, outs, o, toServer);
          outs := outs + [o];
      }
    }
    AtEnd(str, escape, pair, outs);
    if pair != 0 {
      return None;
    }
    buf[out] := '\0';
    r := Some(buf[..out]);
  }
}

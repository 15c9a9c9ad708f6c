/**
 * Filling a transform expression (swap_tokens in
 * src/backend/executor/replication_agent.c): %d, %w and %s are replaced by
 * their arguments inside a 256-byte buffer.
 */
module SwapTokens {

  import opened Wrappers

  const EXPRESSION_SIZE: nat := 256

  // ------------------------------------------------------ the plain expansion

  datatype Piece = Letter(c: char) | Argument(text: string)

  function OrNull(arg: Option<string>): string {
    if arg.Some? then arg.value else "null"
  }

  datatype Arguments = Arguments(data: Option<string>, wkb: Option<string>, srid: Option<string>)

  /** The first piece of a template and how many characters it takes. */
  function FirstPiece(t: string, args: Arguments): (Piece, nat)
    requires t != ""
  {
    if t[0] == '%' && |t| > 1 && t[1] == 'd' then (Argument(OrNull(args.data)), 2)
    else if t[0] == '%' && |t| > 1 && t[1] == 'w' then (Argument(OrNull(args.wkb)), 2)
    else if t[0] == '%' && |t| > 1 && t[1] == 's' then (Argument(OrNull(args.srid)), 2)
    else if t[0] == '%' && |t| > 1 && t[1] == '%' then (Letter('%'), 2)
    else (Letter(t[0]), 1)
  }

  function PieceText(p: Piece): string {
    match p
    case Letter(c) => [c]
    case Argument(text) => text
  }

  function Pieces(t: string, args: Arguments): seq<Piece>
    decreases |t|
  {
    if t == "" then [] else
      var (p, n) := FirstPiece(t, args);
      [p] + Pieces(t[n..], args)
  }

  function Concat(ps: seq<Piece>): string {
    if ps == [] then "" else Concat(ps[..|ps| - 1]) + PieceText(ps[|ps| - 1])
  }

  /** The template with its tokens replaced, of any length. */
  function Expansion(t: string, args: Arguments): string {
    Concat(Pieces(t, args))
  }

  // -------------------------------------------------- templates, written out

  /** What the author of a template can mean; a percent sign of the text is doubled. */
  datatype Part = Verbatim(c: char) | DataValue | WkbValue | SridValue

  function Spelled(p: Part): string {
    match p
    case Verbatim(c) => if c == '%' then "%%" else [c]
    case DataValue => "%d"
    case WkbValue => "%w"
    case SridValue => "%s"
  }

  function Meant(p: Part, args: Arguments): string {
    match p
    case Verbatim(c) => [c]
    case DataValue => if args.data == None then "null" else args.data.value
    case WkbValue => if args.wkb == None then "null" else args.wkb.value
    case SridValue => if args.srid == None then "null" else args.srid.value
  }

  function Template(ps: seq<Part>): string {
    if ps == [] then "" else Spelled(ps[0]) + Template(ps[1..])
  }

  function MeantAll(ps: seq<Part>, args: Arguments): string {
    if ps == [] then "" else Meant(ps[0], args) + MeantAll(ps[1..], args)
  }

  lemma {:induction false} ConcatFront(p: Piece, ps: seq<Piece>)
    ensures Concat([p] + ps) == PieceText(p) + Concat(ps)
  {
    if ps == [] {
      assert ([p] + ps)[..0] == [];
    } else {
      var n := |ps| - 1;
      ConcatFront(p, ps[..n]);
      assert ([p] + ps)[..|ps|] == [p] + ps[..n] && ([p] + ps)[|ps|] == ps[n];
      Associates(PieceText(p), Concat(ps[..n]), PieceText(ps[n]));
    }
  }

  lemma Associates(a: string, b: string, c: string)
    ensures (a + b) + c == a + (b + c)
  {
  }

  lemma FirstPartExpands(p: Part, rest: string, args: Arguments)
    ensures Expansion(Spelled(p) + rest, args) == Meant(p, args) + Expansion(rest, args)
  {
    var t := Spelled(p) + rest;
    var (piece, n) := FirstPiece(t, args);
    assert n == |Spelled(p)| && t[n..] == rest && PieceText(piece) == Meant(p, args);
    ConcatFront(piece, Pieces(rest, args));
  }

  /** A percent sign before anything else, or at the end, stands for itself. */
  lemma StrayPercent(rest: string, args: Arguments)
    requires rest == "" || rest[0] !in "dws%"
    ensures Expansion("%" + rest, args) == "%" + Expansion(rest, args)
  {
    var t := "%" + rest;
    assert FirstPiece(t, args) == (Letter('%'), 1) by {
      assert rest != "" ==> t[1] == rest[0] && rest[0] != "dws%"[0] && rest[0] != "dws%"[1] && rest[0] != "dws%"[2] && rest[0] != "dws%"[3];
    }
    assert t[1..] == rest;
    ConcatFront(Letter('%'), Pieces(rest, args));
  }

  /** Expanding a template gives what its author meant, for every text and every arguments. */
  lemma {:induction false} TemplatesExpand(ps: seq<Part>, args: Arguments)
    ensures Expansion(Template(ps), args) == MeantAll(ps, args)
  {
    if ps != [] {
      TemplatesExpand(ps[1..], args);
      FirstPartExpands(ps[0], Template(ps[1..]), args);
    }
  }

  // ------------------------------------------------------------- the buffer

  const LIMIT: nat := EXPRESSION_SIZE - 1

  /** What a bounded copy adds: letters fill the buffer to the end, arguments leave one byte. */
  function Fitted(used: nat, p: Piece): string {
    match p
    case Letter(c) => if used < LIMIT then [c] else ""
    case Argument(text) => if used + |text| < LIMIT then text else if used < LIMIT then text[..LIMIT - 1 - used] else ""
  }

  function Filled(ps: seq<Piece>): (s: string)
    ensures |s| <= LIMIT
  {
    if ps == [] then "" else
      var s := Filled(ps[..|ps| - 1]);
      s + Fitted(|s|, ps[|ps| - 1])
  }

  /** strlcpy of `src` to buf[dp..end), then the new end of the string. */
  method CopyBounded(buf: array<char>, dp: nat, end: nat, src: string) returns (next: nat)
    requires dp <= end < buf.Length && buf[end] == '\0'
    modifies buf
    ensures buf[end] == '\0' && dp <= next <= end
    ensures buf[..next] == old(buf[..dp]) + (if dp + |src| < end then src else if dp < end then src[..end - 1 - dp] else "")
  {
    var size := end - dp;
    if size == 0 {
      return dp;
    }
    var n := if |src| < size then |src| else size - 1;
    for i := 0 to n
      invariant buf[..dp + i] == old(buf[..dp]) + src[..i] && buf[end] == '\0'
    {
      buf[dp + i] := src[i];
      assert buf[..dp + i + 1] == buf[..dp + i] + [src[i]];
    }
    buf[dp + n] := '\0';
    next := dp + n;
    assert src[..|src|] == src;
  }

  method PutLetter(buf: array<char>, dp: nat, end: nat, c: char) returns (next: nat)
    requires dp <= end < buf.Length && buf[end] == '\0'
    modifies buf
    ensures buf[end] == '\0' && dp <= next <= end
    ensures buf[..next] == old(buf[..dp]) + if dp < end then [c] else ""
  {
    next := dp;
    if dp < end {
      buf[dp] := c;
      next := dp + 1;
    }
  }

  /** The template up to sp has been read as the pieces `done`. */
  ghost predicate ReadUpTo(t: string, sp: nat, args: Arguments, done: seq<Piece>) {
    sp <= |t| && done + Pieces(t[sp..], args) == Pieces(t, args)
  }

  /** Reads the piece at sp: the character, or what the token there stands for. */
  method NextPiece(t: string, sp: nat, args: Arguments, ghost done: seq<Piece>) returns (p: Piece, next: nat)
    requires sp < |t| && ReadUpTo(t, sp, args, done)
    ensures sp < next && ReadUpTo(t, next, args, done + [p])
  {
    var first := FirstPiece(t[sp..], args);
    p, next := first.0, sp + first.1;
    assert t[sp..][first.1..] == t[next..];
    assert done + ([p] + Pieces(t[next..], args)) == done + [p] + Pieces(t[next..], args);
  }

  /** The buffer starts with what the pieces so far fill in. */
  ghost predicate Holds(buf: array<char>, dp: nat, done: seq<Piece>)
    reads buf
  {
    buf.Length == EXPRESSION_SIZE && dp <= LIMIT && buf[LIMIT] == '\0' && buf[..dp] == Filled(done)
  }

  method PutPiece(buf: array<char>, dp: nat, piece: Piece, ghost done: seq<Piece>) returns (next: nat)
    requires Holds(buf, dp, done)
    modifies buf
    ensures Holds(buf, next, done + [piece])
  {
    assert (done + [piece])[..|done|] == done;
    match piece {
      case Letter(c) =>
        next := PutLetter(buf, dp, LIMIT, c);
      case Argument(text) =>
        next := CopyBounded(buf, dp, LIMIT, text);
    }
  }

  /**
   * swap_tokens: every write stays inside the buffer, and the result is the
   * full expansion if and only if that has at most 254 characters, or exactly
   * 255 of which the last stands in the template itself.
   */
  method Swap(expression: string, args: Arguments) returns (s: string)
    ensures s == Filled(Pieces(expression, args))
    ensures s == Expansion(expression, args) <==>
      || |Expansion(expression, args)| < LIMIT
      || (|Expansion(expression, args)| == LIMIT && EndsInLetter(Pieces(expression, args)))
  {
    FilledIsExpansion(Pieces(expression, args));
    var buf := new char[EXPRESSION_SIZE];
    buf[LIMIT] := '\0';
    var dp: nat, sp: nat := 0, 0;
    ghost var done: seq<Piece> := [];
    assert expression[0..] == expression && done + Pieces(expression, args) == Pieces(expression, args);
    while sp < |expression|
      invariant ReadUpTo(expression, sp, args, done) && Holds(buf, dp, done)
      decreases |expression| - sp
    {
      var piece, next := NextPiece(expression, sp, args, done);
      dp := PutPiece(buf, dp, piece, done);
      done, sp := done + [piece], next;
    }
    assert expression[sp..] == "" && done + [] == done;
    buf[dp] := '\0';
    s := buf[..dp];
  }

  // --------------------------------------------------- when nothing is lost

  /** The last piece that contributes anything is a letter. */
  predicate EndsInLetter(ps: seq<Piece>) {
    ps != [] && (ps[|ps| - 1].Letter? || (ps[|ps| - 1].text == "" && EndsInLetter(ps[..|ps| - 1])))
  }

  lemma {:induction false} FilledIsExpansion(ps: seq<Piece>)
    ensures Filled(ps) == Concat(ps) <==>
      |Concat(ps)| < LIMIT || (|Concat(ps)| == LIMIT && EndsInLetter(ps))
    ensures |Concat(ps)| < LIMIT ==> |Filled(ps)| == |Concat(ps)|
    ensures |Filled(ps)| <= |Concat(ps)|
  {
    if ps != [] {
      var init, p := ps[..|ps| - 1], ps[|ps| - 1];
      FilledIsExpansion(init);
      if Filled(init) == Concat(init) {
      } else {
        var f := Filled(init);
        if f + Fitted(|f|, p) == Concat(init) + PieceText(p) {
          SamePrefix(f, Fitted(|f|, p), Concat(init), PieceText(p));
        }
      }
    }
  }

  lemma SamePrefix(f: string, x: string, c: string, y: string)
    requires |f| <= |c| && |x| <= |y| && f + x == c + y
    ensures f == c
  {
    assert (f + x)[..|f|] == f && (c + y)[..|c|] == c;
  }

  /** The template %d with 255 characters of data: the last one is lost. */
  lemma FullBufferLosesArgument(data: string)
    requires |data| == 255
    ensures var args := Arguments(Some(data), None, None);
      Expansion("%d", args) == data && Filled(Pieces("%d", args)) == data[..254]
  {
    var args := Arguments(Some(data), None, None);
    assert "%d"[2..] == "";
    assert Pieces("%d", args) == [Argument(data)];
    assert [Argument(data)][..0] == [];
    assert Concat([]) == "" && Filled([]) == "";
    assert "" + data == data && "" + data[..254] == data[..254];
  }
}

/**
 * Letter case of Oracle identifiers on the Openlog Replicator path. The parser
 * flips all-upper to lower and all-lower to upper
 * (identifier_case_transform in src/backend/olr/oracle_parser16/liboracle_parser.c)
 * and the scanner cuts the result (src/backend/olr/oracle_parser16/ora_scan.l);
 * under the as-is strategy the handler flips back
 * (parseOLRDDL in src/backend/converter/olr_event_handler.c).
 */
module CaseRestore {

  import opened NameResolution

  predicate IsUpper(c: char) {
    'A' <= c <= 'Z'
  }

  predicate IsLower(c: char) {
    'a' <= c <= 'z'
  }

  predicate HasUpper(s: string) {
    exists i :: 0 <= i < |s| && IsUpper(s[i])
  }

  predicate HasLower(s: string) {
    exists i :: 0 <= i < |s| && IsLower(s[i])
  }

  // -------------------------------------------------------------- the parser

  function Transformed(ident: string): string {
    if Clipped(Upper(ident)) == ident then Clipped(Lower(ident))
    else if Clipped(Lower(ident)) == ident then Clipped(Upper(ident))
    else ident
  }

  /** upcase_identifier and downcase_identifier. */
  method Recase(ident: string, up: bool) returns (s: string)
    ensures s == Clipped(if up then Upper(ident) else Lower(ident))
  {
    var chars := new char[|ident| + 1];
    for i := 0 to |ident|
      invariant forall k :: 0 <= k < i ==> chars[k] == if up then ToUpper(ident[k]) else ToLower(ident[k])
    {
      chars[i] := if up then ToUpper(ident[i]) else ToLower(ident[i]);
    }
    chars[|ident|] := '\0';
    s := chars[..|ident|];
    assert s == if up then Upper(ident) else Lower(ident);
    if |s| >= NAMEDATALEN {
      s := s[..NAMEDATALEN - 1];
    }
  }

  method IdentifierCaseTransform(ident: string) returns (s: string)
    ensures s == Transformed(ident)
  {
    var upper := Recase(ident, true);
    var lower := Recase(ident, false);
    if upper == ident {
      s := lower;
    } else if lower == ident {
      s := upper;
    } else {
      s := ident;
    }
  }

  /** What the scanner delivers for a delimited identifier. */
  function Delivered(ident: string): string {
    Clipped(Transformed(ident))
  }

  /** The scanner's rule for delimited identifiers: flip, then truncate_identifier. */
  method ScanDelimited(ident: string) returns (s: string)
    ensures s == Delivered(ident)
  {
    s := IdentifierCaseTransform(ident);
    if |ident| >= NAMEDATALEN && |s| >= NAMEDATALEN {
      s := s[..NAMEDATALEN - 1];
    }
  }

  /** What the scanner delivers for a plain identifier: downcase_truncate_identifier. */
  method ScanPlain(ident: string) returns (s: string)
    ensures s == Clipped(Lower(ident))
  {
    s := Recase(ident, false);
  }

  // ------------------------------------------------------------- the handler

  /** isallupper and isalllower: no letter of the other case. */
  method AllUpper(s: string) returns (b: bool)
    ensures b <==> !HasLower(s)
  {
    for i := 0 to |s|
      invariant forall k :: 0 <= k < i ==> !IsLower(s[k])
    {
      if 'a' <= s[i] <= 'z' {
        return false;
      }
    }
    b := true;
  }

  method AllLower(s: string) returns (b: bool)
    ensures b <==> !HasUpper(s)
  {
    for i := 0 to |s|
      invariant forall k :: 0 <= k < i ==> !IsUpper(s[k])
    {
      if 'A' <= s[i] <= 'Z' {
        return false;
      }
    }
    b := true;
  }

  function Restored(s: string): (t: string)
    ensures |t| == |s|
  {
    if !HasLower(s) then Lower(s) else if !HasUpper(s) then Upper(s) else s
  }

  method RestoreAsIs(s: string) returns (t: string)
    ensures t == Restored(s)
  {
    var chars := new char[|s|](i requires 0 <= i < |s| => s[i]);
    assert chars[..|s|] == s;
    var upper := AllUpper(s);
    var lower := AllLower(s);
    NormalizeName(if upper then Lowercase else if lower then Uppercase else AsIs, chars, |s|);
    t := chars[..|s|];
    assert upper || lower || t == s;
  }

  lemma LowerIsIdentity(s: string)
    ensures Lower(s) == s <==> !HasUpper(s)
    ensures !HasUpper(Lower(s))
    ensures HasUpper(s) ==> HasLower(Lower(s))
  {
    if HasUpper(s) {
      var i :| 0 <= i < |s| && IsUpper(s[i]);
      assert Lower(s)[i] != s[i] && IsLower(Lower(s)[i]);
    }
  }

  lemma UpperIsIdentity(s: string)
    ensures Upper(s) == s <==> !HasLower(s)
    ensures !HasLower(Upper(s))
    ensures HasLower(s) ==> HasUpper(Upper(s))
  {
    if HasLower(s) {
      var i :| 0 <= i < |s| && IsLower(s[i]);
      assert Upper(s)[i] != s[i] && IsUpper(Upper(s)[i]);
    }
  }

  lemma FlipBack(s: string)
    ensures !HasLower(s) ==> Upper(Lower(s)) == s
    ensures !HasUpper(s) ==> Lower(Upper(s)) == s
  {
    assert forall i :: 0 <= i < |s| ==> (IsLower(s[i]) ==> HasLower(s)) && (IsUpper(s[i]) ==> HasUpper(s));
    assert !HasLower(s) ==> forall i :: 0 <= i < |s| ==> Upper(Lower(s))[i] == s[i];
    assert !HasUpper(s) ==> forall i :: 0 <= i < |s| ==> Lower(Upper(s))[i] == s[i];
  }

  /**
   * The handler restores a delimited identifier if and only if it is shorter
   * than NAMEDATALEN. Of a longer one it restores what PostgreSQL can store, if
   * and only if that part mixes cases or has no letters: a long name of one case
   * is passed on unflipped, and a long mixed one may be cut to a single case.
   */
  lemma RestoreInvertsTransform(ident: string)
    ensures Restored(Delivered(ident)) == ident <==> |ident| < NAMEDATALEN
    ensures Restored(Delivered(ident)) == Clipped(ident) <==>
      |ident| < NAMEDATALEN || (HasUpper(Clipped(ident)) <==> HasLower(Clipped(ident)))
  {
    LowerIsIdentity(ident);
    UpperIsIdentity(ident);
    FlipBack(ident);
    LowerIsIdentity(Clipped(ident));
    UpperIsIdentity(Clipped(ident));
  }

  /** A plain identifier, which Oracle stores in upper case, comes back in upper case as far as PostgreSQL can store it. */
  lemma PlainIsRestored(ident: string)
    ensures Restored(Clipped(Lower(ident))) == Clipped(Upper(ident))
  {
    var s := Clipped(ident);
    ClippedNormalized(Lowercase, ident);
    ClippedNormalized(Uppercase, ident);
    LowerIsIdentity(s);
    LowerIsIdentity(Lower(s));
    UpperIsIdentity(Lower(s));
    LowerThenUpper(s);
    if !HasLower(Lower(s)) {
      assert Upper(Lower(s)) == Lower(s);
    }
  }

  lemma LowerThenUpper(s: string)
    ensures Upper(Lower(s)) == Upper(s)
  {
  }

  // ----------------------------------------------------- primary-key lists

  function Quoted(name: string): string {
    "\"" + name + "\""
  }

  /** The JSON array text that is built up and then restored as a whole. */
  function KeyList(names: seq<string>): string {
    "[" + Joined(names) + "]"
  }

  function Joined(names: seq<string>): string {
    if names == [] then ""
    else if |names| == 1 then Quoted(names[0])
    else Quoted(names[0]) + "," + Joined(names[1..])
  }

  function RestoredEach(names: seq<string>): (r: seq<string>)
    ensures |r| == |names| && forall i :: 0 <= i < |r| ==> r[i] == Restored(names[i])
  {
    seq(|names|, i requires 0 <= i < |names| => Restored(names[i]))
  }

  predicate AnyUpper(names: seq<string>) {
    exists i :: 0 <= i < |names| && HasUpper(names[i])
  }

  predicate AnyLower(names: seq<string>) {
    exists i :: 0 <= i < |names| && HasLower(names[i])
  }

  /** All names with letters are of one kind: upper case, lower case, or mixed. */
  predicate OneCaseClass(names: seq<string>) {
    || !AnyLower(names)
    || !AnyUpper(names)
    || forall i :: 0 <= i < |names| ==> (HasUpper(names[i]) <==> HasLower(names[i]))
  }

  lemma ConcatCase(s: string, t: string)
    ensures HasUpper(s + t) <==> HasUpper(s) || HasUpper(t)
    ensures HasLower(s + t) <==> HasLower(s) || HasLower(t)
  {
    forall i | 0 <= i < |s| ensures (s + t)[i] == s[i] {
    }
    forall i | 0 <= i < |t| ensures (s + t)[|s| + i] == t[i] {
    }
  }

  lemma {:induction false} JoinedCase(names: seq<string>)
    ensures HasUpper(Joined(names)) <==> AnyUpper(names)
    ensures HasLower(Joined(names)) <==> AnyLower(names)
  {
    if names != [] {
      QuotedCase(names[0]);
      if |names| > 1 {
        JoinedCase(names[1..]);
        ConcatCase(Quoted(names[0]), ",");
        ConcatCase(Quoted(names[0]) + ",", Joined(names[1..]));
      }
      assert AnyUpper(names) <==> HasUpper(names[0]) || AnyUpper(names[1..]);
      assert AnyLower(names) <==> HasLower(names[0]) || AnyLower(names[1..]);
    }
  }

  lemma QuotedCase(name: string)
    ensures HasUpper(Quoted(name)) <==> HasUpper(name)
    ensures HasLower(Quoted(name)) <==> HasLower(name)
  {
    ConcatCase("\"", name);
    ConcatCase("\"" + name, "\"");
  }

  function NormalizedEach(strategy: Casing, names: seq<string>): (r: seq<string>)
    ensures |r| == |names| && forall i :: 0 <= i < |r| ==> r[i] == Normalized(strategy, names[i])
  {
    seq(|names|, i requires 0 <= i < |names| => Normalized(strategy, names[i]))
  }

  lemma {:induction false} NormalizedJoined(strategy: Casing, names: seq<string>)
    ensures Normalized(strategy, Joined(names)) == Joined(NormalizedEach(strategy, names))
  {
    if names != [] {
      var n := NormalizedEach(strategy, names);
      assert Normalized(strategy, Quoted(names[0])) == Quoted(n[0]);
      if |names| > 1 {
        NormalizedJoined(strategy, names[1..]);
        assert n[1..] == NormalizedEach(strategy, names[1..]);
        NormalizedConcat(strategy, Quoted(names[0]), ",");
        NormalizedConcat(strategy, Quoted(names[0]) + ",", Joined(names[1..]));
        assert Normalized(strategy, ",") == ",";
      }
    }
  }

  lemma {:induction false} JoinedIsInjective(a: seq<string>, b: seq<string>)
    requires |a| == |b| && forall i :: 0 <= i < |a| ==> |a[i]| == |b[i]|
    requires Joined(a) == Joined(b)
    ensures a == b
  {
    if a != [] {
      var n := |a[0]|;
      assert Joined(a)[1..n + 1] == a[0];
      assert Joined(b)[1..n + 1] == b[0];
      if |a| > 1 {
        assert Joined(a)[n + 3..] == Joined(a[1..]);
        assert Joined(b)[n + 3..] == Joined(b[1..]);
        JoinedIsInjective(a[1..], b[1..]);
        assert a == [a[0]] + a[1..] && b == [b[0]] + b[1..];
      }
    }
  }

  /** Restoring the whole key list is restoring each name, iff the names share one case class. */
  lemma KeyListRestores(names: seq<string>)
    ensures Restored(KeyList(names)) == KeyList(RestoredEach(names)) <==> OneCaseClass(names)
  {
    var list, each := KeyList(names), RestoredEach(names);
    JoinedCase(names);
    ConcatCase("[", Joined(names));
    ConcatCase("[" + Joined(names), "]");
    if !AnyLower(names) {
      KeyListNormalized(Lowercase, names);
      assert each == NormalizedEach(Lowercase, names);
    } else if !AnyUpper(names) {
      KeyListNormalized(Uppercase, names);
      NoUpperEach(names);
    } else {
      MixedEach(names);
      if list == KeyList(each) {
        assert list[1..|list| - 1] == Joined(names);
        assert KeyList(each)[1..|list| - 1] == Joined(each);
        JoinedIsInjective(names, each);
      }
    }
  }

  lemma KeyListNormalized(strategy: Casing, names: seq<string>)
    ensures Normalized(strategy, KeyList(names)) == KeyList(NormalizedEach(strategy, names))
  {
    NormalizedJoined(strategy, names);
    NormalizedConcat(strategy, "[", Joined(names));
    NormalizedConcat(strategy, "[" + Joined(names), "]");
    assert Normalized(strategy, "[") == "[" && Normalized(strategy, "]") == "]";
  }

  lemma NoUpperEach(names: seq<string>)
    requires !AnyUpper(names)
    ensures RestoredEach(names) == NormalizedEach(Uppercase, names)
  {
    forall i | 0 <= i < |names| ensures RestoredEach(names)[i] == Upper(names[i]) {
      assert !HasUpper(names[i]);
      LowerIsIdentity(names[i]);
      UpperIsIdentity(names[i]);
    }
  }

  lemma MixedEach(names: seq<string>)
    ensures RestoredEach(names) == names <==>
      forall i :: 0 <= i < |names| ==> (HasUpper(names[i]) <==> HasLower(names[i]))
  {
    forall i | 0 <= i < |names|
      ensures Restored(names[i]) == names[i] <==> (HasUpper(names[i]) <==> HasLower(names[i]))
    {
      LowerIsIdentity(names[i]);
      UpperIsIdentity(names[i]);
    }
    assert RestoredEach(names) == names ==> forall i :: 0 <= i < |names| ==> RestoredEach(names)[i] == names[i];
  }

  /** Keys ID and Name: the mixed list is left alone, although ID by itself would be restored to id. */
  lemma MixedKeysDiverge()
    ensures Restored(KeyList(["ID", "Name"])) != KeyList(RestoredEach(["ID", "Name"]))
  {
    var names := ["ID", "Name"];
    assert names[0] == "ID" && names[1] == "Name";
    assert IsUpper("ID"[0]) && !HasLower("ID");
    assert IsLower("Name"[1]);
    KeyListRestores(names);
  }

  /** Of a name of 64 capitals the first 63 reach the handler unflipped and are then flipped. */
  lemma LongNameIsFlipped()
    ensures var name := seq(64, i => 'A');
      Delivered(name) == seq(63, i => 'A') && Restored(Delivered(name)) == seq(63, i => 'a')
  {
    var name, cut := seq(64, i => 'A'), seq(63, i => 'A');
    assert Upper(name) == name && Lower(name)[0] != name[0];
    assert Transformed(name) == name && Clipped(name) == cut;
    assert !HasLower(cut) && Lower(cut) == seq(63, i => 'a');
  }

  /** So with 63 capitals and a b behind them, although that name has both cases. */
  lemma LongMixedNameIsFlipped()
    ensures var name := seq(63, i => 'A') + "b";
      Delivered(name) == seq(63, i => 'A') && Restored(Delivered(name)) == seq(63, i => 'a')
  {
    var cut := seq(63, i => 'A');
    var name := cut + "b";
    assert |Clipped(Upper(name))| < |name| && |Clipped(Lower(name))| < |name|;
    assert Transformed(name) == name && Clipped(name) == cut;
    assert !HasLower(cut) && Lower(cut) == seq(63, i => 'a');
  }
}

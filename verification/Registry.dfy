/**
 * The connector slots in shared memory (src/backend/synchdb/synchdb.c): handing
 * out a slot when a connector is started, looking one up by name, clearing one
 * when a connector is deleted.
 */
module Registry {

  import NR = NameResolution

  /** A slot; `free` is STATE_UNDEF. */
  datatype Slot = Slot(free: bool, name: string, dstdb: string)

  /** strcasecmp(a, b) == 0. */
  predicate SameText(a: string, b: string) {
    NR.Lower(a) == NR.Lower(b)
  }

  predicate SameName(x: Slot, name: string, dstdb: string) {
    SameText(x.name, name) && SameText(x.dstdb, dstdb)
  }

  predicate ExactName(x: Slot, name: string, dstdb: string) {
    x.name == name && x.dstdb == dstdb
  }

  predicate Unnamed(x: Slot) {
    x.free && x.name == "" && x.dstdb == ""
  }

  /** The least index where p holds, or -1. */
  function First(s: seq<Slot>, p: Slot -> bool): (i: int)
    ensures -1 <= i < |s|
    ensures i >= 0 ==> p(s[i]) && forall j :: 0 <= j < i ==> !p(s[j])
    ensures i == -1 ==> forall j :: 0 <= j < |s| ==> !p(s[j])
  {
    if s == [] then -1
    else
      var n := |s| - 1;
      var i := First(s[..n], p);
      if i >= 0 then i else if p(s[n]) then n else -1
  }

  function Assigned(s: seq<Slot>, name: string, dstdb: string): int {
    var same := First(s, (x: Slot) => SameName(x, name, dstdb));
    if same >= 0 then same
    else
      var unnamed := First(s, Unnamed);
      if unnamed >= 0 then unnamed else First(s, (x: Slot) => x.free)
  }

  function Found(s: seq<Slot>, name: string, dstdb: string): int {
    First(s, (x: Slot) => ExactName(x, name, dstdb))
  }

  // ------------------------------------------------------------------ operations

  /** Steps on the slots; workers come up and go down on their own. */
  datatype Op =
    | Start(name: string, dstdb: string)
    | WorkerUp(slot: nat)
    | WorkerExit(slot: nat)
    | Delete(name: string, dstdb: string)

  function Step(s: seq<Slot>, op: Op): (s': seq<Slot>)
    ensures |s'| == |s|
  {
    match op
    case Start(name, dstdb) =>
      var i := Assigned(s, name, dstdb);
      if i < 0 then s else s[i := Slot(s[i].free, name, dstdb)]
    case WorkerUp(i) => if i < |s| then s[i := s[i].(free := false)] else s
    case WorkerExit(i) => if i < |s| then s[i := s[i].(free := true)] else s
    case Delete(name, dstdb) =>
      var i := Found(s, name, dstdb);
      if i < 0 then s else s[i := Slot(true, "", "")]
  }

  class Slots {
    const connectors: array<Slot>

    constructor (max: nat)
      ensures connectors.Length == max && fresh(connectors)
      ensures forall i :: 0 <= i < max ==> connectors[i] == Slot(true, "", "")
    {
      connectors := new Slot[max](_ => Slot(true, "", ""));
    }

    /** assign_connector_id. */
    method AssignConnectorId(name: string, dstdb: string) returns (id: int)
      ensures id == Assigned(connectors[..], name, dstdb)
    {
      ghost var s := connectors[..];
      for i := 0 to connectors.Length
        invariant First(s[..i], (x: Slot) => SameName(x, name, dstdb)) == -1
      {
        assert s[..i + 1][..i] == s[..i];
        if SameName(connectors[i], name, dstdb) {
          FirstIs(s, i, (x: Slot) => SameName(x, name, dstdb));
          return i;
        }
      }
      assert s[..connectors.Length] == s;
      for i := 0 to connectors.Length
        invariant First(s[..i], Unnamed) == -1
      {
        assert s[..i + 1][..i] == s[..i];
        if Unnamed(connectors[i]) {
          FirstIs(s, i, Unnamed);
          return i;
        }
      }
      for i := 0 to connectors.Length
        invariant First(s[..i], (x: Slot) => x.free) == -1
      {
        assert s[..i + 1][..i] == s[..i];
        if connectors[i].free {
          FirstIs(s, i, (x: Slot) => x.free);
          return i;
        }
      }
      return -1;
    }

    /** get_shm_connector_id_by_name. */
    method IdByName(name: string, dstdb: string) returns (id: int)
      ensures id == Found(connectors[..], name, dstdb)
    {
      ghost var s := connectors[..];
      for i := 0 to connectors.Length
        invariant First(s[..i], (x: Slot) => ExactName(x, name, dstdb)) == -1
      {
        assert s[..i + 1][..i] == s[..i];
        if ExactName(connectors[i], name, dstdb) {
          FirstIs(s, i, (x: Slot) => ExactName(x, name, dstdb));
          return i;
        }
      }
      assert s[..connectors.Length] == s;
      return -1;
    }

    /** Starting a connector: the slot's connection information is overwritten. */
    method StartConnector(name: string, dstdb: string) returns (id: int)
      modifies connectors
      ensures id == Assigned(old(connectors[..]), name, dstdb)
      ensures connectors[..] == Step(old(connectors[..]), Start(name, dstdb))
    {
      id := AssignConnectorId(name, dstdb);
      if id >= 0 {
        connectors[id] := Slot(connectors[id].free, name, dstdb);
      }
    }

    /** Deleting a connector: the slot, if there is one, is wiped. */
    method DeleteConnector(name: string, dstdb: string)
      modifies connectors
      ensures connectors[..] == Step(old(connectors[..]), Delete(name, dstdb))
    {
      var id := IdByName(name, dstdb);
      if id >= 0 {
        connectors[id] := Slot(true, "", "");
      }
    }
  }

  lemma FirstIs(s: seq<Slot>, i: nat, p: Slot -> bool)
    requires i < |s| && First(s[..i], p) == -1 && p(s[i])
    ensures First(s, p) == i
  {
    forall j | 0 <= j < i ensures !p(s[j]) {
      assert s[..i][j] == s[j];
    }
  }

  // ------------------------------------------------------------------ properties

  /** Named slots differ in name or database, letter case aside. */
  ghost predicate Unique(s: seq<Slot>) {
    forall i, j :: 0 <= i < j < |s| && s[i].name != "" && s[j].name != "" ==> !SameName(s[i], s[j].name, s[j].dstdb)
  }

  /**
   * The slot handed out belongs to the same connector or is free, and -1 means
   * that there is no slot of either kind.
   */
  lemma AssignedIsOursOrFree(s: seq<Slot>, name: string, dstdb: string)
    ensures var i := Assigned(s, name, dstdb);
      && -1 <= i < |s|
      && (i >= 0 ==> SameName(s[i], name, dstdb) || s[i].free)
      && (i == -1 <==> forall j :: 0 <= j < |s| ==> !SameName(s[j], name, dstdb) && !s[j].free)
  {
  }

  /** A named free slot is taken only when there is no unnamed one. */
  lemma UnnamedFirst(s: seq<Slot>, name: string, dstdb: string)
    ensures var i := Assigned(s, name, dstdb);
      i >= 0 && !SameName(s[i], name, dstdb) && !Unnamed(s[i]) ==> forall j :: 0 <= j < |s| ==> !Unnamed(s[j])
  {
  }

  lemma EmptyIsAlone(a: string)
    ensures SameText(a, "") <==> a == ""
    ensures SameText("", a) <==> a == ""
  {
  }

  lemma StartKeepsUnique(s: seq<Slot>, name: string, dstdb: string)
    requires Unique(s) && name != ""
    ensures Unique(Step(s, Start(name, dstdb)))
  {
    var i := Assigned(s, name, dstdb);
    if i >= 0 {
      var s' := Step(s, Start(name, dstdb));
      forall j | 0 <= j < |s| && j != i && s[j].name != "" ensures !SameName(s[j], name, dstdb) {
        if SameName(s[i], name, dstdb) {
          EmptyIsAlone(name);
        }
      }
    }
  }

  lemma StepKeepsUnique(s: seq<Slot>, op: Op)
    requires Unique(s) && (op.Start? ==> op.name != "")
    ensures Unique(Step(s, op))
  {
    if op.Start? {
      StartKeepsUnique(s, op.name, op.dstdb);
    }
  }

  ghost function Run(s: seq<Slot>, ops: seq<Op>): seq<Slot> {
    if ops == [] then s else Step(Run(s, ops[..|ops| - 1]), ops[|ops| - 1])
  }

  /** Over every interleaving of starts, deletes and worker events. */
  lemma {:induction false} RunsStayUnique(s: seq<Slot>, ops: seq<Op>)
    requires Unique(s) && forall k :: 0 <= k < |ops| && ops[k].Start? ==> ops[k].name != ""
    ensures Unique(Run(s, ops))
  {
    if ops != [] {
      RunsStayUnique(s, ops[..|ops| - 1]);
      StepKeepsUnique(Run(s, ops[..|ops| - 1]), ops[|ops| - 1]);
    }
  }

  /** Right after a start the exact-name lookup returns the slot that was handed out. */
  lemma FoundAfterStart(s: seq<Slot>, name: string, dstdb: string)
    requires Unique(s) && name != "" && Assigned(s, name, dstdb) >= 0
    ensures Found(Step(s, Start(name, dstdb)), name, dstdb) == Assigned(s, name, dstdb)
  {
    StartKeepsUnique(s, name, dstdb);
  }

  /** Right after a delete the connector is not found any more, its slot is free, and all other slots are as before. */
  lemma GoneAfterDelete(s: seq<Slot>, name: string, dstdb: string)
    requires Unique(s) && name != ""
    ensures var i, s' := Found(s, name, dstdb), Step(s, Delete(name, dstdb));
      && Found(s', name, dstdb) == -1
      && (i >= 0 ==> Unnamed(s'[i])) && forall j :: 0 <= j < |s| && j != i ==> s'[j] == s[j]
  {
    var i, s' := Found(s, name, dstdb), Step(s, Delete(name, dstdb));
    forall j | 0 <= j < |s'| ensures !ExactName(s'[j], name, dstdb) {
      if i >= 0 && j != i && ExactName(s[j], name, dstdb) {
        assert SameName(s[i], s[j].name, s[j].dstdb) && SameName(s[j], s[i].name, s[i].dstdb);
      }
    }
  }

  /** A start would reuse a connector's slot; the lookup finds it if and only if the spelling is identical. */
  lemma LookupNeedsSpelling(s: seq<Slot>, i: nat, name: string, dstdb: string)
    requires Unique(s) && name != "" && i < |s| && SameName(s[i], name, dstdb)
    ensures Assigned(s, name, dstdb) == i
    ensures Found(s, name, dstdb) == i <==> ExactName(s[i], name, dstdb)
    ensures Found(s, name, dstdb) == -1 <==> !ExactName(s[i], name, dstdb)
  {
    EmptyIsAlone(name);
    forall j | 0 <= j < |s| && j != i ensures !SameName(s[j], name, dstdb) {
      EmptyIsAlone(name);
    }
  }
}

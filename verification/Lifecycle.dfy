/**
 * The life of one connector worker (src/backend/synchdb/synchdb.c): start-up,
 * requests posted by other sessions, the main loop, and the state changes that
 * Debezium events make (src/backend/converter/debezium_event_handler.c).
 * Outcomes of calls into the JVM, foreign data wrappers and sockets are inputs;
 * an error raised by any of them ends the worker, so only steps that return
 * are described.
 */
module Lifecycle {

  import opened Wrappers

  // ------------------------------------------------------------- vocabulary

  const STATE_UNDEF := 0
  const STATE_STOPPED := 1
  const STATE_PAUSED := 3
  const STATE_SYNCING := 4
  const STATE_PARSING := 5
  const STATE_CONVERTING := 6
  const STATE_EXECUTING := 7
  const STATE_OFFSET_UPDATE := 8
  const STATE_RESTARTING := 9
  const STATE_MEMDUMP := 10
  const STATE_SCHEMA_SYNC_DONE := 11
  const STATE_RELOAD_OBJMAP := 12
  const STATE_DBZ_LOGLEVEL_UPDATE := 13

  datatype Kind = MySql | Oracle | SqlServer | Olr | Postgres
  datatype Engine = Debezium | Fdw

  // Connector flags. The macros are 1 << 0, 1 << 1 and 1 << 2, without parentheses.

  predicate SchemaSync(flag: bv32) {
    flag & 1 != 0
  }

  predicate NoCdc(flag: bv32) {
    flag & 2 != 0
  }

  predicate Initial(flag: bv32) {
    flag & 4 != 0
  }

  predicate Snapshotting(flag: bv32) {
    SchemaSync(flag) || Initial(flag)
  }

  /** flag &= ~1 << 0. */
  function ClearSchemaSync(flag: bv32): bv32 {
    flag & 0xFFFF_FFFE
  }

  /** flag &= ~1 << 2: the complement is taken before the shift, so all three low bits go. */
  function ClearInitial(flag: bv32): bv32 {
    flag & 0xFFFF_FFF8
  }

  const ONE: bv32 := 1

  /** The masks here are what the macros expand to. */
  lemma MacrosExpand()
    ensures ONE << 0 == 1 && ONE << 1 == 2 && ONE << 2 == 4
    ensures (!ONE) << 0 == 0xFFFF_FFFE && (!ONE) << 2 == 0xFFFF_FFF8
  {
  }

  predicate OnlyCleared(flag': bv32, flag: bv32) {
    flag' & flag == flag'
  }

  lemma OtherBitsStay(flag: bv32)
    ensures ClearSchemaSync(flag) & 2 == flag & 2 && ClearSchemaSync(flag) & 4 == flag & 4
  {
  }

  lemma SchemaSyncGoes(flag: bv32)
    ensures !SchemaSync(ClearSchemaSync(flag)) && OnlyCleared(ClearSchemaSync(flag), flag)
  {
  }

  lemma ClearSchemaSyncMeans(flag: bv32)
    ensures !SchemaSync(ClearSchemaSync(flag)) && OnlyCleared(ClearSchemaSync(flag), flag)
    ensures NoCdc(ClearSchemaSync(flag)) == NoCdc(flag) && Initial(ClearSchemaSync(flag)) == Initial(flag)
  {
    SchemaSyncGoes(flag);
    OtherBitsStay(flag);
  }

  lemma ClearInitialMeans(flag: bv32)
    ensures !Initial(ClearInitial(flag)) && !NoCdc(ClearInitial(flag)) && !SchemaSync(ClearInitial(flag))
    ensures OnlyCleared(ClearInitial(flag), flag)
  {
  }

  lemma ClearedMeans(flag': bv32, flag: bv32)
    requires OnlyCleared(flag', flag)
    ensures SchemaSync(flag') ==> SchemaSync(flag)
    ensures NoCdc(flag') ==> NoCdc(flag)
    ensures Initial(flag') ==> Initial(flag)
  {
  }

  lemma ClearedTwice(flag'': bv32, flag': bv32, flag: bv32)
    requires OnlyCleared(flag'', flag') && OnlyCleared(flag', flag)
    ensures OnlyCleared(flag'', flag)
  {
  }

  // ------------------------------------------------------- inputs of one turn

  /** What one Debezium event does: skipped before any state change, failed, or applied. */
  datatype Event = Skipped | Failed | Applied(lastOfSnapshot: bool)

  datatype SnapshotResult = Complete | TablesFailed | NoResult

  /** Everything a turn of the loop learns from outside. */
  datatype Input = Input(
    posted: int, stopOk: bool, startOk: bool, offsetOk: bool,
    events: seq<Event>, exitMessage: bool, snapshot: SnapshotResult)

  datatype View = View(state: int, request: int, flag: bv32, engine: Engine, exiting: bool, launches: nat)

  // ------------------------------------------------------------ specification

  ghost function Answer(v: View, kind: Kind, i: Input): int {
    if v.request == STATE_PAUSED && v.state == STATE_SYNCING then
      if kind.Olr? || i.stopOk then STATE_PAUSED else STATE_SYNCING
    else if v.request == STATE_SYNCING && v.state == STATE_PAUSED then
      if !kind.Olr? && (v.engine.Debezium? || !Snapshotting(v.flag)) && !i.startOk then STATE_PAUSED else STATE_SYNCING
    else if v.request == STATE_RESTARTING && v.state == STATE_SYNCING then
      if kind.Olr? || !i.stopOk || i.startOk then STATE_SYNCING else STATE_STOPPED
    else v.state
  }

  ghost function Requested(v: View, kind: Kind, i: Input): View {
    if v.request == STATE_UNDEF then v else v.(state := Answer(v, kind, i), request := STATE_UNDEF)
  }

  ghost function AfterEvents(state: int, snapshot: bool, events: seq<Event>): int {
    if events == [] then state
    else
      var e := events[|events| - 1];
      if e.Skipped? then AfterEvents(state, snapshot, events[..|events| - 1])
      else if e.Applied? && e.lastOfSnapshot && snapshot then STATE_SCHEMA_SYNC_DONE
      else STATE_SYNCING
  }

  ghost function AfterSnapshot(r: SnapshotResult): int {
    if r.Complete? then STATE_SCHEMA_SYNC_DONE else STATE_PAUSED
  }

  ghost function Launched(v: View, i: Input): View {
    v.(state := AfterSnapshot(i.snapshot), launches := v.launches + 1)
  }

  ghost function Received(v: View, i: Input): View {
    v.(state := AfterEvents(v.state, Snapshotting(v.flag), i.events), exiting := v.exiting || i.exitMessage)
  }

  ghost function Polled(v: View, kind: Kind, i: Input): View {
    if kind.SqlServer? then Received(v.(engine := Debezium), i)
    else if kind.Olr? then
      if !Snapshotting(v.flag) then v.(exiting := v.exiting || NoCdc(v.flag))
      else if v.engine.Debezium? then Received(v, i)
      else Launched(v, i)
    else if Snapshotting(v.flag) && v.engine.Fdw? then Launched(v, i)
    else
      var r := Received(v, i);
      if kind.Postgres? && SchemaSync(v.flag) then r.(state := STATE_SCHEMA_SYNC_DONE) else r
  }

  ghost function Finished(v: View): View {
    if SchemaSync(v.flag) then
      var flag := ClearSchemaSync(v.flag);
      v.(state := STATE_PAUSED, flag := if Initial(flag) then ClearInitial(flag) else flag)
    else if Initial(v.flag) then v.(state := STATE_SYNCING, flag := ClearInitial(v.flag))
    else v
  }

  ghost function Turn(v: View, kind: Kind, i: Input): View {
    var p := if v.request == STATE_UNDEF then v.(request := i.posted) else v;
    var r := Requested(p, kind, i);
    if r.state == STATE_SYNCING then Polled(r, kind, i)
    else if r.state == STATE_SCHEMA_SYNC_DONE then Finished(r)
    else r
  }

  /** The loop: every input one turn, until an exit signal. */
  ghost function Run(v: View, kind: Kind, inputs: seq<Input>): View {
    if inputs == [] then v
    else
      var w := Run(v, kind, inputs[..|inputs| - 1]);
      if w.exiting then w else Turn(w, kind, inputs[|inputs| - 1])
  }

  // ------------------------------------------------------------ the worker

  class Connector {
    const kind: Kind
    var state: int
    var request: int
    var flag: bv32
    var engine: Engine
    var exiting: bool
    ghost var launches: nat

    ghost function V(): View
      reads this
    {
      View(state, request, flag, engine, exiting, launches)
    }

    /** processRequestInterrupt. */
    method ProcessRequest(i: Input)
      modifies this
      ensures V() == Requested(old(V()), kind, i)
    {
      if request == STATE_UNDEF {
        return;
      }
      var req, curr := request, state;
      if req == STATE_PAUSED && curr == STATE_SYNCING {
        if !kind.Olr? && !i.stopOk {
          request := STATE_UNDEF;
          return;
        }
        state := STATE_PAUSED;
      } else if req == STATE_SYNCING && curr == STATE_PAUSED {
        if !kind.Olr? && (engine == Debezium || flag & (1 | 4) == 0) {
          FlagsTogether(flag);
          if !i.startOk {
            request := STATE_UNDEF;
            return;
          }
        }
        FlagsTogether(flag);
        state := STATE_SYNCING;
      } else if req == STATE_OFFSET_UPDATE && curr == STATE_PAUSED {
        state := STATE_OFFSET_UPDATE;
        if !i.offsetOk {
          request := STATE_UNDEF;
          state := STATE_PAUSED;
          return;
        }
        state := STATE_PAUSED;
      } else if req == STATE_RESTARTING && curr == STATE_SYNCING {
        Restart(i);
      } else if req == STATE_MEMDUMP || req == STATE_RELOAD_OBJMAP || req == STATE_DBZ_LOGLEVEL_UPDATE {
        var oldState := state;
        state := req;
        state := oldState;
      }
      request := STATE_UNDEF;
    }

    method Restart(i: Input)
      modifies this`state
      ensures state == if kind.Olr? || !i.stopOk || i.startOk then STATE_SYNCING else STATE_STOPPED
    {
      state := STATE_RESTARTING;
      if !kind.Olr? && i.stopOk && !i.startOk {
        state := STATE_STOPPED;
      } else {
        state := STATE_SYNCING;
      }
    }

    /** The state changes of fc_processDBZChangeEvent. */
    method ProcessEvent(e: Event)
      modifies this`state
      ensures state == if e.Skipped? then old(state)
        else if e.Applied? && e.lastOfSnapshot && Snapshotting(flag) then STATE_SCHEMA_SYNC_DONE
        else STATE_SYNCING
    {
      if e.Skipped? {
        return;
      }
      state := STATE_PARSING;
      state := STATE_CONVERTING;
      state := STATE_EXECUTING;
      if e.Failed? {
        state := STATE_SYNCING;
      } else {
        state := if e.lastOfSnapshot && (SchemaSync(flag) || Initial(flag)) then STATE_SCHEMA_SYNC_DONE else STATE_SYNCING;
      }
    }

    /** dbz_engine_get_change: a batch of events, or a completion message. */
    method GetChange(i: Input)
      modifies this`state, this`exiting
      ensures V() == Received(old(V()), i)
    {
      for k := 0 to |i.events|
        invariant state == AfterEvents(old(state), Snapshotting(flag), i.events[..k]) && exiting == old(exiting)
      {
        assert i.events[..k + 1][..k] == i.events[..k];
        ProcessEvent(i.events[k]);
      }
      assert i.events[..|i.events|] == i.events;
      if i.exitMessage {
        exiting := true;
      }
    }

    /** launch_fdw_based_snapshot. */
    method LaunchSnapshot(i: Input)
      modifies this`state, this`launches
      ensures V() == Launched(old(V()), i)
    {
      launches := launches + 1;
      if i.snapshot.Complete? {
        state := STATE_SCHEMA_SYNC_DONE;
      } else {
        state := STATE_PAUSED;
      }
    }

    method Poll(i: Input)
      modifies this
      ensures V() == Polled(old(V()), kind, i)
    {
      if kind == SqlServer {
        if engine == Fdw {
          engine := Debezium;
        }
        GetChange(i);
      } else if kind == Olr {
        if SchemaSync(flag) || Initial(flag) {
          if engine == Debezium {
            GetChange(i);
          } else {
            LaunchSnapshot(i);
          }
        } else if NoCdc(flag) {
          exiting := true;
        }
      } else if (SchemaSync(flag) || Initial(flag)) && engine == Fdw {
        LaunchSnapshot(i);
      } else {
        GetChange(i);
        if kind == Postgres && SchemaSync(flag) {
          state := STATE_SCHEMA_SYNC_DONE;
        }
      }
    }

    /** The STATE_SCHEMA_SYNC_DONE case of the main loop. */
    method FinishSnapshot()
      modifies this`state, this`flag
      ensures V() == Finished(old(V()))
    {
      if SchemaSync(flag) {
        flag := ClearSchemaSync(flag);
        state := STATE_PAUSED;
        if Initial(flag) {
          flag := ClearInitial(flag);
        }
      } else if Initial(flag) {
        flag := ClearInitial(flag);
        state := STATE_SYNCING;
      }
    }

    method Iterate(i: Input)
      modifies this
      ensures V() == Turn(old(V()), kind, i)
    {
      if request == STATE_UNDEF {
        request := i.posted;
      }
      ProcessRequest(i);
      if state == STATE_SYNCING {
        Poll(i);
      } else if state == STATE_SCHEMA_SYNC_DONE {
        FinishSnapshot();
      }
    }

    /** main_loop over the inputs of all its turns. */
    method MainLoop(inputs: seq<Input>)
      modifies this
      ensures V() == Run(old(V()), kind, inputs)
    {
      for k := 0 to |inputs|
        invariant V() == Run(old(V()), kind, inputs[..k])
      {
        assert inputs[..k + 1][..k] == inputs[..k];
        if !exiting {
          Iterate(inputs[k]);
        }
      }
      assert inputs[..|inputs|] == inputs;
    }
  }

  lemma FlagsTogether(flag: bv32)
    ensures flag & (1 | 4) == 0 <==> !Snapshotting(flag)
  {
  }

  // --------------------------------------------------------------- every turn

  predicate HeadState(state: int) {
    state == STATE_SYNCING || state == STATE_PAUSED || state == STATE_SCHEMA_SYNC_DONE || state == STATE_STOPPED
  }

  /** What holds whenever the loop begins a turn. */
  ghost predicate AtHead(v: View) {
    HeadState(v.state) && (v.state == STATE_SCHEMA_SYNC_DONE ==> Snapshotting(v.flag))
  }

  lemma {:induction false} AfterEventsState(snapshot: bool, events: seq<Event>)
    ensures AfterEvents(STATE_SYNCING, snapshot, events) in {STATE_SYNCING, STATE_SCHEMA_SYNC_DONE}
    ensures AfterEvents(STATE_SYNCING, snapshot, events) == STATE_SCHEMA_SYNC_DONE ==> snapshot
  {
    if events != [] {
      AfterEventsState(snapshot, events[..|events| - 1]);
    }
  }

  lemma FinishedMeans(v: View)
    requires Snapshotting(v.flag)
    ensures !Snapshotting(Finished(v).flag) && OnlyCleared(Finished(v).flag, v.flag)
    ensures Finished(v).state == if SchemaSync(v.flag) then STATE_PAUSED else STATE_SYNCING
    ensures NoCdc(Finished(v).flag) <==> NoCdc(v.flag) && !Initial(v.flag)
    ensures Finished(v) == v.(state := Finished(v).state, flag := Finished(v).flag)
  {
    ClearSchemaSyncMeans(v.flag);
    ClearInitialMeans(v.flag);
    ClearInitialMeans(ClearSchemaSync(v.flag));
    ClearedTwice(ClearInitial(ClearSchemaSync(v.flag)), ClearSchemaSync(v.flag), v.flag);
  }

  lemma Unchanged(flag: bv32)
    ensures OnlyCleared(flag, flag)
  {
  }

  /** What a turn that polls keeps: the flags, and the loop-head condition. */
  lemma PolledMeans(v: View, kind: Kind, i: Input)
    requires v.state == STATE_SYNCING
    ensures AtHead(Polled(v, kind, i)) && Polled(v, kind, i).flag == v.flag && Polled(v, kind, i).request == v.request
    ensures !Snapshotting(v.flag) ==>
      Polled(v, kind, i).state == STATE_SYNCING && Polled(v, kind, i).launches == v.launches
  {
    AfterEventsState(Snapshotting(v.flag), i.events);
  }

  /** A turn ends with the slot empty, at a loop-head state, with flags at most cleared. */
  lemma TurnKeeps(v: View, kind: Kind, i: Input)
    requires AtHead(v)
    ensures var w := Turn(v, kind, i);
      AtHead(w) && w.request == STATE_UNDEF && OnlyCleared(w.flag, v.flag)
  {
    var r := Requested(v.(request := Pending(v, i)), kind, i);
    RequestKeeps(v, kind, i);
    TurnOf(v, kind, i);
    Unchanged(v.flag);
    if r.state == STATE_SYNCING {
      PolledMeans(r, kind, i);
    } else if r.state == STATE_SCHEMA_SYNC_DONE {
      FinishedKeeps(r);
    }
  }

  lemma FinishedKeeps(v: View)
    requires Snapshotting(v.flag)
    ensures var w := Finished(v);
      AtHead(w) && w.request == v.request && OnlyCleared(w.flag, v.flag)
  {
    FinishedMeans(v);
  }

  lemma RequestKeeps(v: View, kind: Kind, i: Input)
    requires AtHead(v)
    ensures var r := Requested(v.(request := Pending(v, i)), kind, i);
      AtHead(r) && r == v.(state := r.state, request := STATE_UNDEF)
  {
    AnswerMeans(v, kind, i);
  }

  /** STATE_SCHEMA_SYNC_DONE is left in one turn, whatever is requested, and ends the snapshot. */
  lemma DoneIsLeft(v: View, kind: Kind, i: Input)
    requires AtHead(v) && v.state == STATE_SCHEMA_SYNC_DONE
    ensures var w := Turn(v, kind, i);
      && w.state == (if SchemaSync(v.flag) then STATE_PAUSED else STATE_SYNCING)
      && !Snapshotting(w.flag) && w.launches == v.launches
      && (NoCdc(w.flag) <==> NoCdc(v.flag) && !Initial(v.flag))
  {
    var r := v.(request := STATE_UNDEF);
    TurnWhenDone(v, kind, i);
    FinishedMeans(r);
  }

  lemma TurnWhenDone(v: View, kind: Kind, i: Input)
    requires v.state == STATE_SCHEMA_SYNC_DONE
    ensures Turn(v, kind, i) == Finished(v.(request := STATE_UNDEF))
  {
    var p := if v.request == STATE_UNDEF then v.(request := i.posted) else v;
    assert Requested(p, kind, i) == v.(request := STATE_UNDEF);
  }

  /** Flags change in that state only. */
  lemma FlagsChangeWhenDone(v: View, kind: Kind, i: Input)
    requires AtHead(v) && v.state != STATE_SCHEMA_SYNC_DONE
    ensures Turn(v, kind, i).flag == v.flag
  {
    var p := if v.request == STATE_UNDEF then v.(request := i.posted) else v;
    var r := Requested(p, kind, i);
    if r.state == STATE_SYNCING {
      PolledMeans(r, kind, i);
    }
  }

  // ---------------------------------------------------------------- every run

  /** At every loop head of every run. */
  lemma {:induction false} RunsKeep(v: View, kind: Kind, inputs: seq<Input>)
    requires AtHead(v)
    ensures AtHead(Run(v, kind, inputs))
    ensures inputs != [] && !v.exiting ==> Run(v, kind, inputs).request == STATE_UNDEF
  {
    if inputs != [] {
      var k := |inputs| - 1;
      RunsKeep(v, kind, inputs[..k]);
      TurnKeeps(Run(v, kind, inputs[..k]), kind, inputs[k]);
    }
  }

  /** No turn of the loop ever sets a flag. */
  lemma {:induction false} FlagsOnlyCleared(v: View, kind: Kind, inputs: seq<Input>)
    requires AtHead(v)
    ensures OnlyCleared(Run(v, kind, inputs).flag, v.flag)
  {
    if inputs == [] {
      Unchanged(v.flag);
    } else {
      var k := |inputs| - 1;
      var w := Run(v, kind, inputs[..k]);
      RunsKeep(v, kind, inputs[..k]);
      FlagsOnlyCleared(v, kind, inputs[..k]);
      TurnKeeps(w, kind, inputs[k]);
      ClearedTwice(Turn(w, kind, inputs[k]).flag, w.flag, v.flag);
    }
  }

  lemma {:induction false} StoppedForGood(v: View, kind: Kind, inputs: seq<Input>)
    requires v.state == STATE_STOPPED
    ensures Run(v, kind, inputs).state == STATE_STOPPED
  {
    if inputs != [] {
      StoppedForGood(v, kind, inputs[..|inputs| - 1]);
      StoppedTurn(Run(v, kind, inputs[..|inputs| - 1]), kind, inputs[|inputs| - 1]);
    }
  }

  lemma StoppedTurn(v: View, kind: Kind, i: Input)
    requires v.state == STATE_STOPPED
    ensures Turn(v, kind, i).state == STATE_STOPPED
  {
    var p := if v.request == STATE_UNDEF then v.(request := i.posted) else v;
    assert Requested(p, kind, i).state == STATE_STOPPED;
  }

  /** Once both snapshot flags are clear, no snapshot is launched and none completes. */
  lemma {:induction false} NoMoreSnapshots(v: View, kind: Kind, inputs: seq<Input>)
    requires AtHead(v) && !Snapshotting(v.flag)
    ensures var w := Run(v, kind, inputs);
      AtHead(w) && w.flag == v.flag && w.launches == v.launches && w.state != STATE_SCHEMA_SYNC_DONE
  {
    if inputs != [] {
      var k := |inputs| - 1;
      var w := Run(v, kind, inputs[..k]);
      NoMoreSnapshots(v, kind, inputs[..k]);
      if !w.exiting {
        TurnKeeps(w, kind, inputs[k]);
        FlagsChangeWhenDone(w, kind, inputs[k]);
        NoLaunch(w, kind, inputs[k]);
      }
    }
  }

  lemma NoLaunch(v: View, kind: Kind, i: Input)
    requires AtHead(v) && !Snapshotting(v.flag)
    ensures Turn(v, kind, i).launches == v.launches
  {
    var p := if v.request == STATE_UNDEF then v.(request := i.posted) else v;
    var r := Requested(p, kind, i);
    if r.state == STATE_SYNCING {
      PolledMeans(r, kind, i);
    }
  }

  lemma {:induction false} RunSplits(v: View, kind: Kind, a: seq<Input>, b: seq<Input>)
    ensures Run(v, kind, a + b) == Run(Run(v, kind, a), kind, b)
  {
    if b == [] {
      assert a + b == a;
    } else {
      var k := |b| - 1;
      assert (a + b)[..|a + b| - 1] == a + b[..k];
      RunSplits(v, kind, a, b[..k]);
    }
  }

  /** A run passes through STATE_SCHEMA_SYNC_DONE at most once. */
  lemma SnapshotEndsOnce(v: View, kind: Kind, before: seq<Input>, turn: Input, rest: seq<Input>)
    requires AtHead(v) && !Run(v, kind, before).exiting
    requires Run(v, kind, before).state == STATE_SCHEMA_SYNC_DONE
    ensures var w := Run(v, kind, before + [turn] + rest);
      w.state != STATE_SCHEMA_SYNC_DONE && w.launches == Run(v, kind, before).launches && !Snapshotting(w.flag)
  {
    RunsKeep(v, kind, before);
    var d := Run(v, kind, before);
    DoneIsLeft(d, kind, turn);
    RunSplits(v, kind, before + [turn], rest);
    assert (before + [turn])[..|before|] == before;
    TurnKeeps(d, kind, turn);
    NoMoreSnapshots(Turn(d, kind, turn), kind, rest);
  }

  // ---------------------------------------------------------------- batches

  /** The last event of the batch that touches the state is event k, and it ends the snapshot. */
  ghost predicate EndsWithLast(events: seq<Event>, k: int) {
    0 <= k < |events| && events[k] == Applied(true) && forall j :: k < j < |events| ==> events[j] == Skipped
  }

  /**
   * A batch ends in STATE_SCHEMA_SYNC_DONE if and only if a snapshot flag is set
   * and the last event that touches the state is an applied last snapshot event:
   * any later event of the same batch hides the end of the snapshot.
   */
  lemma {:induction false} BatchCompletes(snapshot: bool, events: seq<Event>)
    ensures AfterEvents(STATE_SYNCING, snapshot, events) == STATE_SCHEMA_SYNC_DONE <==>
      snapshot && exists k :: EndsWithLast(events, k)
  {
    if events != [] {
      var n := |events| - 1;
      BatchCompletes(snapshot, events[..n]);
      if events[n] == Skipped {
        if k :| EndsWithLast(events[..n], k) {
          assert EndsWithLast(events, k);
        }
        if k :| EndsWithLast(events, k) {
          assert EndsWithLast(events[..n], k);
        }
      } else if events[n] == Applied(true) {
        assert EndsWithLast(events, n);
      } else {
        forall k ensures !EndsWithLast(events, k) {
        }
      }
    }
  }

  /** A last snapshot event followed by an ordinary one leaves the snapshot unfinished. */
  lemma HiddenCompletion()
    ensures AfterEvents(STATE_SYNCING, true, [Applied(true), Applied(false)]) == STATE_SYNCING
  {
  }

  // --------------------------------------------------------------- requests

  /** The request that a turn answers. */
  ghost function Pending(v: View, i: Input): int {
    if v.request == STATE_UNDEF then i.posted else v.request
  }

  /** A paused connector stays as it is, over every run, until it is asked to resume. */
  lemma {:induction false} PausedUntilResumed(v: View, kind: Kind, inputs: seq<Input>)
    requires v.state == STATE_PAUSED && v.request == STATE_UNDEF
    requires forall k :: 0 <= k < |inputs| ==> inputs[k].posted != STATE_SYNCING
    ensures Run(v, kind, inputs) == v
  {
    if inputs != [] {
      var k := |inputs| - 1;
      PausedUntilResumed(v, kind, inputs[..k]);
      assert inputs[k].posted != STATE_SYNCING;
    }
  }

  lemma PollingNeverStops(v: View, kind: Kind, i: Input)
    requires v.state == STATE_SYNCING
    ensures Polled(v, kind, i).state != STATE_STOPPED
  {
    AfterEventsState(Snapshotting(v.flag), i.events);
  }

  lemma AnswerStops(v: View, kind: Kind, i: Input)
    ensures Answer(v, kind, i) == STATE_STOPPED <==>
      || v.state == STATE_STOPPED
      || (v.state == STATE_SYNCING && v.request == STATE_RESTARTING && !kind.Olr? && i.stopOk && !i.startOk)
  {
  }

  /** A turn ends in STATE_STOPPED exactly when it began there or a restart could stop but not start the engine. */
  lemma StoppedBy(v: View, kind: Kind, i: Input)
    requires AtHead(v)
    ensures Turn(v, kind, i).state == STATE_STOPPED <==>
      || v.state == STATE_STOPPED
      || (v.state == STATE_SYNCING && Pending(v, i) == STATE_RESTARTING && !kind.Olr? && i.stopOk && !i.startOk)
  {
    var p := v.(request := Pending(v, i));
    var r := Requested(p, kind, i);
    AnswerStops(p, kind, i);
    if r.state == STATE_SYNCING {
      PollingNeverStops(r, kind, i);
    } else if r.state == STATE_SCHEMA_SYNC_DONE {
      FinishedMeans(r);
    }
  }

  /** A pause request takes a syncing connector out of it, if the engine can be stopped. */
  ghost predicate Pauses(v: View, kind: Kind, i: Input) {
    v.state == STATE_SYNCING && Pending(v, i) == STATE_PAUSED && (kind.Olr? || i.stopOk)
  }

  /** A resume request brings a paused connector back, if the engine, where it is wanted, can be started. */
  ghost predicate Resumes(v: View, kind: Kind, i: Input) {
    v.state == STATE_PAUSED && Pending(v, i) == STATE_SYNCING &&
    (kind.Olr? || i.startOk || (v.engine.Fdw? && Snapshotting(v.flag)))
  }

  /** A restart that could stop the engine but not start it again. */
  ghost predicate Breaks(v: View, kind: Kind, i: Input) {
    v.state == STATE_SYNCING && Pending(v, i) == STATE_RESTARTING && !kind.Olr? && i.stopOk && !i.startOk
  }

  /** The turn asks the source for changes. */
  ghost predicate Polls(v: View, kind: Kind, i: Input) {
    Resumes(v, kind, i) || (v.state == STATE_SYNCING && !Pauses(v, kind, i) && !Breaks(v, kind, i))
  }

  /** It does so by a snapshot through foreign data wrappers. */
  ghost predicate Launches(v: View, kind: Kind, i: Input) {
    Polls(v, kind, i) && Snapshotting(v.flag) && v.engine.Fdw? && !kind.SqlServer?
  }

  /** It does so through Debezium. */
  ghost predicate Receives(v: View, kind: Kind, i: Input) {
    Polls(v, kind, i) && !Launches(v, kind, i) && (kind.Olr? ==> Snapshotting(v.flag))
  }

  lemma AnswerMeans(v: View, kind: Kind, i: Input)
    ensures var p := v.(request := Pending(v, i));
      Requested(p, kind, i) == v.(request := STATE_UNDEF, state :=
        if Pauses(v, kind, i) then STATE_PAUSED
        else if Resumes(v, kind, i) then STATE_SYNCING
        else if Breaks(v, kind, i) then STATE_STOPPED
        else v.state)
  {
  }

  lemma TurnOf(v: View, kind: Kind, i: Input)
    ensures var r := Requested(v.(request := Pending(v, i)), kind, i);
      && Turn(v, kind, i) ==
        (if r.state == STATE_SYNCING then Polled(r, kind, i) else if r.state == STATE_SCHEMA_SYNC_DONE then Finished(r) else r)
      && (r.state == STATE_SYNCING <==> Polls(v, kind, i))
  {
    AnswerMeans(v, kind, i);
  }

  /** A turn launches a snapshot exactly when it polls with a snapshot flag, through foreign data wrappers, and not for SQL Server. */
  lemma LaunchedBy(v: View, kind: Kind, i: Input)
    requires AtHead(v)
    ensures Turn(v, kind, i).launches == v.launches + if Launches(v, kind, i) then 1 else 0
  {
    TurnOf(v, kind, i);
    AnswerMeans(v, kind, i);
  }

  /** The exit signal comes from a completion message, or from an OLR connector that has nothing to do without CDC. */
  lemma ExitsBy(v: View, kind: Kind, i: Input)
    requires AtHead(v)
    ensures Turn(v, kind, i).exiting <==>
      || v.exiting
      || (Receives(v, kind, i) && i.exitMessage)
      || (Polls(v, kind, i) && kind.Olr? && !Snapshotting(v.flag) && NoCdc(v.flag))
  {
    TurnOf(v, kind, i);
    AnswerMeans(v, kind, i);
  }

  lemma PolledState(v: View, kind: Kind, i: Input)
    requires v.state == STATE_SYNCING
    ensures var w, launch := Polled(v, kind, i), Snapshotting(v.flag) && v.engine.Fdw? && !kind.SqlServer?;
      && (w.state == STATE_PAUSED <==> launch && !i.snapshot.Complete?)
      && (w.state == STATE_SCHEMA_SYNC_DONE <==>
        if launch then i.snapshot.Complete?
        else Snapshotting(v.flag) && ((kind.Postgres? && SchemaSync(v.flag)) || exists k :: EndsWithLast(i.events, k)))
  {
    AfterEventsState(Snapshotting(v.flag), i.events);
    BatchCompletes(Snapshotting(v.flag), i.events);
  }

  /** A turn ends paused by a pause request, a failed snapshot, the end of a schema sync, or for want of a resume. */
  lemma PausedBy(v: View, kind: Kind, i: Input)
    requires AtHead(v)
    ensures Turn(v, kind, i).state == STATE_PAUSED <==>
      || Pauses(v, kind, i)
      || (v.state == STATE_PAUSED && !Resumes(v, kind, i))
      || (Launches(v, kind, i) && !i.snapshot.Complete?)
      || (v.state == STATE_SCHEMA_SYNC_DONE && SchemaSync(v.flag))
  {
    var r := Requested(v.(request := Pending(v, i)), kind, i);
    TurnOf(v, kind, i);
    AnswerMeans(v, kind, i);
    if r.state == STATE_SYNCING {
      PolledState(r, kind, i);
    } else if r.state == STATE_SCHEMA_SYNC_DONE {
      FinishedMeans(r);
    }
  }

  /** A snapshot is done when its launch completes, or its last event ends the batch; a Postgres schema sync at once. */
  lemma DoneBy(v: View, kind: Kind, i: Input)
    requires AtHead(v)
    ensures Turn(v, kind, i).state == STATE_SCHEMA_SYNC_DONE <==>
      || (Launches(v, kind, i) && i.snapshot.Complete?)
      || (Receives(v, kind, i) && kind.Postgres? && SchemaSync(v.flag))
      || (Receives(v, kind, i) && Snapshotting(v.flag) && exists k :: EndsWithLast(i.events, k))
  {
    var r := Requested(v.(request := Pending(v, i)), kind, i);
    TurnOf(v, kind, i);
    AnswerMeans(v, kind, i);
    if r.state == STATE_SYNCING {
      PolledState(r, kind, i);
    } else if r.state == STATE_SCHEMA_SYNC_DONE {
      FinishedMeans(r);
    }
  }

  /**
   * Pausing, waiting and resuming: the worker goes on as if it had not been
   * paused, whatever else was requested in between.
   */
  lemma PauseThenResume(v: View, kind: Kind, pause: Input, waiting: seq<Input>, resume: Input)
    requires v.state == STATE_SYNCING && v.request == STATE_UNDEF && !v.exiting
    requires pause.posted == STATE_PAUSED && (kind.Olr? || pause.stopOk)
    requires forall k :: 0 <= k < |waiting| ==> waiting[k].posted != STATE_SYNCING
    requires resume.posted == STATE_SYNCING && (kind.Olr? || resume.startOk)
    ensures Run(v, kind, [pause] + waiting + [resume]) == Turn(v, kind, resume.(posted := STATE_UNDEF))
  {
    var paused := v.(state := STATE_PAUSED);
    RunSplits(v, kind, [pause] + waiting, [resume]);
    RunSplits(v, kind, [pause], waiting);
    OneTurn(v, kind, pause);
    AnswerMeans(v, kind, pause);
    assert Turn(v, kind, pause) == paused;
    PausedUntilResumed(paused, kind, waiting);
    OneTurn(paused, kind, resume);
    AnswerMeans(paused, kind, resume);
    AnswerMeans(v, kind, resume.(posted := STATE_UNDEF));
    PolledIgnoresPost(v, kind, resume);
  }

  lemma PolledIgnoresPost(v: View, kind: Kind, i: Input)
    ensures Polled(v, kind, i) == Polled(v, kind, i.(posted := STATE_UNDEF))
  {
  }

  lemma OneTurn(v: View, kind: Kind, i: Input)
    requires !v.exiting
    ensures Run(v, kind, [i]) == Turn(v, kind, i)
  {
    assert [i][..0] == [];
  }

  /** A successful FDW snapshot is over after one more turn: paused after a schema sync, syncing otherwise. */
  lemma SnapshotCompletes(v: View, kind: Kind, first: Input, second: Input)
    requires v.state == STATE_SYNCING && !v.exiting && Snapshotting(v.flag) && v.engine.Fdw? && !kind.SqlServer?
    requires v.request == STATE_UNDEF == first.posted && first.snapshot.Complete?
    ensures var w := Run(v, kind, [first, second]);
      && w.state == (if SchemaSync(v.flag) then STATE_PAUSED else STATE_SYNCING)
      && !Snapshotting(w.flag) && w.launches == v.launches + 1
  {
    var d := Turn(v, kind, first);
    assert d == Launched(v, first);
    assert [first, second][..1] == [first] && [first][..0] == [];
    assert Run(v, kind, [first]) == d;
    DoneIsLeft(d, kind, second);
  }

  /** SQL Server connectors never use foreign data wrappers. */
  lemma {:induction false} SqlServerNeverLaunches(v: View, inputs: seq<Input>)
    ensures Run(v, SqlServer, inputs).launches == v.launches
  {
    if inputs != [] {
      SqlServerNeverLaunches(v, inputs[..|inputs| - 1]);
      SqlServerTurn(Run(v, SqlServer, inputs[..|inputs| - 1]), inputs[|inputs| - 1]);
    }
  }

  lemma SqlServerTurn(v: View, i: Input)
    ensures Turn(v, SqlServer, i).launches == v.launches
  {
    TurnOf(v, SqlServer, i);
    AnswerMeans(v, SqlServer, i);
  }

  // ------------------------------------------------------------ the no-CDC flag

  /** The no-CDC flag survives if and only if the initial-snapshot flag has not been cleared. */
  lemma {:induction false} NoCdcSurvives(v: View, kind: Kind, inputs: seq<Input>)
    requires AtHead(v)
    ensures var w := Run(v, kind, inputs);
      NoCdc(w.flag) <==> NoCdc(v.flag) && (Initial(v.flag) ==> Initial(w.flag))
  {
    if inputs != [] {
      var k := |inputs| - 1;
      var w := Run(v, kind, inputs[..k]);
      NoCdcSurvives(v, kind, inputs[..k]);
      RunsKeep(v, kind, inputs[..k]);
      FlagsOnlyCleared(v, kind, inputs[..k]);
      ClearedMeans(w.flag, v.flag);
      if w.state == STATE_SCHEMA_SYNC_DONE {
        DoneIsLeft(w, kind, inputs[k]);
      } else {
        FlagsChangeWhenDone(w, kind, inputs[k]);
      }
    }
  }

  /**
   * An OLR connector leaves the loop for want of CDC in the next quiet turn if
   * and only if it is syncing, its snapshot flags are clear and the no-CDC flag
   * is set.
   */
  lemma NoCdcExit(v: View, i: Input)
    requires AtHead(v) && !v.exiting && v.request == STATE_UNDEF == i.posted && !i.exitMessage
    ensures Turn(v, Olr, i).exiting <==> v.state == STATE_SYNCING && !Snapshotting(v.flag) && NoCdc(v.flag)
  {
  }

  lemma StaysInLoop(v: View, i: Input)
    requires !v.exiting && !i.exitMessage && (NoCdc(v.flag) ==> Snapshotting(v.flag))
    ensures !Turn(v, Olr, i).exiting
  {
    var p := if v.request == STATE_UNDEF then v.(request := i.posted) else v;
    var r := Requested(p, Olr, i);
    assert r.flag == v.flag && !r.exiting;
    if r.state == STATE_SYNCING {
      assert !Polled(r, Olr, i).exiting;
    }
  }

  /** An OLR connector that began with an initial snapshot never leaves the loop for want of CDC. */
  lemma {:induction false} SnapshotNeverExits(v: View, inputs: seq<Input>)
    requires AtHead(v) && !v.exiting && Initial(v.flag)
    requires forall k :: 0 <= k < |inputs| ==> !inputs[k].exitMessage
    ensures !Run(v, Olr, inputs).exiting
  {
    if inputs != [] {
      var k := |inputs| - 1;
      SnapshotNeverExits(v, inputs[..k]);
      NoCdcSurvives(v, Olr, inputs[..k]);
      StaysInLoop(Run(v, Olr, inputs[..k]), inputs[k]);
    }
  }

  // ---------------------------------------------------------------- start-up

  datatype SnapshotMode = InitialMode | InitialOnly | NoData | Always | Never | OtherMode

  /** is_snapshot_cdc_needed. */
  function SnapshotNeeded(mode: SnapshotMode, done: bool): bool {
    if mode.Always? then true else if mode.Never? then false else !done
  }

  function CdcNeeded(mode: SnapshotMode): bool {
    !mode.InitialOnly?
  }

  lemma NoCdcIsSet(flag: bv32)
    ensures NoCdc(flag | 2) && Initial(flag | 2) == Initial(flag) && SchemaSync(flag | 2) == SchemaSync(flag)
  {
    assert (flag | 2) & 2 == 2;
    assert (flag | 2) & 4 == flag & 4;
    assert (flag | 2) & 1 == flag & 1;
  }

  lemma InitialIsSet(flag: bv32)
    ensures Initial(flag | 4) && NoCdc(flag | 4) == NoCdc(flag) && SchemaSync(flag | 4) == SchemaSync(flag)
  {
    assert (flag | 4) & 4 == 4;
    assert (flag | 4) & 2 == flag & 2;
    assert (flag | 4) & 1 == flag & 1;
  }

  /** The worker itself decides on a snapshot; for all other connectors Debezium does. */
  predicate Decides(kind: Kind, engine: Engine) {
    kind.Olr? || (engine.Fdw? && kind in {MySql, Oracle, Postgres})
  }

  method SetFlags(flag0: bv32, cdc: bool, snapshot: bool) returns (flag: bv32)
    ensures SchemaSync(flag) == SchemaSync(flag0)
    ensures Initial(flag) <==> Initial(flag0) || snapshot
    ensures NoCdc(flag) <==> NoCdc(flag0) || !cdc
  {
    flag := flag0;
    if !cdc {
      NoCdcIsSet(flag);
      flag := flag | 2;
    }
    if snapshot {
      InitialIsSet(flag);
      flag := flag | 4;
    }
  }

  /** synchdb_engine_main up to the main loop; None when the worker exits instead. */
  method StartUp(kind: Kind, engine: Engine, flag0: bv32, mode: SnapshotMode, done: bool) returns (v: Option<View>)
    ensures v.None? <==> kind.Olr? && !mode.Always? && (mode.Never? || done) && (mode.InitialOnly? || NoCdc(flag0))
    ensures v.Some? ==> AtHead(v.value) && v.value == View(STATE_SYNCING, STATE_UNDEF, v.value.flag, engine, false, 0)
    ensures v.Some? ==>
      && SchemaSync(v.value.flag) == SchemaSync(flag0)
      && (Initial(v.value.flag) <==> Initial(flag0) || (Decides(kind, engine) && (mode.Always? || (!mode.Never? && !done))))
      && (NoCdc(v.value.flag) <==> NoCdc(flag0) || (Decides(kind, engine) && mode.InitialOnly?))
  {
    var flag := flag0;
    if kind.Olr? || (engine == Fdw && kind != SqlServer) {
      var snapshot, cdc := SnapshotNeeded(mode, done), CdcNeeded(mode);
      flag := SetFlags(flag0, cdc, snapshot);
      if kind.Olr? && !snapshot && NoCdc(flag) {
        return None;
      }
    }
    v := Some(View(STATE_SYNCING, STATE_UNDEF, flag, engine, false, 0));
  }

  /**
   * A connector of OpenLog Replicator started in mode initial_only whose
   * snapshot is still to be done is never stopped for want of CDC, although one
   * whose snapshot is done does not even enter the loop.
   */
  method InitialOnlyKeepsRunning(engine: Engine, flag0: bv32, inputs: seq<Input>) returns (v: Option<View>)
    requires forall k :: 0 <= k < |inputs| ==> !inputs[k].exitMessage
    ensures v.Some? && NoCdc(v.value.flag) && !Run(v.value, Olr, inputs).exiting
  {
    v := StartUp(Olr, engine, flag0, InitialOnly, false);
    SnapshotNeverExits(v.value, inputs);
  }
}

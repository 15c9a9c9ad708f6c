/**
 * The Openlog Replicator client and the part of the worker loop that drives it
 * (src/backend/olr/olr_client.c, src/backend/synchdb/synchdb.c): frames are cut
 * out of an accumulating buffer, handled inside one transaction, and only then
 * confirmed and flushed. The socket, the clock and the outcome of handling an
 * event are inputs.
 */
module OlrWorker {

  import opened Wrappers
  import opened Positional
  import opened OlrFrames
  import opened OlrBuffer

  datatype ScnPosition = ScnPosition(scn: nat, cScn: nat, cIdx: nat)

  datatype Component = Scn | CScn | CIdx

  function Get(p: ScnPosition, c: Component): nat {
    match c
    case Scn => p.scn
    case CScn => p.cScn
    case CIdx => p.cIdx
  }

  /** What fc_processOLRChangeEvent does with one payload. */
  datatype Outcome =
    | Recorded(at: ScnPosition)                   // olr_client_set_scns is called and a confirm is requested
    | Ignored                                     // any of the returns without recording
    | Raised(recorded: Option<ScnPosition>)       // ereport(ERROR), before or after recording: the worker exits

  /**
   * Place is olr_client_set_scns outside the handler, by a snapshot event of a
   * batch or on its own; Commit says whether there is a connection to the peer.
   */
  datatype Action =
    | Handle(payload: Payload, outcome: Outcome)
    | Place(at: ScnPosition, inBatch: bool)
    | Commit(live: bool)
    | Abort
    | Confirm(confirmed: ScnPosition)
    | Flush(flushed: ScnPosition, forced: bool)

  datatype Delivery = Delivery(payload: Payload, isFirst: bool, isLast: bool)

  /** One netio_read: bytes, possibly with the peer gone, or a failure after some bytes were appended. */
  datatype NetRead =
    | Data(chunk: seq<byte>, peerClosed: bool)
    | Nothing
    | Failure(partial: seq<byte>)

  // ------------------------------------------------------- what a run records

  /** olr_client_set_scns: zero means "keep". */
  function Moved(p: ScnPosition, at: ScnPosition): ScnPosition {
    ScnPosition(if at.scn > 0 then at.scn else p.scn,
                if at.cScn > 0 then at.cScn else p.cScn,
                if at.cIdx > 0 then at.cIdx else p.cIdx)
  }

  function RecordedBy(o: Outcome): Option<ScnPosition> {
    match o
    case Recorded(at) => Some(at)
    case Ignored => None
    case Raised(recorded) => recorded
  }

  /** The position that an action sets, if any. */
  function SetBy(a: Action): Option<ScnPosition> {
    if a.Handle? then RecordedBy(a.outcome) else if a.Place? then Some(a.at) else None
  }

  function Recording(p: ScnPosition, a: Action): ScnPosition {
    if SetBy(a).Some? then Moved(p, SetBy(a).value) else p
  }

  /** The position a history leaves behind. */
  function Replay(loaded: ScnPosition, past: seq<Action>): ScnPosition {
    if past == [] then loaded
    else Recording(Replay(loaded, past[..|past| - 1]), past[|past| - 1])
  }

  datatype Phase = Idle | InTransaction | Dead

  /** Done inside a transaction, so that an abort undoes what came with it. */
  predicate Tentative(a: Action) {
    a.Handle? || (a.Place? && a.inBatch)
  }

  function PhaseOf(past: seq<Action>): Phase {
    if past == [] then Idle else
      var a := past[|past| - 1];
      if Tentative(a) then InTransaction
      else if a.Commit? then Idle
      else if a.Abort? then Dead
      else PhaseOf(past[..|past| - 1])
  }

  predicate Allowed(loaded: ScnPosition, past: seq<Action>, a: Action) {
    if Tentative(a) || a.Commit? || a.Abort? then PhaseOf(past) != Dead
    else if a.Place? then PhaseOf(past) == Idle
    else if a.Confirm? then PhaseOf(past) == Idle && a.confirmed == Replay(loaded, past)
    else (PhaseOf(past) == Idle || (a.forced && PhaseOf(past) == Dead)) && a.flushed == Replay(loaded, past)
  }

  predicate Safe(loaded: ScnPosition, trace: seq<Action>) {
    trace == [] ||
    (Safe(loaded, trace[..|trace| - 1]) && Allowed(loaded, trace[..|trace| - 1], trace[|trace| - 1]))
  }

  lemma Extend(loaded: ScnPosition, past: seq<Action>, a: Action)
    ensures Safe(loaded, past + [a]) <==> Safe(loaded, past) && Allowed(loaded, past, a)
    ensures Replay(loaded, past + [a]) == Recording(Replay(loaded, past), a)
    ensures PhaseOf(past + [a]) ==
      if Tentative(a) then InTransaction else if a.Commit? then Idle else if a.Abort? then Dead else PhaseOf(past)
  {
    assert (past + [a])[..|past|] == past;
  }

  // ----------------------------------------------- what that means for a run

  ghost predicate Sets(a: Action, c: Component) {
    SetBy(a).Some? && Get(SetBy(a).value, c) > 0
  }

  ghost predicate LastToSet(past: seq<Action>, c: Component, k: int) {
    0 <= k < |past| && Sets(past[k], c) && forall j :: k < j < |past| ==> !Sets(past[j], c)
  }

  /** v is the last positive value set in `past`, or the loaded one when there is none. */
  ghost predicate LastPositive(v: nat, loaded: nat, past: seq<Action>, c: Component) {
    || (exists k :: LastToSet(past, c, k) && v == Get(SetBy(past[k]).value, c))
    || (v == loaded && forall j :: 0 <= j < |past| ==> !Sets(past[j], c))
  }

  /** Every event handled in a transaction is followed by the commit of that transaction. */
  ghost predicate AllCommitted(past: seq<Action>) {
    forall i :: 0 <= i < |past| && Tentative(past[i]) ==> CommittedAt(past, i)
  }

  ghost predicate CommittedAt(past: seq<Action>, i: nat) {
    exists j :: i < j < |past| && past[j].Commit? && forall k :: i < k < j ==> Tentative(past[k])
  }

  ghost predicate Announces(a: Action) {
    a.Confirm? || (a.Flush? && !a.forced)
  }

  function Announced(a: Action): ScnPosition
    requires a.Confirm? || a.Flush?
  {
    if a.Confirm? then a.confirmed else a.flushed
  }

  /** Everything done so far is committed, and the position announced is the last one set. */
  ghost predicate Justified(loaded: ScnPosition, trace: seq<Action>, i: nat)
    requires i < |trace| && Announces(trace[i])
  {
    && AllCommitted(trace[..i])
    && forall c: Component :: LastPositive(Get(Announced(trace[i]), c), Get(loaded, c), trace[..i], c)
  }

  /**
   * In a safe run, whenever a position is confirmed or flushed without force,
   * all events handled so far are committed and each component is the last
   * positive value set, or else the loaded one.
   */
  lemma CommitBeforeConfirm(loaded: ScnPosition, trace: seq<Action>, i: nat)
    requires Safe(loaded, trace) && i < |trace| && Announces(trace[i])
    ensures Justified(loaded, trace, i)
  {
    SafePrefix(loaded, trace, i + 1);
    assert trace[..i + 1][..i] == trace[..i];
    var n := CommittedUpTo(loaded, trace[..i]);
    forall c: Component ensures LastPositive(Get(Announced(trace[i]), c), Get(loaded, c), trace[..i], c) {
      ReplayIsLastPositive(loaded, trace[..i], c);
    }
  }

  lemma {:induction false} SafePrefix(loaded: ScnPosition, trace: seq<Action>, n: nat)
    requires Safe(loaded, trace) && n <= |trace|
    ensures Safe(loaded, trace[..n])
    decreases |trace| - n
  {
    if n == |trace| {
      assert trace[..n] == trace;
    } else {
      SafePrefix(loaded, trace, n + 1);
      assert trace[..n + 1][..n] == trace[..n];
    }
  }

  /** The events not yet committed form a suffix, empty outside a transaction. */
  lemma {:induction false} CommittedUpTo(loaded: ScnPosition, past: seq<Action>) returns (n: nat)
    requires Safe(loaded, past) && PhaseOf(past) != Dead
    ensures n <= |past| && forall i :: 0 <= i < n && Tentative(past[i]) ==> CommittedAt(past, i)
    ensures forall i :: n <= i < |past| ==> Tentative(past[i])
    ensures PhaseOf(past) == Idle ==> n == |past|
  {
    if past == [] {
      n := 0;
    } else {
      var init, a := past[..|past| - 1], past[|past| - 1];
      var m := CommittedUpTo(loaded, init);
      forall i | 0 <= i < m && Tentative(past[i]) ensures CommittedAt(past, i) {
        CommittedStays(past, i);
      }
      forall i | m <= i < |init| ensures Tentative(past[i]) {
        assert Tentative(init[i]);
      }
      if a.Commit? {
        forall i | m <= i < |init| ensures CommittedAt(past, i) {
          assert past[|init|].Commit?;
        }
        n := |past|;
      } else if Tentative(a) {
        n := m;
      } else {
        n := |past|;
      }
    }
  }

  lemma CommittedStays(past: seq<Action>, i: nat)
    requires past != [] && i < |past| - 1 && CommittedAt(past[..|past| - 1], i)
    ensures CommittedAt(past, i)
  {
    var init := past[..|past| - 1];
    var j :| i < j < |init| && init[j].Commit? && forall k :: i < k < j ==> Tentative(init[k]);
    assert past[j].Commit? && forall k :: i < k < j ==> past[k] == init[k];
  }

  lemma {:induction false} ReplayIsLastPositive(loaded: ScnPosition, past: seq<Action>, c: Component)
    ensures LastPositive(Get(Replay(loaded, past), c), Get(loaded, c), past, c)
  {
    if past != [] {
      var init, a := past[..|past| - 1], past[|past| - 1];
      ReplayIsLastPositive(loaded, init, c);
      var v := Get(Replay(loaded, init), c);
      if Sets(a, c) {
        assert LastToSet(past, c, |init|);
      } else {
        assert Get(Replay(loaded, past), c) == v;
        if k :| LastToSet(init, c, k) && v == Get(SetBy(init[k]).value, c) {
          assert past[k] == init[k] && forall j :: k < j < |init| ==> past[j] == init[j];
          assert LastToSet(past, c, k);
        } else {
          assert forall j :: 0 <= j < |init| ==> past[j] == init[j];
        }
      }
    }
  }

  // ------------------------------------------------------ who gets confirmed

  /** The open transaction has recorded an event. */
  predicate OpenRecorded(past: seq<Action>) {
    past != [] && Tentative(past[|past| - 1]) &&
    ((past[|past| - 1].Handle? && past[|past| - 1].outcome.Recorded?) || OpenRecorded(past[..|past| - 1]))
  }

  /** The history ends in the commit of a batch that is to be confirmed. */
  predicate Due(loaded: ScnPosition, past: seq<Action>) {
    && past != [] && past[|past| - 1] == Commit(true) && OpenRecorded(past[..|past| - 1])
    && Replay(loaded, past).cScn > 0
  }

  /** The history ends in the commit of a recorded batch, or in its confirm. */
  predicate MayFlush(past: seq<Action>) {
    past != [] && (past[|past| - 1].Confirm? || (past[|past| - 1].Commit? && OpenRecorded(past[..|past| - 1])))
  }

  predicate Answers(loaded: ScnPosition, past: seq<Action>, a: Action) {
    if Due(loaded, past) then a == Confirm(Replay(loaded, past))
    else !a.Confirm? && (a.Flush? && !a.forced ==> MayFlush(past))
  }

  /** What is due is confirmed at once, and nothing else is. */
  predicate Prompt(loaded: ScnPosition, trace: seq<Action>) {
    trace == [] ||
    (Prompt(loaded, trace[..|trace| - 1]) && Answers(loaded, trace[..|trace| - 1], trace[|trace| - 1]))
  }

  lemma PromptMore(loaded: ScnPosition, past: seq<Action>, a: Action)
    ensures Prompt(loaded, past + [a]) <==> Prompt(loaded, past) && Answers(loaded, past, a)
    ensures Due(loaded, past + [a]) <==> a == Commit(true) && OpenRecorded(past) && Replay(loaded, past).cScn > 0
    ensures MayFlush(past + [a]) <==> a.Confirm? || (a.Commit? && OpenRecorded(past))
    ensures OpenRecorded(past + [a]) <==> Tentative(a) && ((a.Handle? && a.outcome.Recorded?) || OpenRecorded(past))
  {
    assert (past + [a])[..|past|] == past;
    Extend(loaded, past, a);
  }

  /** Some event of the transaction that ends at i was recorded. */
  ghost predicate RecordedBatch(trace: seq<Action>, i: nat)
    requires i <= |trace|
  {
    exists k :: 0 <= k < i && trace[k].Handle? && trace[k].outcome.Recorded? && forall j :: k <= j < i ==> Tentative(trace[j])
  }

  lemma {:induction false} RecordedMeans(trace: seq<Action>, i: nat)
    requires i <= |trace|
    ensures OpenRecorded(trace[..i]) <==> RecordedBatch(trace, i)
  {
    if i > 0 {
      RecordedMeans(trace, i - 1);
      assert trace[..i][..i - 1] == trace[..i - 1];
      if trace[i - 1].Handle? && trace[i - 1].outcome.Recorded? {
        assert forall j :: i - 1 <= j < i ==> Tentative(trace[j]);
      }
    }
  }

  /** The commit at i is that of a recorded batch, with a connection and a commit SCN. */
  ghost predicate ToConfirm(loaded: ScnPosition, trace: seq<Action>, i: nat)
    requires i < |trace|
  {
    trace[i] == Commit(true) && RecordedBatch(trace, i) && Replay(loaded, trace[..i]).cScn > 0
  }

  /**
   * Such a commit is followed at once by the confirm of its position, every
   * confirm follows such a commit, and an unforced flush comes right behind a
   * confirm or the commit of a recorded batch.
   */
  ghost predicate Answered(loaded: ScnPosition, trace: seq<Action>, i: nat)
    requires i < |trace|
  {
    && (ToConfirm(loaded, trace, i) ==> i + 1 < |trace| && trace[i + 1] == Confirm(Replay(loaded, trace[..i])))
    && (trace[i].Confirm? ==> i > 0 && ToConfirm(loaded, trace, i - 1))
    && (trace[i].Flush? && !trace[i].forced ==>
          i > 0 && (trace[i - 1].Confirm? || (trace[i - 1].Commit? && RecordedBatch(trace, i - 1))))
  }

  lemma DueMeans(loaded: ScnPosition, trace: seq<Action>, i: nat)
    requires i < |trace|
    ensures Due(loaded, trace[..i + 1]) <==> ToConfirm(loaded, trace, i)
    ensures MayFlush(trace[..i + 1]) <==> trace[i].Confirm? || (trace[i].Commit? && RecordedBatch(trace, i))
    ensures ToConfirm(loaded, trace, i) ==> Replay(loaded, trace[..i + 1]) == Replay(loaded, trace[..i])
  {
    RecordedMeans(trace, i);
    assert trace[..i + 1] == trace[..i] + [trace[i]];
    PromptMore(loaded, trace[..i], trace[i]);
    Extend(loaded, trace[..i], trace[i]);
  }

  lemma {:induction false} PromptPrefix(loaded: ScnPosition, trace: seq<Action>, n: nat)
    requires Prompt(loaded, trace) && n <= |trace|
    ensures Prompt(loaded, trace[..n])
    decreases |trace| - n
  {
    if n == |trace| {
      assert trace[..n] == trace;
    } else {
      PromptPrefix(loaded, trace, n + 1);
      assert trace[..n + 1][..n] == trace[..n];
    }
  }

  lemma AnswersAt(loaded: ScnPosition, trace: seq<Action>, i: nat)
    requires Prompt(loaded, trace) && i < |trace|
    ensures Answers(loaded, trace[..i], trace[i])
  {
    PromptPrefix(loaded, trace, i + 1);
    assert trace[..i + 1][..i] == trace[..i];
  }

  lemma PromptMeans(loaded: ScnPosition, trace: seq<Action>, i: nat)
    requires Prompt(loaded, trace) && !Due(loaded, trace) && i < |trace|
    ensures Answered(loaded, trace, i)
  {
    AnswersAt(loaded, trace, i);
    DueMeans(loaded, trace, i);
    if i > 0 {
      DueMeans(loaded, trace, i - 1);
    }
    if i + 1 < |trace| {
      AnswersAt(loaded, trace, i + 1);
    } else {
      assert trace[..i + 1] == trace;
    }
  }

  lemma IdleHasNothingRecorded(past: seq<Action>)
    requires PhaseOf(past) != InTransaction
    ensures !OpenRecorded(past)
  {
  }

  lemma {:induction false} HandledPrompt(loaded: ScnPosition, past: seq<Action>, events: seq<Delivery>, oracle: (nat, Payload) -> Outcome)
    requires Prompt(loaded, past) && !Due(loaded, past) && PhaseOf(past) == Idle
    ensures var t := past + Handled(events, oracle);
      Prompt(loaded, t) && !Due(loaded, t) && (OpenRecorded(t) <==> AnyRecorded(events, oracle))
  {
    IdleHasNothingRecorded(past);
    if events == [] {
      assert past + [] == past;
    } else {
      var n := |events| - 1;
      var a := Handle(events[n].payload, oracle(n, events[n].payload));
      HandledPrompt(loaded, past, events[..n], oracle);
      PromptMore(loaded, past + Handled(events[..n], oracle), a);
      assert past + Handled(events, oracle) == past + Handled(events[..n], oracle) + [a];
      AnyRecordedMore(events, oracle);
    }
  }

  lemma AnyRecordedMore(events: seq<Delivery>, oracle: (nat, Payload) -> Outcome)
    requires events != []
    ensures var n := |events| - 1;
      AnyRecorded(events, oracle) <==> AnyRecorded(events[..n], oracle) || oracle(n, events[n].payload).Recorded?
  {
    var n := |events| - 1;
    assert forall k :: 0 <= k < n ==> events[..n][k] == events[k];
  }

  /** A turn of the capture loop confirms exactly what is due. */
  lemma TurnPrompt(loaded: ScnPosition, past: seq<Action>, events: seq<Delivery>, oracle: (nat, Payload) -> Outcome,
                   running: bool, connected: bool, position: ScnPosition, flushDue: bool)
    requires Prompt(loaded, past) && !Due(loaded, past) && PhaseOf(past) == Idle
    requires position == Replay(loaded, past + Handled(events, oracle))
    ensures var t := past + Handled(events, oracle) + [if running then Commit(connected) else Abort]
        + if running && AnyRecorded(events, oracle) then Announcements(position, connected, flushDue) else [];
      Prompt(loaded, t) && !Due(loaded, t)
  {
    var handled := past + Handled(events, oracle);
    var end := if running then Commit(connected) else Abort;
    HandledPrompt(loaded, past, events, oracle);
    PromptMore(loaded, handled, end);
    Extend(loaded, handled, end);
    if running && AnyRecorded(events, oracle) {
      AnnouncedPrompt(loaded, handled + [end], position, connected, flushDue);
    } else {
      assert handled + [end] + [] == handled + [end];
    }
  }

  lemma AnnouncedPrompt(loaded: ScnPosition, past: seq<Action>, position: ScnPosition, connected: bool, flushDue: bool)
    requires Prompt(loaded, past) && MayFlush(past) && position == Replay(loaded, past)
    requires Due(loaded, past) <==> connected && position.cScn > 0
    ensures Prompt(loaded, past + Announcements(position, connected, flushDue))
    ensures !Due(loaded, past + Announcements(position, connected, flushDue))
  {
    var confirm := if position.cScn > 0 && connected then [Confirm(position)] else [];
    var flush := if flushDue then [Flush(position, false)] else [];
    ConfirmedPrompt(loaded, past, position, connected);
    FlushedPrompt(loaded, past + confirm, position, flushDue);
    assert past + (confirm + flush) == (past + confirm) + flush;
  }

  lemma ConfirmedPrompt(loaded: ScnPosition, past: seq<Action>, position: ScnPosition, connected: bool)
    requires Prompt(loaded, past) && MayFlush(past) && position == Replay(loaded, past)
    requires Due(loaded, past) <==> connected && position.cScn > 0
    ensures var t := past + if position.cScn > 0 && connected then [Confirm(position)] else [];
      Prompt(loaded, t) && !Due(loaded, t) && MayFlush(t)
  {
    PromptMore(loaded, past, Confirm(position));
    assert past + [] == past;
  }

  lemma FlushedPrompt(loaded: ScnPosition, past: seq<Action>, position: ScnPosition, flushDue: bool)
    requires Prompt(loaded, past) && !Due(loaded, past) && MayFlush(past)
    ensures var t := past + if flushDue then [Flush(position, false)] else [];
      Prompt(loaded, t) && !Due(loaded, t)
  {
    PromptMore(loaded, past, Flush(position, false));
    assert past + [] == past;
  }

  /** The same, from the position that the turn leaves behind. */
  lemma TurnKeepsPrompt(loaded: ScnPosition, past: seq<Action>, events: seq<Delivery>, oracle: (nat, Payload) -> Outcome,
                        running: bool, connected: bool, position: ScnPosition, flushDue: bool, trace: seq<Action>)
    requires Prompt(loaded, past) && !Due(loaded, past) && PhaseOf(past) == Idle && position == Replay(loaded, trace)
    requires trace == past + Handled(events, oracle) + [if running then Commit(connected) else Abort]
        + if running && AnyRecorded(events, oracle) then Announcements(position, connected, flushDue) else []
    ensures Prompt(loaded, trace) && !Due(loaded, trace)
  {
    SamePositionThroughout(loaded, past + Handled(events, oracle), if running then Commit(connected) else Abort,
      if running && AnyRecorded(events, oracle) then Announcements(position, connected, flushDue) else []);
    TurnPrompt(loaded, past, events, oracle, running, connected, position, flushDue);
  }

  lemma InOrder(before: seq<Action>, position: ScnPosition, connected: bool, flushDue: bool, trace: seq<Action>)
    requires var confirmed := if position.cScn > 0 && connected then before + [Confirm(position)] else before;
      trace == if flushDue then confirmed + [Flush(position, false)] else confirmed
    ensures trace == before + Announcements(position, connected, flushDue)
  {
  }

  /** What a safe and prompt history means at each of its actions. */
  lemma RunLaws(start: ScnPosition, trace: seq<Action>)
    requires Safe(start, trace) && Prompt(start, trace) && !Due(start, trace)
    ensures forall i :: 0 <= i < |trace| && Announces(trace[i]) ==> Justified(start, trace, i)
    ensures forall i :: 0 <= i < |trace| ==> Answered(start, trace, i)
  {
    forall i | 0 <= i < |trace| ensures Answered(start, trace, i) {
      PromptMeans(start, trace, i);
    }
    forall i | 0 <= i < |trace| && Announces(trace[i]) ensures Justified(start, trace, i) {
      CommitBeforeConfirm(start, trace, i);
    }
  }

  // --------------------------------------------- the position after an abort

  /** What is left of a history when its open transaction is undone. */
  function Settled(past: seq<Action>): (s: seq<Action>)
    ensures s <= past && forall i :: |s| <= i < |past| ==> Tentative(past[i])
  {
    if past != [] && Tentative(past[|past| - 1]) then Settled(past[..|past| - 1]) else past
  }

  /** The history without what its aborted transaction did. */
  function Committed(past: seq<Action>): seq<Action> {
    if past == [] then []
    else
      var init, a := past[..|past| - 1], past[|past| - 1];
      if a.Abort? then Settled(init) else Committed(init) + [a]
  }

  /** The actions that the abort undid. */
  function Undone(past: seq<Action>): seq<Action> {
    if past == [] then []
    else
      var init, a := past[..|past| - 1], past[|past| - 1];
      if a.Abort? then init[|Settled(init)|..] else Undone(init)
  }

  lemma {:induction false} ReplayConcat(loaded: ScnPosition, a: seq<Action>, b: seq<Action>)
    ensures Replay(loaded, a + b) == Replay(Replay(loaded, a), b)
  {
    if b == [] {
      assert a + b == a;
    } else {
      var n := |b| - 1;
      ReplayConcat(loaded, a, b[..n]);
      assert (a + b)[..|a + b| - 1] == a + b[..n];
    }
  }

  /** Once an abort has ended the run, the position is the committed one moved by what was undone. */
  lemma {:induction false} ReplayAfterAbort(loaded: ScnPosition, past: seq<Action>)
    requires Safe(loaded, past) && PhaseOf(past) != InTransaction
    ensures Replay(loaded, past) == Replay(Replay(loaded, Committed(past)), Undone(past))
    ensures PhaseOf(past) == Idle ==> Committed(past) == past && Undone(past) == []
  {
    if past != [] {
      var init, a := past[..|past| - 1], past[|past| - 1];
      if a.Abort? {
        var kept := Settled(init);
        assert init == kept + init[|kept|..];
        ReplayConcat(loaded, kept, init[|kept|..]);
      } else if PhaseOf(past) == Idle {
        StillAlive(loaded, past);
      } else {
        ReplayAfterAbort(loaded, init);
        Extend(loaded, Committed(init), a);
      }
    }
  }

  lemma {:induction false} StillAlive(loaded: ScnPosition, past: seq<Action>)
    requires Safe(loaded, past) && PhaseOf(past) != Dead
    ensures Committed(past) == past && Undone(past) == []
  {
    if past != [] {
      StillAlive(loaded, past[..|past| - 1]);
      assert past == past[..|past| - 1] + [past[|past| - 1]];
    }
  }

  /**
   * The forced flush at exit may follow an aborted batch. The position it
   * records is the committed one if and only if, for each component, what the
   * abort undid sets it last to the committed value or not at all.
   */
  lemma ForcedFlushPosition(loaded: ScnPosition, past: seq<Action>)
    requires Safe(loaded, past) && PhaseOf(past) != InTransaction
    ensures Replay(loaded, past) == Replay(loaded, Committed(past)) <==>
      forall c: Component, k :: LastToSet(Undone(past), c, k) ==>
        Get(SetBy(Undone(past)[k]).value, c) == Get(Replay(loaded, Committed(past)), c)
  {
    var kept, undone := Replay(loaded, Committed(past)), Undone(past);
    ReplayAfterAbort(loaded, past);
    forall c: Component
      ensures Get(Replay(kept, undone), c) == Get(kept, c) <==>
        forall k :: LastToSet(undone, c, k) ==> Get(SetBy(undone[k]).value, c) == Get(kept, c)
    {
      ReplayIsLastPositive(kept, undone, c);
      LastToSetIsUnique(undone, c);
    }
    SamePosition(Replay(kept, undone), kept);
  }

  lemma LastToSetIsUnique(past: seq<Action>, c: Component)
    ensures forall k, l :: LastToSet(past, c, k) && LastToSet(past, c, l) ==> k == l
  {
  }

  lemma SamePosition(p: ScnPosition, q: ScnPosition)
    ensures p == q <==> forall c: Component :: Get(p, c) == Get(q, c)
  {
    if forall c: Component :: Get(p, c) == Get(q, c) {
      assert Get(p, Scn) == Get(q, Scn) && Get(p, CScn) == Get(q, CScn) && Get(p, CIdx) == Get(q, CIdx);
    }
  }

  // ------------------------------------------------------------- the worker

  class Worker {
    const buffer: FrameBuffer
    var connected: bool          // g_netioCtx.is_connected
    var position: ScnPosition    // g_scn, g_c_scn, g_c_idx
    var running: bool            // false once an error has ended the process

    ghost const loaded: ScnPosition
    ghost var clean: bool        // the buffer was parsed after the last read
    ghost var trace: seq<Action>

    ghost predicate Logged()
      reads this
    {
      Safe(loaded, trace) && PhaseOf(trace) != Dead && position == Replay(loaded, trace)
    }

    /** What holds between calls while the worker runs. */
    ghost predicate Valid()
      reads this, buffer
    {
      && buffer.Valid() && buffer.offset == 0
      && (clean ==> !WholeFrame(buffer.data))
      && Logged() && PhaseOf(trace) == Idle
    }

    constructor (start: ScnPosition)
      ensures Valid() && fresh(buffer) && running && trace == [] && position == start == loaded
      ensures buffer.received == [] && buffer.delivered == []
    {
      buffer := new FrameBuffer();
      connected, position, running := false, start, true;
      loaded, clean, trace := start, true, [];
    }

    /**
     * olr_client_init: a fresh buffer. The offset is not reset, yet by Valid it
     * is zero, so the next connection is parsed from its first byte.
     */
    method Connect(succeeds: bool)
      requires Valid() && running
      modifies this`connected, this`clean, buffer
      ensures Valid() && connected == succeeds && clean
      ensures buffer.received == [] && buffer.delivered == []
    {
      buffer.Reset();
      connected, clean := succeeds, true;
    }

    /** olr_client_set_scns: zero means "keep". */
    method SetScns(scn: nat, cScn: nat, cIdx: nat)
      modifies this`position
      ensures position == Moved(old(position), ScnPosition(scn, cScn, cIdx))
    {
      position := ScnPosition(if scn > 0 then scn else position.scn,
                              if cScn > 0 then cScn else position.cScn,
                              if cIdx > 0 then cIdx else position.cIdx);
    }

    method HandleEvent(payload: Payload, outcome: Outcome) returns (confirm: bool)
      requires Logged()
      modifies this`position, this`trace
      ensures Logged() && trace == old(trace) + [Handle(payload, outcome)]
      ensures confirm == outcome.Recorded?
    {
      confirm := outcome.Recorded?;
      Extend(loaded, trace, Handle(payload, outcome));
      var recorded := RecordedBy(outcome);
      if recorded.Some? {
        SetScns(recorded.value.scn, recorded.value.cScn, recorded.value.cIdx);
      }
      trace := trace + [Handle(payload, outcome)];
    }

    method PlacePosition(scn: nat, cScn: nat, cIdx: nat, inBatch: bool)
      requires Logged() && (inBatch || PhaseOf(trace) == Idle)
      modifies this`position, this`trace
      ensures Logged() && trace == old(trace) + [Place(ScnPosition(scn, cScn, cIdx), inBatch)]
      ensures position == Moved(old(position), ScnPosition(scn, cScn, cIdx))
    {
      Extend(loaded, trace, Place(ScnPosition(scn, cScn, cIdx), inBatch));
      SetScns(scn, cScn, cIdx);
      trace := trace + [Place(ScnPosition(scn, cScn, cIdx), inBatch)];
    }

    /** olr_set_offset_from_raw, on an offset that carries all three numbers. */
    method SetOffset(scn: nat, cScn: nat, cIdx: nat)
      requires Valid()
      modifies this`position, this`trace
      ensures Valid() && trace == old(trace) + [Place(ScnPosition(scn, cScn, cIdx), false)]
    {
      PlacePosition(scn, cScn, cIdx, false);
    }

    /** The end of a snapshot: its SCN becomes the position and is flushed at once. */
    method FinishSnapshot(scn: nat)
      requires Valid()
      modifies this`position, this`trace
      ensures Valid() && trace == old(trace) + [Place(ScnPosition(scn, scn, 0), false)] + [Flush(position, true)]
    {
      PlacePosition(scn, scn, 0, false);
      var written := WriteScnState(true, false);
    }

    /** The last snapshot event of a Debezium batch sets the position before that batch commits or fails. */
    method SnapshotBatch(scn: nat, cScn: nat, fails: bool)
      requires Valid() && running
      modifies this`position, this`trace, this`running
      ensures running == !fails && Safe(loaded, trace) && position == Replay(loaded, trace)
      ensures running ==> Valid()
      ensures trace == old(trace) + [Place(ScnPosition(scn, if cScn > 0 then cScn else scn, 0), true)]
                       + [if fails then Abort else Commit(connected)]
      ensures !running ==> PhaseOf(trace) == Dead
    {
      PlacePosition(scn, if cScn > 0 then cScn else scn, 0, true);
      var end := if fails then Abort else Commit(connected);
      Extend(loaded, trace, end);
      trace := trace + [end];
      running := !fails;
    }

    /** Where the frame loop stands after delivering `events`. */
    ghost predicate Progress(events: seq<Delivery>, sendconfirm: bool, oracle: (nat, Payload) -> Outcome,
                             delivered: seq<Payload>, log: seq<Action>)
      reads this, buffer
    {
      && buffer.Valid() && Logged() && Sound(buffer.data[buffer.offset..])
      && buffer.delivered == delivered + Payloads(events)
      && trace == log + Handled(events, oracle)
      && (sendconfirm <==> AnyRecorded(events, oracle))
      && Flagged(events, buffer.Leftover())
    }

    /** One turn of the frame loop; `stop` when no complete frame is left or the handler raised. */
    method Turn(events: seq<Delivery>, sendconfirm: bool, oracle: (nat, Payload) -> Outcome,
                ghost delivered: seq<Payload>, ghost log: seq<Action>)
      returns (events': seq<Delivery>, sendconfirm': bool, raised: bool, stop: bool)
      requires Progress(events, sendconfirm, oracle, delivered, log) && !LastRaised(events, oracle)
      modifies this`position, this`trace, buffer`offset, buffer`delivered
      ensures Progress(events', sendconfirm', oracle, delivered, log) && raised == LastRaised(events', oracle)
      ensures stop && !raised ==> !WholeFrame(buffer.data[buffer.offset..])
      ensures !stop ==> !raised && buffer.Leftover() < old(buffer.Leftover())
    {
      events', sendconfirm', raised, stop := events, sendconfirm, false, true;
      ghost var before := buffer.Leftover();
      var more, payload, isLast := buffer.Next();
      if more {
        var event := Delivery(payload, |events| == 0, isLast);
        var outcome := oracle(|events|, payload);
        AddEvent(delivered, log, events, event, oracle, before, buffer.Leftover());
        var confirm := HandleEvent(payload, outcome);
        events', sendconfirm' := events + [event], sendconfirm || confirm;
        raised, stop := outcome.Raised?, outcome.Raised?;
      }
    }

    /** The frame loop of olr_client_get_change; it stops early only when the handler raises. */
    method FrameLoop(oracle: (nat, Payload) -> Outcome)
      returns (events: seq<Delivery>, sendconfirm: bool, raised: bool)
      requires buffer.Valid() && buffer.offset == 0 && Sound(buffer.data) && Logged()
      modifies this`position, this`trace, buffer`offset, buffer`delivered
      ensures Progress(events, sendconfirm, oracle, old(buffer.delivered), old(trace))
      ensures raised == LastRaised(events, oracle)
      ensures !raised ==> !WholeFrame(buffer.data[buffer.offset..])
    {
      events, sendconfirm, raised := [], false, false;
      assert buffer.data[0..] == buffer.data;
      var stop := false;
      while !stop
        invariant Progress(events, sendconfirm, oracle, old(buffer.delivered), old(trace))
        invariant raised == LastRaised(events, oracle) && (raised ==> stop)
        invariant stop && !raised ==> !WholeFrame(buffer.data[buffer.offset..])
        decreases !stop, if stop then 0 else buffer.Leftover()
      {
        events, sendconfirm, raised, stop :=
          Turn(events, sendconfirm, oracle, old(buffer.delivered), old(trace));
      }
    }

    /**
     * olr_client_get_change: append what was read, run the frame loop in one
     * transaction, commit, and keep exactly the unconsumed bytes. It fails when
     * an event raises or the commit does; the history then ends in the abort of
     * the events handled.
     */
    method GetChange(read: NetRead, oracle: (nat, Payload) -> Outcome, commitFails: bool)
      returns (attempted: bool, events: seq<Delivery>, sendconfirm: bool)
      requires Valid() && running
      requires read.Data? ==> Sound(buffer.data + read.chunk)
      modifies this, buffer
      ensures Safe(loaded, trace) && position == Replay(loaded, trace)
      ensures if running then Valid() else PhaseOf(trace) == Dead && attempted
      ensures attempted == (old(connected) && read.Data?)
      ensures attempted ==> connected == !read.peerClosed
      ensures sendconfirm <==> AnyRecorded(events, oracle)
      ensures !attempted ==> events == [] && trace == old(trace)
      ensures read.Nothing? ==>
        && connected == old(connected) && clean == old(clean)
        && buffer.data == old(buffer.data) && buffer.received == old(buffer.received)
      ensures read.Failure? ==> !connected
      ensures attempted ==>
        && BatchDone(events, oracle, commitFails, old(trace))
        && buffer.received == old(buffer.received) + read.chunk
        && buffer.delivered == old(buffer.delivered) + Payloads(events)
    {
      attempted, events, sendconfirm := false, [], false;
      if !connected {
        return;
      }
      match read {
        case Nothing =>
        case Failure(partial) =>
          buffer.Append(partial);
          connected, clean := false, false;
        case Data(chunk, peerClosed) =>
          connected, attempted := !peerClosed, true;
          events, sendconfirm := Batch(chunk, oracle, commitFails);
      }
    }

    /** The buffer after the batch with these events. */
    ghost predicate BufferedBatch(events: seq<Delivery>, oracle: (nat, Payload) -> Outcome, commitFails: bool)
      reads this, buffer
    {
      && buffer.Valid() && (running <==> !commitFails && !LastRaised(events, oracle))
      && (!LastRaised(events, oracle) ==> !WholeFrame(buffer.data[buffer.offset..]))
      && Flagged(events, buffer.Leftover()) && (running ==> clean)
    }

    /** The batch with these events has been committed, or has failed and been aborted. */
    ghost predicate BatchDone(events: seq<Delivery>, oracle: (nat, Payload) -> Outcome, commitFails: bool, log: seq<Action>)
      reads this, buffer
    {
      && BufferedBatch(events, oracle, commitFails)
      && trace == log + Handled(events, oracle) + [if running then Commit(connected) else Abort]
    }

    /** The transaction around the frames that a read completes. */
    method Batch(chunk: seq<byte>, oracle: (nat, Payload) -> Outcome, commitFails: bool)
      returns (events: seq<Delivery>, sendconfirm: bool)
      requires Valid() && running && Sound(buffer.data + chunk)
      modifies this`position, this`trace, this`running, this`clean, buffer
      ensures Safe(loaded, trace) && position == Replay(loaded, trace)
      ensures if running then Valid() else PhaseOf(trace) == Dead
      ensures sendconfirm <==> AnyRecorded(events, oracle)
      ensures BatchDone(events, oracle, commitFails, old(trace))
      ensures buffer.received == old(buffer.received) + chunk
      ensures buffer.delivered == old(buffer.delivered) + Payloads(events)
    {
      buffer.Append(chunk);
      var raised;
      events, sendconfirm, raised := FrameLoop(oracle);
      EndBatch(raised || commitFails);
    }

    /** Commits and compacts the buffer, or aborts and leaves the process. */
    method EndBatch(failed: bool)
      requires buffer.Valid() && Logged() && (!failed ==> !WholeFrame(buffer.data[buffer.offset..]))
      modifies this`trace, this`running, this`clean, buffer`data, buffer`offset
      ensures running == !failed && Safe(loaded, trace) && position == Replay(loaded, trace)
      ensures trace == old(trace) + [if failed then Abort else Commit(connected)]
      ensures failed ==> PhaseOf(trace) == Dead && buffer.data == old(buffer.data) && buffer.offset == old(buffer.offset)
      ensures !failed ==> clean && Valid() && buffer.data == old(buffer.data[buffer.offset..])
    {
      var end := if failed then Abort else Commit(connected);
      Extend(loaded, trace, end);
      trace := trace + [end];
      running := !failed;
      if running {
        buffer.Compact();
        clean := true;
      }
    }

    /** olr_client_confirm_scn: nothing is sent without a commit SCN or a connection. */
    method ConfirmScn()
      requires Valid()
      modifies this`trace
      ensures Valid()
      ensures trace == if position.cScn > 0 && connected then old(trace) + [Confirm(position)] else old(trace)
    {
      if position.cScn == 0 || !connected {
        return;
      }
      Extend(loaded, trace, Confirm(position));
      trace := trace + [Confirm(position)];
    }

    /** olr_client_write_scn_state: the clock decides whether an unforced flush is due. */
    method WriteScnState(force: bool, due: bool) returns (written: bool)
      requires Safe(loaded, trace) && position == Replay(loaded, trace)
      requires PhaseOf(trace) == Idle || (force && PhaseOf(trace) == Dead)
      modifies this`trace
      ensures written == (force || due)
      ensures trace == if written then old(trace) + [Flush(position, force)] else old(trace)
      ensures Safe(loaded, trace) && position == Replay(loaded, trace) && PhaseOf(trace) == old(PhaseOf(trace))
    {
      written := force || due;
      if written {
        Extend(loaded, trace, Flush(position, force));
        trace := trace + [Flush(position, force)];
      }
    }

    /**
     * The change-capture branch of the worker loop; a reconnection is Connect.
     * A batch in which an event was recorded is confirmed and flushed once it is
     * committed, any other batch is not.
     */
    method CaptureIteration(read: NetRead, oracle: (nat, Payload) -> Outcome, commitFails: bool, flushDue: bool)
      returns (attempted: bool, events: seq<Delivery>)
      requires Valid() && running
      requires read.Data? ==> Sound(buffer.data + read.chunk)
      modifies this, buffer
      ensures Safe(loaded, trace) && position == Replay(loaded, trace)
      ensures if running then Valid() else PhaseOf(trace) == Dead && attempted
      ensures attempted == (old(connected) && read.Data?)
      ensures attempted ==> connected == !read.peerClosed
      ensures read.Nothing? ==>
        && connected == old(connected) && clean == old(clean)
        && buffer.data == old(buffer.data) && buffer.received == old(buffer.received)
      ensures read.Failure? ==> !connected
      ensures attempted ==>
        && BufferedBatch(events, oracle, commitFails)
        && buffer.received == old(buffer.received) + read.chunk
        && buffer.delivered == old(buffer.delivered) + Payloads(events)
      ensures trace == if !attempted then old(trace) else
        old(trace) + Handled(events, oracle) + [if running then Commit(connected) else Abort]
        + if running && AnyRecorded(events, oracle) then Announcements(position, connected, flushDue) else []
    {
      var sendconfirm;
      attempted, events, sendconfirm := GetChange(read, oracle, commitFails);
      if running && sendconfirm {
        Announce(flushDue);
      } else {
        assert trace + [] == trace;
      }
    }

    /** Confirm to the peer, then flush if it is time. */
    method Announce(flushDue: bool)
      requires Valid()
      modifies this`trace
      ensures Valid() && trace == old(trace) + Announcements(position, connected, flushDue)
    {
      ghost var before := trace;
      ConfirmScn();
      var written := WriteScnState(false, flushDue);
      InOrder(before, position, connected, flushDue, trace);
    }

    /** The cleanup at process exit, after an orderly stop or after an error. */
    method Cleanup()
      requires Safe(loaded, trace) && position == Replay(loaded, trace)
      requires PhaseOf(trace) == Idle || PhaseOf(trace) == Dead
      modifies this`trace
      ensures Safe(loaded, trace) && trace == old(trace) + [Flush(position, true)]
    {
      var written := WriteScnState(true, false);
    }
  }

  /**
   * At exit all events handled so far are committed, if and only if the run did
   * not end by aborting a batch in which something had been done.
   */
  lemma ForcedFlushCoverage(loaded: ScnPosition, past: seq<Action>)
    requires Safe(loaded, past) && PhaseOf(past) != InTransaction
    ensures AllCommitted(past) <==> !AbortedBatch(past)
  {
    if AbortedBatch(past) {
      var i :| 0 < i < |past| && past[i].Abort? && Tentative(past[i - 1]);
      assert !CommittedAt(past, i - 1);
    } else if PhaseOf(past) == Idle {
      var n := CommittedUpTo(loaded, past);
    } else {
      DeadRun(loaded, past);
    }
  }

  ghost predicate AbortedBatch(past: seq<Action>) {
    exists i :: 0 < i < |past| && past[i].Abort? && Tentative(past[i - 1])
  }

  lemma {:induction false} DeadRun(loaded: ScnPosition, past: seq<Action>)
    requires Safe(loaded, past) && PhaseOf(past) == Dead && !AbortedBatch(past)
    ensures AllCommitted(past)
  {
    var init, a := past[..|past| - 1], past[|past| - 1];
    if a.Abort? {
      TransactionTail(loaded, past);
      var n := CommittedUpTo(loaded, init);
    } else {
      if AbortedBatch(init) {
        AbortedBatchStays(past);
      }
      DeadRun(loaded, init);
    }
    forall i | 0 <= i < |past| && Tentative(past[i]) ensures CommittedAt(past, i) {
      assert Tentative(init[i]);
      CommittedStays(past, i);
    }
  }

  lemma {:induction false} OpenTransaction(loaded: ScnPosition, past: seq<Action>)
    requires Safe(loaded, past) && PhaseOf(past) == InTransaction
    ensures past != [] && Tentative(past[|past| - 1])
  {
  }

  lemma TransactionTail(loaded: ScnPosition, past: seq<Action>)
    requires Safe(loaded, past) && past != [] && past[|past| - 1].Abort?
    ensures PhaseOf(past[..|past| - 1]) == InTransaction ==> AbortedBatch(past)
  {
    if PhaseOf(past[..|past| - 1]) == InTransaction {
      OpenTransaction(loaded, past[..|past| - 1]);
      assert Tentative(past[|past| - 2]);
    }
  }

  lemma AbortedBatchStays(past: seq<Action>)
    requires past != [] && AbortedBatch(past[..|past| - 1])
    ensures AbortedBatch(past)
  {
    var init := past[..|past| - 1];
    var i :| 0 < i < |init| && init[i].Abort? && Tentative(init[i - 1]);
    assert past[i].Abort? && Tentative(past[i - 1]);
  }

  /** Only the frame with an empty payload has arrived, whatever is made of its bytes. */
  lemma OneEmptyFrame(got: seq<Payload>, rest: seq<byte>)
    requires [0, 0, 0, 0] == Encode(got) + rest && !WholeFrame(rest)
    ensures got == [[]]
  {
    HeaderIsInjective(EncodeHeader(0), [0, 0, 0, 0]);
    assert Encode([[]]) == EncodeFrame([]) + Encode([]);
    var sent: seq<Payload> := [[]];
    ExactlyTheCompleteFrames(sent, got, rest);
    assert sent[..|got|] == got && sent[..1] == sent;
  }

  /**
   * A worker that starts at SCN 5, receives one event at SCN 7 and fails to
   * commit it: the flush at exit records SCN 7, which was rolled back.
   */
  method ForcedFlushAfterAbort() returns (w: Worker)
    ensures w.loaded == ScnPosition(5, 5, 0) && !w.running
    ensures w.trace == [Handle([], Recorded(ScnPosition(7, 7, 0))), Abort, Flush(ScnPosition(7, 7, 0), true)]
    ensures Replay(w.loaded, Committed(w.trace)) == ScnPosition(5, 5, 0)
  {
    w := AbortOneEvent(ScnPosition(5, 5, 0), ScnPosition(7, 7, 0));
    PositionOf(w.loaded, ScnPosition(7, 7, 0));
    w.Cleanup();
  }

  /** A worker whose first read brings one event, recorded at the given position, which it fails to commit. */
  method AbortOneEvent(start: ScnPosition, later: ScnPosition) returns (w: Worker)
    ensures fresh(w) && fresh(w.buffer) && w.loaded == start && !w.running
    ensures w.trace == [Handle([], Recorded(later)), Abort]
    ensures Safe(w.loaded, w.trace) && w.position == Replay(w.loaded, w.trace) && PhaseOf(w.trace) == Dead
  {
    var oracle := (i: nat, p: Payload) => Recorded(later);
    w := new Worker(start);
    w.Connect(true);
    assert w.buffer.data == [] && [] + [0, 0, 0, 0] == [0, 0, 0, 0];
    var attempted, events, sendconfirm := w.GetChange(Data([0, 0, 0, 0], false), oracle, true);
    OneEmptyFrame(w.buffer.delivered, w.buffer.data[w.buffer.offset..]);
    OneHandled(events, oracle, later);
  }

  lemma OneHandled(events: seq<Delivery>, oracle: (nat, Payload) -> Outcome, later: ScnPosition)
    requires [] + Payloads(events) == [[]] && oracle(0, []) == Recorded(later)
    ensures [] + Handled(events, oracle) + [Abort] == [Handle([], Recorded(later)), Abort]
  {
    assert [] + Payloads(events) == Payloads(events);
    OnePayload(events);
    assert Handled(events[..0], oracle) == [];
  }

  lemma PositionOf(loaded: ScnPosition, later: ScnPosition)
    requires later.scn > 0 && later.cScn > 0 && loaded.cIdx == later.cIdx == 0
    ensures var past := [Handle([], Recorded(later)), Abort];
      && Replay(loaded, past) == later
      && Replay(loaded, Committed(past + [Flush(later, true)])) == loaded
  {
    var handle := Handle([], Recorded(later));
    var past := [handle, Abort];
    assert past[..1] == [handle] && [handle][..0] == [];
    assert Replay(loaded, [handle]) == later;
    assert Settled([handle]) == [];
    assert Committed(past) == [];
    var flush := Flush(later, true);
    assert (past + [flush])[..2] == past;
    assert Committed(past + [flush]) == [flush] && [flush][..0] == [];
  }

  lemma OnePayload(events: seq<Delivery>)
    requires Payloads(events) == [[]]
    ensures |events| == 1 && events[0].payload == [] && events[..0] == []
  {
    var init := events[..|events| - 1];
    assert |Payloads(init)| == 0;
    assert init == [] || |Payloads(init)| >= 1;
  }

  // ------------------------------------------------------- whole connections

  ghost function Flatten(chunks: seq<seq<byte>>): seq<byte> {
    if chunks == [] then [] else Flatten(chunks[..|chunks| - 1]) + chunks[|chunks| - 1]
  }

  lemma {:induction false} FlattenPrefix(chunks: seq<seq<byte>>, n: nat)
    requires n <= |chunks|
    ensures Flatten(chunks[..n]) <= Flatten(chunks)
    decreases |chunks| - n
  {
    if n == |chunks| {
      assert chunks[..n] == chunks;
    } else {
      FlattenPrefix(chunks, n + 1);
      assert chunks[..n + 1][..n] == chunks[..n];
    }
  }

  lemma RestIsSound(fs: seq<Payload>, got: seq<Payload>, rest: seq<byte>)
    requires got <= fs && Encode(got) + rest <= Encode(fs)
    ensures Sound(rest)
  {
    assert fs == got + fs[|got|..];
    EncodeConcat(got, fs[|got|..]);
    PrefixDrop(Encode(got), rest, Encode(fs[|got|..]));
    FramesAreSound(rest, fs[|got|..]);
  }

  lemma NextChunkIsSound(fs: seq<Payload>, got: seq<Payload>, data: seq<byte>, chunk: seq<byte>)
    requires Encode(got) + data + chunk <= Encode(fs) && !WholeFrame(data)
    ensures Sound(data + chunk)
  {
    assert SentSoFar(Encode(got) + data, fs);
    ExactlyTheCompleteFrames(fs, got, data);
    ConcatAssociates(Encode(got), data, chunk);
    RestIsSound(fs, got, data + chunk);
  }

  /**
   * However a stream of frames is split over calls on one connection, the
   * payloads handed over are the first of the frames sent, in order and once
   * each; unless an event raises or a commit fails, they are exactly the frames
   * received in full and the buffer keeps exactly the unconsumed tail.
   */
  method ReceiveAll(w: Worker, chunks: seq<seq<byte>>, ghost fs: seq<Payload>,
                    oracle: (nat, nat, Payload) -> Outcome, commitFails: nat -> bool, flushDue: nat -> bool)
    returns (payloads: seq<Payload>)
    requires w.Valid() && w.running && w.connected && w.clean
    requires w.buffer.received == [] && w.buffer.delivered == []
    requires Flatten(chunks) <= Encode(fs)
    modifies w, w.buffer
    ensures payloads <= fs && payloads == w.buffer.delivered
    ensures w.running ==> w.Valid() && Encode(payloads) + w.buffer.data == Flatten(chunks)
    ensures w.running && |payloads| < |fs| ==> |Flatten(chunks)| < |Encode(fs[..|payloads| + 1])|
    ensures !w.running ==> (exists turn :: commitFails(turn)) || exists turn, n, p :: oracle(turn, n, p).Raised?
  {
    payloads := [];
    for i := 0 to |chunks|
      invariant Receiving(w, chunks, i, payloads) && w.running
    {
      payloads := ReceiveOne(w, chunks, i, payloads, fs, (n: nat, p: Payload) => oracle(i, n, p), commitFails(i), flushDue(i));
      if !w.running {
        DeliveredWereSent(fs, payloads, w.buffer.data[w.buffer.offset..]);
        return;
      }
    }
    assert chunks[..|chunks|] == chunks;
    assert w.buffer.data[0..] == w.buffer.data;
    ExactlyTheCompleteFrames(fs, payloads, w.buffer.data);
  }

  /** The first i chunks have been received; the worker is ready for the next one unless it has failed. */
  ghost predicate Receiving(w: Worker, chunks: seq<seq<byte>>, i: nat, payloads: seq<Payload>)
    requires i <= |chunks|
    reads w, w.buffer
  {
    && w.buffer.Valid() && w.buffer.received == Flatten(chunks[..i]) && w.buffer.delivered == payloads
    && (w.running ==> w.Valid() && w.connected && w.clean)
  }

  method ReceiveOne(w: Worker, chunks: seq<seq<byte>>, i: nat, payloads: seq<Payload>, ghost fs: seq<Payload>,
                    oracle: (nat, Payload) -> Outcome, commitFails: bool, flushDue: bool)
    returns (payloads': seq<Payload>)
    requires i < |chunks| && Receiving(w, chunks, i, payloads) && w.running && Flatten(chunks) <= Encode(fs)
    modifies w, w.buffer
    ensures Receiving(w, chunks, i + 1, payloads') && Flatten(chunks[..i + 1]) <= Encode(fs)
    ensures !w.running ==> commitFails || exists n, p :: oracle(n, p).Raised?
  {
    FlattenPrefix(chunks, i + 1);
    PrefixOfPrefix(Flatten(chunks[..i + 1]), Flatten(chunks), Encode(fs));
    assert chunks[..i + 1][..i] == chunks[..i];
    assert w.buffer.data[0..] == w.buffer.data;
    NextChunkIsSound(fs, payloads, w.buffer.data, chunks[i]);
    var attempted, events := w.CaptureIteration(Data(chunks[i], false), oracle, commitFails, flushDue);
    payloads' := payloads + Payloads(events);
    if !w.running && !commitFails {
      assert oracle(|events| - 1, events[|events| - 1].payload).Raised?;
    }
  }

  // ---------------------------------------------------------------- whole runs

  /** The bytes that a connection's reads bring in. */
  ghost function Sent(nets: seq<NetRead>): seq<byte> {
    if nets == [] then [] else
      var last := nets[|nets| - 1];
      Sent(nets[..|nets| - 1]) +
      (if last.Data? then last.chunk else if last.Failure? then last.partial else [])
  }

  lemma {:induction false} SentPrefix(nets: seq<NetRead>, n: nat)
    requires n <= |nets|
    ensures Sent(nets[..n]) <= Sent(nets)
    decreases |nets| - n
  {
    if n == |nets| {
      assert nets[..n] == nets;
    } else {
      SentPrefix(nets, n + 1);
      assert nets[..n + 1][..n] == nets[..n];
    }
  }

  lemma PrefixOfPrefix(a: seq<byte>, b: seq<byte>, c: seq<byte>)
    requires a <= b <= c
    ensures a <= c
  {
    assert forall i :: 0 <= i < |a| ==> a[i] == b[i] == c[i];
  }

  /** Between two turns of the capture loop on one connection. */
  ghost predicate Serving(w: Worker, nets: seq<NetRead>)
    reads w, w.buffer
  {
    && Safe(w.loaded, w.trace) && w.position == Replay(w.loaded, w.trace)
    && (if w.running then w.Valid() else PhaseOf(w.trace) == Dead)
    && Prompt(w.loaded, w.trace) && !Due(w.loaded, w.trace)
    && (w.running && w.connected ==> w.clean && w.buffer.received == Sent(nets))
  }

  method ServeOnce(w: Worker, nets: seq<NetRead>, i: nat, ghost fs: seq<Payload>,
                   oracle: (nat, Payload) -> Outcome, commitFails: bool, flushDue: bool)
    requires i < |nets| && Serving(w, nets[..i]) && w.running && w.connected && Sent(nets) <= Encode(fs)
    modifies w, w.buffer
    ensures Serving(w, nets[..i + 1])
  {
    assert nets[..i + 1][..i] == nets[..i];
    assert w.buffer.data[0..] == w.buffer.data;
    if nets[i].Data? {
      SentPrefix(nets, i + 1);
      PrefixOfPrefix(Sent(nets[..i + 1]), Sent(nets), Encode(fs));
      NextChunkIsSound(fs, w.buffer.delivered, w.buffer.data, nets[i].chunk);
    }
    ghost var past := w.trace;
    var attempted, events := w.CaptureIteration(nets[i], oracle, commitFails, flushDue);
    if attempted {
      TurnKeepsPrompt(w.loaded, past, events, oracle, w.running, w.connected, w.position, flushDue, w.trace);
    }
  }

  lemma {:induction false} KeepsPosition(loaded: ScnPosition, past: seq<Action>, more: seq<Action>)
    requires forall i :: 0 <= i < |more| ==> SetBy(more[i]).None?
    ensures Replay(loaded, past + more) == Replay(loaded, past)
  {
    if more == [] {
      assert past + more == past;
    } else {
      var n := |more| - 1;
      KeepsPosition(loaded, past, more[..n]);
      Extend(loaded, past + more[..n], more[n]);
      assert past + more == past + more[..n] + [more[n]];
    }
  }

  /** Ending a batch and announcing it do not move the position. */
  lemma SamePositionThroughout(loaded: ScnPosition, handled: seq<Action>, end: Action, announced: seq<Action>)
    requires end.Commit? || end.Abort?
    requires forall i :: 0 <= i < |announced| ==> announced[i].Confirm? || announced[i].Flush?
    ensures Replay(loaded, handled + [end] + announced) == Replay(loaded, handled)
  {
    KeepsPosition(loaded, handled, [end] + announced);
    assert handled + ([end] + announced) == handled + [end] + announced;
  }

  /** One connection: read, handle, commit, confirm and flush until the connection or the process ends. */
  method ServeConnection(w: Worker, nets: seq<NetRead>, ghost fs: seq<Payload>,
                         oracle: (nat, nat, Payload) -> Outcome, commitFails: nat -> bool, flushDue: nat -> bool)
    requires w.Valid() && w.running && w.connected && w.clean
    requires w.buffer.received == [] && Sent(nets) <= Encode(fs)
    requires Prompt(w.loaded, w.trace) && !Due(w.loaded, w.trace)
    modifies w, w.buffer
    ensures Surviving(w, w.loaded)
  {
    var i := 0;
    assert nets[..0] == [];
    while i < |nets| && w.running && w.connected
      invariant i <= |nets| && Serving(w, nets[..i])
    {
      ServeOnce(w, nets, i, fs, (n: nat, p: Payload) => oracle(i, n, p), commitFails(i), flushDue(i));
      i := i + 1;
    }
  }

  /** What a worker goes through: connections, and positions set without one. */
  datatype Session =
    | Refused                                        // an attempt to connect that fails
    | Connection(nets: seq<NetRead>)
    | Offset(scn: nat, cScn: nat, cIdx: nat)         // an offset update while paused
    | SnapshotEvent(scn: nat, cScn: nat, fails: bool)  // the last event of a Debezium snapshot
    | SnapshotEnd(scn: nat)                          // the switch from snapshot to change capture

  ghost predicate Surviving(w: Worker, start: ScnPosition)
    reads w, w.buffer
  {
    && w.loaded == start && Safe(start, w.trace) && w.position == Replay(start, w.trace)
    && (if w.running then w.Valid() else PhaseOf(w.trace) == Dead)
    && Prompt(start, w.trace) && !Due(start, w.trace)
  }

  method RunSession(w: Worker, s: Session, ghost stream: seq<Payload>,
                    oracle: (nat, nat, Payload) -> Outcome, commitFails: nat -> bool, flushDue: nat -> bool)
    requires Surviving(w, w.loaded) && w.running
    requires s.Connection? ==> Sent(s.nets) <= Encode(stream)
    modifies w, w.buffer
    ensures Surviving(w, w.loaded)
  {
    ghost var past := w.trace;
    IdleHasNothingRecorded(past);
    match s {
      case Refused =>
        w.Connect(false);
      case Connection(nets) =>
        w.Connect(true);
        ServeConnection(w, nets, stream, oracle, commitFails, flushDue);
      case Offset(scn, cScn, cIdx) =>
        w.SetOffset(scn, cScn, cIdx);
        PromptMore(w.loaded, past, Place(ScnPosition(scn, cScn, cIdx), false));
      case SnapshotEvent(scn, cScn, fails) =>
        w.SnapshotBatch(scn, cScn, fails);
        var place := Place(ScnPosition(scn, if cScn > 0 then cScn else scn, 0), true);
        PromptMore(w.loaded, past, place);
        PromptMore(w.loaded, past + [place], if fails then Abort else Commit(w.connected));
      case SnapshotEnd(scn) =>
        w.FinishSnapshot(scn);
        var place := Place(ScnPosition(scn, scn, 0), false);
        PromptMore(w.loaded, past, place);
        PromptMore(w.loaded, past + [place], Flush(w.position, true));
    }
  }

  /**
   * A whole life of the client: any number of connections, each cut anywhere,
   * offset updates and snapshots between them, with events that may raise and
   * commits that may fail in any turn of any connection, and the flush at exit.
   * At every confirm and every unforced flush of it, everything done so far is
   * committed and the position is the last one set; and a confirm is sent right
   * after each commit of a recorded batch with a connection and a commit SCN,
   * and after no other.
   */
  method RunWorker(start: ScnPosition, sessions: seq<Session>, ghost streams: seq<seq<Payload>>,
                   oracle: (nat, nat, nat, Payload) -> Outcome, commitFails: (nat, nat) -> bool, flushDue: (nat, nat) -> bool)
    returns (w: Worker)
    requires |streams| == |sessions|
    requires forall k :: 0 <= k < |sessions| && sessions[k].Connection? ==> Sent(sessions[k].nets) <= Encode(streams[k])
    ensures w.loaded == start && Safe(start, w.trace) && w.position == Replay(start, w.trace)
    ensures w.trace != [] && w.trace[|w.trace| - 1] == Flush(w.position, true)
    ensures forall i :: 0 <= i < |w.trace| && Announces(w.trace[i]) ==> Justified(start, w.trace, i)
    ensures forall i :: 0 <= i < |w.trace| ==> Answered(start, w.trace, i)
  {
    w := new Worker(start);
    var k := 0;
    while k < |sessions| && w.running
      invariant k <= |sessions| && fresh(w) && fresh(w.buffer) && Surviving(w, start)
    {
      RunSession(w, sessions[k], streams[k], (i: nat, n: nat, p: Payload) => oracle(k, i, n, p),
                 (i: nat) => commitFails(k, i), (i: nat) => flushDue(k, i));
      k := k + 1;
    }
    PromptMore(start, w.trace, Flush(w.position, true));
    Extend(start, w.trace, Flush(w.position, true));
    w.Cleanup();
    RunLaws(start, w.trace);
  }

  // -------------------------------------------------- the events of one call

  function Payloads(events: seq<Delivery>): seq<Payload> {
    if events == [] then [] else Payloads(events[..|events| - 1]) + [events[|events| - 1].payload]
  }

  /** The actions that handling these events leaves in the trace. */
  function Handled(events: seq<Delivery>, oracle: (nat, Payload) -> Outcome): seq<Action> {
    if events == [] then [] else
      var n := |events| - 1;
      Handled(events[..n], oracle) + [Handle(events[n].payload, oracle(n, events[n].payload))]
  }

  /** The last event of the call raised an error, and so ended the call. */
  predicate LastRaised(events: seq<Delivery>, oracle: (nat, Payload) -> Outcome) {
    events != [] && oracle(|events| - 1, events[|events| - 1].payload).Raised?
  }

  /** Some event of the call was recorded, and the handler asked for a confirm. */
  predicate AnyRecorded(events: seq<Delivery>, oracle: (nat, Payload) -> Outcome) {
    exists k | 0 <= k < |events| :: oracle(k, events[k].payload).Recorded?
  }

  /** The confirm, which needs a commit SCN and a connection, and the flush, when it is due. */
  function Announcements(position: ScnPosition, connected: bool, flushDue: bool): seq<Action> {
    (if position.cScn > 0 && connected then [Confirm(position)] else []) +
    (if flushDue then [Flush(position, false)] else [])
  }

  predicate Flagged(events: seq<Delivery>, leftover: int) {
    events == [] ||
    (var n := |events| - 1;
     (events[n].isFirst <==> n == 0) && (events[n].isLast <==> leftover < 4) && Flagged(events[..n], 4))
  }

  lemma AddEvent(delivered: seq<Payload>, trace: seq<Action>, events: seq<Delivery>, e: Delivery,
                 oracle: (nat, Payload) -> Outcome, before: int, after: int)
    requires before >= 4 && Flagged(events, before)
    requires (e.isFirst <==> |events| == 0) && (e.isLast <==> after < 4)
    ensures Flagged(events + [e], after)
    ensures delivered + Payloads(events + [e]) == delivered + Payloads(events) + [e.payload]
    ensures trace + Handled(events + [e], oracle)
         == trace + Handled(events, oracle) + [Handle(e.payload, oracle(|events|, e.payload))]
    ensures AnyRecorded(events + [e], oracle) <==> AnyRecorded(events, oracle) || oracle(|events|, e.payload).Recorded?
  {
    assert (events + [e])[..|events|] == events;
    assert forall k :: 0 <= k < |events| ==> (events + [e])[k] == events[k];
  }

  /**
   * isfirst marks exactly the first event of a call; islast only ever marks the
   * last one, and does so iff fewer than four bytes are left after it.
   */
  lemma {:induction false} FlagsMean(events: seq<Delivery>, leftover: int, i: nat)
    requires Flagged(events, leftover) && i < |events|
    ensures events[i].isFirst <==> i == 0
    ensures events[i].isLast <==> i == |events| - 1 && leftover < 4
    decreases |events|
  {
    if i < |events| - 1 {
      FlagsMean(events[..|events| - 1], 4, i);
    }
  }
}

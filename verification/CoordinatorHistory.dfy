/** The sync coordinator told from the history of its accepted calls alone. */
module CoordinatorHistory {
  import opened SyncCoordinator

  /** A call into the coordinator, with the transport's answer where it is asked. */
  datatype Move =
    | Ask(recovery: bool, answer: SyncStatus)
    | Abandon(answer: SyncStatus)
    | Report(event: SyncEvent)

  function MoveSpec(s: SyncSnapshot, move: Move): Answered {
    match move
    case Ask(recovery, answer) => RequestSpec(s, recovery, answer)
    case Abandon(answer) => CancelSpec(s, answer)
    case Report(event) => EventSpec(s, event)
  }

  datatype Past = Past(snapshot: SyncSnapshot, history: seq<Move>)

  /** A run of calls, and those of them that were accepted. */
  function RunMoves(moves: seq<Move>): Past {
    if moves == [] then Past(NO_SYNC, [])
    else
      var before := RunMoves(moves[..|moves| - 1]);
      var move := moves[|moves| - 1];
      var done := MoveSpec(before.snapshot, move);
      Past(done.snapshot, if done.status == SyncOk then before.history + [move] else before.history)
  }

  predicate Ends(move: Move) {
    move.Report? && move.event.kind in {EventCompleted, EventFailed, EventCancelled}
  }

  predicate NoEndAfter(h: seq<Move>, i: nat) {
    forall k | i < k < |h| :: !Ends(h[k])
  }

  /** An operation was asked for and has not ended. */
  ghost predicate Open(h: seq<Move>) {
    exists i :: 0 <= i < |h| && h[i].Ask? && NoEndAfter(h, i)
  }

  ghost predicate Begun(h: seq<Move>) {
    exists i :: 0 <= i < |h| && h[i].Report? && h[i].event.kind == EventStarted && NoEndAfter(h, i)
  }

  ghost predicate Abandoned(h: seq<Move>) {
    exists i :: 0 <= i < |h| && h[i].Abandon? && NoEndAfter(h, i)
  }

  lemma NoEndOneMore(h: seq<Move>, move: Move, i: nat)
    requires i < |h|
    ensures NoEndAfter(h + [move], i) <==> NoEndAfter(h, i) && !Ends(move)
  {
    var grown := h + [move];
    assert forall k | 0 <= k < |h| :: grown[k] == h[k];
    assert grown[|h|] == move;
  }

  /** How one more accepted call changes what is open, begun and abandoned. */
  lemma HistoryOne(h: seq<Move>, move: Move)
    ensures var grown := h + [move];
            && (Open(grown) <==> move.Ask? || (Open(h) && !Ends(move)))
            && (Begun(grown) <==> (move.Report? && move.event.kind == EventStarted) || (Begun(h) && !Ends(move)))
            && (Abandoned(grown) <==> move.Abandon? || (Abandoned(h) && !Ends(move)))
  {
    var grown := h + [move];
    assert NoEndAfter(grown, |h|) && grown[|h|] == move;
    forall i | 0 <= i < |h|
      ensures NoEndAfter(grown, i) <==> NoEndAfter(h, i) && !Ends(move)
      ensures grown[i] == h[i]
    {
      NoEndOneMore(h, move, i);
    }
    hide NoEndAfter;
  }

  /** Where the operation stands, or how the last one ended. */
  ghost predicate StateTold(s: SyncSnapshot, h: seq<Move>) {
    if Open(h) then s.state == if Abandoned(h) then Cancelling else if Begun(h) then Running else Queued
    else if h == [] then s.state == Idle
    else
      && Ends(h[|h| - 1])
      && s.state == match h[|h| - 1].event.kind
                    case EventCompleted => Completed
                    case EventFailed => Failed
                    case _ => Cancelled
  }

  /** The report of the last event, or blank since the last request but for its kind. */
  function ReportOf(h: seq<Move>): SyncReport {
    if h == [] then NO_REPORT
    else
      match h[|h| - 1]
      case Ask(recovery, _) => NO_REPORT.(closeRecoveryAttempt := recovery)
      case Report(event) => event.report
      case Abandon(_) => ReportOf(h[..|h| - 1])
  }

  ghost predicate Told(s: SyncSnapshot, h: seq<Move>) {
    StateTold(s, h) && s.report == ReportOf(h)
  }

  /** What is accepted, told from the history alone. */
  ghost predicate Allowed(h: seq<Move>, move: Move) {
    match move
    case Ask(_, answer) => !Open(h) && answer == SyncOk
    case Abandon(answer) => Open(h) && !Abandoned(h) && answer == SyncOk
    case Report(event) =>
      && Open(h)
      && match event.kind
         case EventStarted => Abandoned(h) || !Begun(h)
         case EventProgress => Abandoned(h) || Begun(h)
         case EventCompleted => Begun(h) && !Abandoned(h)
         case _ => true
  }

  lemma OneMoreTold(s: SyncSnapshot, h: seq<Move>, move: Move)
    requires Told(s, h) && (!Open(h) ==> !Begun(h) && !Abandoned(h))
    ensures var done := MoveSpec(s, move);
            && (done.status == SyncOk <==> Allowed(h, move))
            && (done.status != SyncOk ==> done.snapshot == s)
            && (done.status == SyncOk ==> Told(done.snapshot, h + [move]))
            && (!Open(h + [move]) && done.status == SyncOk ==> !Begun(h + [move]) && !Abandoned(h + [move]))
  {
    HistoryOne(h, move);
    hide Open, Begun, Abandoned;
    assert (h + [move])[..|h|] == h;
  }

  lemma {:induction false} RunIsTold(moves: seq<Move>)
    ensures var r := RunMoves(moves);
            && Told(r.snapshot, r.history)
            && (!Open(r.history) ==> !Begun(r.history) && !Abandoned(r.history))
  {
    hide MoveSpec, Told, Open, Begun, Abandoned, Allowed;
    if moves == [] {
      NothingTold();
    } else {
      RunIsTold(moves[..|moves| - 1]);
      var before := RunMoves(moves[..|moves| - 1]);
      OneMoreTold(before.snapshot, before.history, moves[|moves| - 1]);
    }
  }

  lemma NothingTold()
    ensures Told(NO_SYNC, []) && !Begun([]) && !Abandoned([])
  {
  }

  /**
   * After any run of calls, what happens next follows from the accepted ones alone: a request is taken on exactly when
   * none is open, a cancellation once while one is, a completion only of what has begun and was not abandoned, and so
   * on; a refusal changes nothing, and an acceptance leaves the state and the report that the longer history tells.
   */
  lemma HistoryDecides(moves: seq<Move>, move: Move)
    ensures var r := RunMoves(moves);
            var done := MoveSpec(r.snapshot, move);
            && Told(r.snapshot, r.history)
            && (done.status == SyncOk <==> Allowed(r.history, move))
            && (done.status != SyncOk ==> done.snapshot == r.snapshot)
            && (done.status == SyncOk ==> Told(done.snapshot, r.history + [move]))
            && (move.Ask? && !Open(r.history) ==> done.status == move.answer)
  {
    RunIsTold(moves);
    hide RunMoves;
    var r := RunMoves(moves);
    OneMoreTold(r.snapshot, r.history, move);
    hide Open, Begun, Abandoned, Told;
  }
}

/**
 Idempotent mutation execution as a protocol over interleaved attempts. The database's claim
 call is given its contract: a fresh key is claimed under a lock, a committed equal request
 is replayed, a different one is a conflict. Everything else follows the executor, including
 rollbacks at any point and commits whose acknowledgement is lost.
 */
module Idempotency {
  import opened Prelude

  datatype Json = Array(items: seq<string>) | Scalar(text: string)

  datatype ExecuteError =
    | StartTransaction | TransactionConfiguration | DatabaseRole | TargetRelation | ClaimFailed
    | IdempotencyConflict | CommitIndeterminate | InvalidReplayResult
    | Cancelled | Execution | InvalidRowShape | ResultByteLimitExceeded | AffectedRowMismatch | Serialization | FinishAudit

  // ----- collecting the statement's rows -----

  /** Bytes of the JSON array built so far: brackets, rows and separating commas. */
  function ByteCount(rows: seq<Json>, size: Json -> nat): nat {
    if rows == [] then 2
    else ByteCount(rows[..|rows| - 1], size) + (if |rows| > 1 then 1 else 0) + size(rows[|rows| - 1])
  }

  lemma {:induction false} ByteCountGrows(rows: seq<Json>, size: Json -> nat, i: nat)
    requires i <= |rows|
    ensures ByteCount(rows[..i], size) <= ByteCount(rows, size)
  {
    if i < |rows| {
      ByteCountGrows(rows[..|rows| - 1], size, i);
      assert rows[..|rows| - 1][..i] == rows[..i];
    } else {
      assert rows[..i] == rows;
    }
  }

  predicate AllArrays(rows: seq<Json>) {
    forall i :: 0 <= i < |rows| ==> rows[i].Array?
  }

  /** `run_statement`: every row must be an array, and all of them must fit; nothing is truncated. */
  method CollectRows(source: seq<Json>, size: Json -> nat, maximum: nat) returns (r: Result<seq<Json>, ExecuteError>)
    ensures r.Ok? <==> AllArrays(source) && (source == [] || ByteCount(source, size) <= maximum)
    ensures r.Ok? ==> r.value == source
    ensures r.Err? ==> r.error == InvalidRowShape || r.error == ResultByteLimitExceeded
  {
    var rows, byteCount, i := [], 2, 0;
    while i < |source|
      invariant 0 <= i <= |source|
      invariant rows == source[..i] && AllArrays(rows)
      invariant byteCount == ByteCount(rows, size)
      invariant i > 0 ==> byteCount <= maximum
    {
      var value := source[i];
      if !value.Array? {
        return Err(InvalidRowShape);
      }
      var separator := if rows != [] then 1 else 0;
      assert source[..i + 1][..i] == source[..i];
      assert ByteCount(source[..i + 1], size) == byteCount + separator + size(value);
      if byteCount + separator + size(value) > maximum {
        ByteCountGrows(source, size, i + 1);
        return Err(ResultByteLimitExceeded);
      }
      byteCount := byteCount + separator + size(value);
      rows := rows + [value];
      i := i + 1;
    }
    assert source[..i] == source;
    return Ok(rows);
  }

  /** `replay_rows`: the stored result must be an array of arrays. */
  function ReplayRows(stored: Option<seq<Json>>): Result<seq<Json>, ExecuteError> {
    if stored.None? || !AllArrays(stored.value) then Err(InvalidReplayResult) else Ok(stored.value)
  }

  // ----- the world -----

  /** `body` stands for the mutation hash, the revision and the role: all a replay must agree on. */
  datatype Request = Request(key: string, body: string, expectedRows: nat)

  datatype Entry = Entry(body: string, mutationId: nat, rows: Option<seq<Json>>, affected: nat)

  datatype Outcome =
    | Success(mutationId: nat, rows: seq<Json>, affected: nat, replayed: bool)
    | Failure(error: ExecuteError)

  datatype Phase =
    | Started
    | Executing(mutationId: nat)
    | Ran(mutationId: nat, rows: seq<Json>)
    | Recorded(mutationId: nat, rows: seq<Json>)
    | Replaying(entry: Entry)
    | Conflicting
    | Done(outcome: Outcome)

  datatype Attempt = Attempt(request: Request, phase: Phase)

  /** One committed business change: who made it, for which key. */
  datatype Applied = Applied(attempt: nat, key: string, mutationId: nat)

  datatype World = World(
    entries: map<string, Entry>,
    applied: seq<Applied>,
    locks: map<string, nat>,
    attempts: map<nat, Attempt>,
    nextMutation: nat)

  const EMPTY: World := World(map[], [], map[], map[], 0)

  datatype Fate = Acknowledged | LostAfterCommit | LostBeforeCommit

  datatype Event =
    | Begin(attempt: nat, request: Request)
    | Claim(attempt: nat)
    | Statement(attempt: nat, rows: seq<Json>, tooLarge: bool)
    | Finish(attempt: nat)
    | Commit(attempt: nat, fate: Fate)
    | Fail(attempt: nat, error: ExecuteError)

  predicate HoldsLock(p: Phase) {
    p.Executing? || p.Ran? || p.Recorded?
  }

  function SetPhase(w: World, a: nat, p: Phase): World
    requires a in w.attempts
  {
    w.(attempts := w.attempts[a := w.attempts[a].(phase := p)])
  }

  /** Dropping the transaction: the claim disappears and nothing was applied. */
  function RollBack(w: World, a: nat, e: ExecuteError): World
    requires a in w.attempts
  {
    SetPhase(w.(locks := if HoldsLock(w.attempts[a].phase) then w.locks - {w.attempts[a].request.key} else w.locks), a, Done(Failure(e)))
  }

  /** The contract of the claim call. */
  function ClaimKey(w: World, a: nat): World
    requires a in w.attempts
  {
    var r := w.attempts[a].request;
    if r.key in w.locks then w
    else if r.key in w.entries then
      SetPhase(w, a, if w.entries[r.key].body == r.body then Replaying(w.entries[r.key]) else Conflicting)
    else SetPhase(w.(locks := w.locks[r.key := a], nextMutation := w.nextMutation + 1), a, Executing(w.nextMutation))
  }

  /** What the executor makes of the returned rows. */
  function StatementOutcome(r: Request, rows: seq<Json>, tooLarge: bool): Result<seq<Json>, ExecuteError> {
    if !AllArrays(rows) then Err(InvalidRowShape)
    else if tooLarge then Err(ResultByteLimitExceeded)
    else if |rows| != r.expectedRows then Err(AffectedRowMismatch)
    else Ok(rows)
  }

  function CommitRecorded(w: World, a: nat, outcome: Outcome): World
    requires a in w.attempts && w.attempts[a].phase.Recorded?
  {
    var Attempt(r, p) := w.attempts[a];
    SetPhase(w.(entries := w.entries[r.key := Entry(r.body, p.mutationId, Some(p.rows), |p.rows|)],
                applied := w.applied + [Applied(a, r.key, p.mutationId)],
                locks := w.locks - {r.key}),
             a, Done(outcome))
  }

  function CommitAttempt(w: World, a: nat, fate: Fate): World
    requires a in w.attempts
  {
    var p := w.attempts[a].phase;
    match p
    case Recorded(id, rows) =>
      (match fate
       case Acknowledged => CommitRecorded(w, a, Success(id, rows, |rows|, false))
       case LostAfterCommit => CommitRecorded(w, a, Failure(CommitIndeterminate))
       case LostBeforeCommit => RollBack(w, a, CommitIndeterminate))
    case Replaying(entry) =>
      (match ReplayRows(entry.rows)
       case Err(e) => RollBack(w, a, e)
       case Ok(rows) =>
         SetPhase(w, a, Done(if fate == Acknowledged then Success(entry.mutationId, rows, entry.affected, true) else Failure(CommitIndeterminate))))
    case Conflicting => SetPhase(w, a, Done(Failure(if fate == Acknowledged then IdempotencyConflict else CommitIndeterminate)))
    case _ => w
  }

  /** One event. Events that are not enabled change nothing. */
  function Apply(w: World, e: Event): World {
    match e
    case Begin(a, r) => if a in w.attempts then w else w.(attempts := w.attempts[a := Attempt(r, Started)])
    case Claim(a) => if a in w.attempts && w.attempts[a].phase.Started? then ClaimKey(w, a) else w
    case Statement(a, rows, tooLarge) =>
      if a in w.attempts && w.attempts[a].phase.Executing? then
        match StatementOutcome(w.attempts[a].request, rows, tooLarge)
        case Ok(result) => SetPhase(w, a, Ran(w.attempts[a].phase.mutationId, result))
        case Err(error) => RollBack(w, a, error)
      else w
    case Finish(a) =>
      if a in w.attempts && w.attempts[a].phase.Ran? then SetPhase(w, a, Recorded(w.attempts[a].phase.mutationId, w.attempts[a].phase.rows)) else w
    case Commit(a, fate) => if a in w.attempts then CommitAttempt(w, a, fate) else w
    case Fail(a, error) =>
      if a in w.attempts && !w.attempts[a].phase.Done? && error != IdempotencyConflict && error != CommitIndeterminate
      then RollBack(w, a, error) else w
  }

  function Run(events: seq<Event>): World {
    if events == [] then EMPTY else Apply(Run(events[..|events| - 1]), events[|events| - 1])
  }

  // ----- the invariant -----

  function CountKey(applied: seq<Applied>, key: string): nat {
    if applied == [] then 0
    else CountKey(applied[..|applied| - 1], key) + (if applied[|applied| - 1].key == key then 1 else 0)
  }

  ghost predicate LocksHeld(w: World) {
    && (forall k :: k in w.locks ==> k !in w.entries && LockedBy(w, k, w.locks[k]))
    && (forall a :: a in w.attempts && HoldsLock(w.attempts[a].phase) ==>
      (w.attempts[a].request.key in w.locks && w.locks[w.attempts[a].request.key] == a))
  }

  ghost predicate LockedBy(w: World, key: string, a: nat) {
    a in w.attempts && w.attempts[a].request.key == key && HoldsLock(w.attempts[a].phase)
  }

  /** Exactly one committed change per recorded key, none for any other. */
  ghost predicate AppliedOnce(w: World) {
    forall k :: CountKey(w.applied, k) == if k in w.entries then 1 else 0
  }

  ghost predicate EntriesSound(w: World) {
    forall k :: k in w.entries ==>
      var e := w.entries[k];
      e.rows.Some? && AllArrays(e.rows.value) && e.affected == |e.rows.value|
  }

  ghost predicate PhaseSound(w: World, a: nat)
    requires a in w.attempts
  {
    var Attempt(r, p) := w.attempts[a];
    match p
    case Started => true
    case Executing(_) => true
    case Ran(_, rows) => AllArrays(rows)
    case Recorded(_, rows) => AllArrays(rows)
    case Replaying(entry) => r.key in w.entries && w.entries[r.key] == entry && entry.body == r.body
    case Conflicting => r.key in w.entries && w.entries[r.key].body != r.body
    case Done(Success(id, rows, affected, _)) => r.key in w.entries && w.entries[r.key] == Entry(r.body, id, Some(rows), affected)
    case Done(Failure(e)) => e == IdempotencyConflict ==> r.key in w.entries && w.entries[r.key].body != r.body
  }

  /** A committed change belongs to an attempt that reported success, or could not know. */
  ghost predicate Attributed(w: World) {
    forall i :: 0 <= i < |w.applied| ==>
      var x := w.applied[i];
      && x.attempt in w.attempts && w.attempts[x.attempt].request.key == x.key
      && x.key in w.entries && w.entries[x.key].mutationId == x.mutationId && w.entries[x.key].body == w.attempts[x.attempt].request.body
      && w.attempts[x.attempt].phase.Done?
      && (w.attempts[x.attempt].phase.outcome == Failure(CommitIndeterminate)
          || (w.attempts[x.attempt].phase.outcome.Success? && !w.attempts[x.attempt].phase.outcome.replayed))
  }

  ghost predicate Invariant(w: World) {
    LocksHeld(w) && AppliedOnce(w) && EntriesSound(w) && Attributed(w) && forall a :: a in w.attempts ==> PhaseSound(w, a)
  }

  /** Records are never removed or altered, changes are never undone. */
  ghost predicate Extends(w: World, w': World) {
    && (forall k :: k in w.entries ==> k in w'.entries && w'.entries[k] == w.entries[k])
    && w.applied <= w'.applied
    && (forall a :: a in w.attempts ==> a in w'.attempts && w'.attempts[a].request == w.attempts[a].request)
    && (forall a :: a in w.attempts && w.attempts[a].phase.Done? ==> a in w'.attempts && w'.attempts[a] == w.attempts[a])
  }

  lemma SetPhaseKeeps(w: World, a: nat, p: Phase)
    requires Invariant(w) && a in w.attempts && !w.attempts[a].phase.Done?
    requires HoldsLock(p) == HoldsLock(w.attempts[a].phase)
    requires PhaseSound(SetPhase(w, a, p), a)
    ensures Invariant(SetPhase(w, a, p)) && Extends(w, SetPhase(w, a, p))
  {
    var w' := SetPhase(w, a, p);
    forall b | b in w'.attempts
      ensures PhaseSound(w', b)
    {
      if b != a {
        assert PhaseSound(w, b);
      }
    }
  }

  lemma RollBackKeeps(w: World, a: nat, e: ExecuteError)
    requires Invariant(w) && a in w.attempts && !w.attempts[a].phase.Done? && e != IdempotencyConflict
    ensures Invariant(RollBack(w, a, e)) && Extends(w, RollBack(w, a, e))
    ensures RollBack(w, a, e).entries == w.entries && RollBack(w, a, e).applied == w.applied
  {
    var w' := RollBack(w, a, e);
    forall b | b in w'.attempts
      ensures PhaseSound(w', b)
    {
      if b != a {
        assert PhaseSound(w, b);
      }
    }
  }

  lemma ClaimKeeps(w: World, a: nat)
    requires Invariant(w) && a in w.attempts && w.attempts[a].phase.Started?
    ensures Invariant(ClaimKey(w, a)) && Extends(w, ClaimKey(w, a))
    ensures ClaimKey(w, a).entries == w.entries && ClaimKey(w, a).applied == w.applied
  {
    var r := w.attempts[a].request;
    if r.key in w.locks {
    } else if r.key in w.entries {
      SetPhaseKeeps(w, a, if w.entries[r.key].body == r.body then Replaying(w.entries[r.key]) else Conflicting);
    } else {
      LockKeeps(w, a);
    }
  }

  lemma LockKeeps(w: World, a: nat)
    requires Invariant(w) && a in w.attempts && w.attempts[a].phase.Started?
    requires w.attempts[a].request.key !in w.locks && w.attempts[a].request.key !in w.entries
    ensures Invariant(ClaimKey(w, a)) && Extends(w, ClaimKey(w, a))
  {
    var w' := ClaimKey(w, a);
    forall b | b in w'.attempts
      ensures PhaseSound(w', b)
    {
      if b != a {
        assert PhaseSound(w, b);
      }
    }
    assert LocksHeld(w');
    assert Attributed(w');
  }

  lemma CommitPhases(w: World, a: nat, outcome: Outcome)
    requires a in w.attempts && w.attempts[a].phase.Recorded? && w.attempts[a].request.key !in w.entries
    requires outcome == Failure(CommitIndeterminate)
      || outcome == Success(w.attempts[a].phase.mutationId, w.attempts[a].phase.rows, |w.attempts[a].phase.rows|, false)
    requires forall b :: b in w.attempts ==> PhaseSound(w, b)
    ensures forall b :: b in CommitRecorded(w, a, outcome).attempts ==> PhaseSound(CommitRecorded(w, a, outcome), b)
  {
    var w' := CommitRecorded(w, a, outcome);
    forall b | b in w'.attempts
      ensures PhaseSound(w', b)
    {
      if b != a {
        assert PhaseSound(w, b);
      }
    }
  }

  lemma CommitCounts(w: World, a: nat, outcome: Outcome)
    requires a in w.attempts && w.attempts[a].phase.Recorded? && w.attempts[a].request.key !in w.entries && AppliedOnce(w)
    ensures AppliedOnce(CommitRecorded(w, a, outcome))
  {
    var w' := CommitRecorded(w, a, outcome);
    forall k
      ensures CountKey(w'.applied, k) == if k in w'.entries then 1 else 0
    {
      assert w'.applied[..|w'.applied| - 1] == w.applied;
      assert CountKey(w.applied, k) == if k in w.entries then 1 else 0;
    }
  }

  lemma CommitUnlocks(w: World, a: nat, outcome: Outcome)
    requires a in w.attempts && w.attempts[a].phase.Recorded? && LocksHeld(w)
    ensures LocksHeld(CommitRecorded(w, a, outcome)) && w.attempts[a].request.key !in w.entries
  {
    var w', r := CommitRecorded(w, a, outcome), w.attempts[a].request;
    assert r.key in w.locks && r.key !in w.entries;
  }

  lemma CommitKeeps(w: World, a: nat, outcome: Outcome)
    requires Invariant(w) && a in w.attempts && w.attempts[a].phase.Recorded?
    requires outcome == Failure(CommitIndeterminate)
      || outcome == Success(w.attempts[a].phase.mutationId, w.attempts[a].phase.rows, |w.attempts[a].phase.rows|, false)
    ensures Invariant(CommitRecorded(w, a, outcome)) && Extends(w, CommitRecorded(w, a, outcome))
  {
    hide LocksHeld, AppliedOnce, Attributed;
    assert AllArrays(w.attempts[a].phase.rows) by {
      assert PhaseSound(w, a);
    }
    hide PhaseSound, AllArrays;
    CommitUnlocks(w, a, outcome);
    CommitPhases(w, a, outcome);
    CommitCounts(w, a, outcome);
    CommitAttributed(w, a, outcome);
    CommitEntries(w, a, outcome);
  }

  lemma CommitEntries(w: World, a: nat, outcome: Outcome)
    requires EntriesSound(w) && a in w.attempts && w.attempts[a].phase.Recorded? && AllArrays(w.attempts[a].phase.rows)
    requires w.attempts[a].request.key !in w.entries
    ensures EntriesSound(CommitRecorded(w, a, outcome)) && Extends(w, CommitRecorded(w, a, outcome))
  {
    hide AllArrays;
  }

  lemma CommitAttributed(w: World, a: nat, outcome: Outcome)
    requires Attributed(w) && a in w.attempts && w.attempts[a].phase.Recorded? && w.attempts[a].request.key !in w.entries
    requires outcome == Failure(CommitIndeterminate) || (outcome.Success? && !outcome.replayed)
    ensures Attributed(CommitRecorded(w, a, outcome))
  {
  }

  lemma CommitAttemptKeeps(w: World, a: nat, fate: Fate)
    requires Invariant(w) && a in w.attempts
    ensures Invariant(CommitAttempt(w, a, fate)) && Extends(w, CommitAttempt(w, a, fate))
  {
    hide LocksHeld, AppliedOnce, Attributed;
    var p := w.attempts[a].phase;
    assert PhaseSound(w, a);
    match p
    case Recorded(id, rows) =>
      if fate == LostBeforeCommit {
        RollBackKeeps(w, a, CommitIndeterminate);
      } else {
        CommitKeeps(w, a, if fate == Acknowledged then Success(id, rows, |rows|, false) else Failure(CommitIndeterminate));
      }
    case Replaying(entry) =>
      SetPhaseKeeps(w, a, Done(if fate == Acknowledged then Success(entry.mutationId, entry.rows.value, entry.affected, true) else Failure(CommitIndeterminate)));
    case Conflicting =>
      SetPhaseKeeps(w, a, Done(Failure(if fate == Acknowledged then IdempotencyConflict else CommitIndeterminate)));
    case _ =>
  }

  lemma BeginKeeps(w: World, a: nat, r: Request)
    requires Invariant(w) && a !in w.attempts
    ensures var w' := w.(attempts := w.attempts[a := Attempt(r, Started)]); Invariant(w') && Extends(w, w')
  {
    var w' := w.(attempts := w.attempts[a := Attempt(r, Started)]);
    forall b | b in w'.attempts
      ensures PhaseSound(w', b)
    {
      if b != a {
        assert PhaseSound(w, b);
      }
    }
  }

  lemma ApplyKeeps(w: World, e: Event)
    requires Invariant(w)
    ensures Invariant(Apply(w, e)) && Extends(w, Apply(w, e))
  {
    hide Invariant;
    match e
    case Begin(a, r) =>
      if a !in w.attempts {
        BeginKeeps(w, a, r);
      }
    case Claim(a) =>
      if a in w.attempts && w.attempts[a].phase.Started? {
        ClaimKeeps(w, a);
      }
    case Statement(a, rows, tooLarge) =>
      if a in w.attempts && w.attempts[a].phase.Executing? {
        match StatementOutcome(w.attempts[a].request, rows, tooLarge)
        case Ok(result) => SetPhaseKeeps(w, a, Ran(w.attempts[a].phase.mutationId, result));
        case Err(error) => RollBackKeeps(w, a, error);
      }
    case Finish(a) =>
      if a in w.attempts && w.attempts[a].phase.Ran? {
        AttemptSound(w, a);
        SetPhaseKeeps(w, a, Recorded(w.attempts[a].phase.mutationId, w.attempts[a].phase.rows));
      }
    case Commit(a, fate) =>
      if a in w.attempts {
        CommitAttemptKeeps(w, a, fate);
      }
    case Fail(a, error) =>
      if a in w.attempts && !w.attempts[a].phase.Done? && error != IdempotencyConflict && error != CommitIndeterminate {
        RollBackKeeps(w, a, error);
      }
  }

  lemma AttemptSound(w: World, a: nat)
    requires Invariant(w) && a in w.attempts
    ensures PhaseSound(w, a)
  {
  }

  lemma {:induction false} RunKeeps(events: seq<Event>)
    ensures Invariant(Run(events))
  {
    if events != [] {
      RunKeeps(events[..|events| - 1]);
      ApplyKeeps(Run(events[..|events| - 1]), events[|events| - 1]);
    }
  }

  lemma ExtendsTransitive(u: World, v: World, w: World)
    requires Extends(u, v) && Extends(v, w)
    ensures Extends(u, w)
  {
  }

  lemma {:induction false} RunExtends(events: seq<Event>, i: nat)
    requires i <= |events|
    ensures Extends(Run(events[..i]), Run(events))
  {
    if i < |events| {
      var n := |events| - 1;
      RunExtends(events[..n], i);
      assert events[..n][..i] == events[..i];
      RunKeeps(events[..n]);
      ApplyKeeps(Run(events[..n]), events[n]);
      ExtendsTransitive(Run(events[..i]), Run(events[..n]), Run(events));
    } else {
      assert events[..i] == events;
    }
  }

  // ----- what clients may rely on -----

  /** Every run of retries, rollbacks and lost acknowledgements applies a key's change at most once. */
  lemma AtMostOnce(events: seq<Event>, key: string)
    ensures CountKey(Run(events).applied, key) <= 1
    ensures CountKey(Run(events).applied, key) == 1 <==> key in Run(events).entries
  {
    RunKeeps(events);
    assert AppliedOnce(Run(events));
  }

  ghost predicate Replied(w: World, a: nat, id: nat, rows: seq<Json>, affected: nat, replayed: bool) {
    a in w.attempts && w.attempts[a].phase == Done(Success(id, rows, affected, replayed))
  }

  /**
   Once any attempt has reported success, at any later point of the run: its change is applied
   exactly once, and every other success for the key carried the same request and received
   the same mutation id, rows and row count, replayed or not.
   */
  lemma RepliesAgree(events: seq<Event>, i: nat, a: nat, b: nat, id: nat, rows: seq<Json>, affected: nat, replayed: bool,
                     id': nat, rows': seq<Json>, affected': nat, replayed': bool)
    requires i <= |events|
    requires Replied(Run(events[..i]), a, id, rows, affected, replayed)
    requires Replied(Run(events), b, id', rows', affected', replayed')
    requires Run(events).attempts[b].request.key == Run(events[..i]).attempts[a].request.key
    ensures id == id' && rows == rows' && affected == affected' == |rows|
    ensures Run(events).attempts[b].request.body == Run(events[..i]).attempts[a].request.body
    ensures CountKey(Run(events).applied, Run(events).attempts[b].request.key) == 1
  {
    RunKeeps(events);
    RunKeeps(events[..i]);
    RunExtends(events, i);
    assert PhaseSound(Run(events), b);
    assert PhaseSound(Run(events[..i]), a);
    AtMostOnce(events, Run(events).attempts[b].request.key);
  }

  /** A stored result always replays: `InvalidReplayResult` cannot come from the stored rows. */
  lemma StoredResultsReplay(events: seq<Event>, a: nat)
    requires a in Run(events).attempts && Run(events).attempts[a].phase.Replaying?
    ensures ReplayRows(Run(events).attempts[a].phase.entry.rows).Ok?
  {
    RunKeeps(events);
    assert PhaseSound(Run(events), a);
  }

  function AttemptOf(e: Event): nat {
    e.attempt
  }

  /** The attempt met a different recorded request, and has applied nothing. */
  ghost predicate MetConflict(w: World, a: nat, r: Request) {
    && a in w.attempts && w.attempts[a].request == r
    && (w.attempts[a].phase.Conflicting? || (w.attempts[a].phase.Done? && w.attempts[a].phase.outcome.Failure?))
    && r.key in w.entries && w.entries[r.key].body != r.body
    && forall i :: 0 <= i < |w.applied| ==> w.applied[i].attempt != a
  }

  ghost predicate SameData(w: World, w': World) {
    w'.entries == w.entries && w'.applied == w.applied && w'.locks == w.locks && w'.nextMutation == w.nextMutation
  }

  /** An event changes its own attempt only, and applies at most one change, of that attempt. */
  lemma EventIsLocal(w: World, e: Event)
    ensures var w' := Apply(w, e);
      && (forall b :: b in w.attempts && b != AttemptOf(e) ==> b in w'.attempts && w'.attempts[b] == w.attempts[b])
      && (w'.applied == w.applied || exists x: Applied :: x.attempt == AttemptOf(e) && w'.applied == w.applied + [x])
  {
    match e
    case Commit(a, fate) =>
      if a in w.attempts && w.attempts[a].phase.Recorded? && fate != LostBeforeCommit {
        var x := Applied(a, w.attempts[a].request.key, w.attempts[a].phase.mutationId);
        assert x.attempt == AttemptOf(e) && Apply(w, e).applied == w.applied + [x];
      }
    case _ =>
  }

  lemma OwnConflictEvent(w: World, a: nat, r: Request, e: Event)
    requires MetConflict(w, a, r) && AttemptOf(e) == a
    ensures SameData(w, Apply(w, e)) && MetConflict(Apply(w, e), a, r)
  {
    match e
    case Commit(_, _) =>
    case Fail(_, _) =>
    case _ =>
      assert Apply(w, e) == w;
  }

  lemma OtherEvent(w: World, a: nat, r: Request, e: Event)
    requires Extends(w, Apply(w, e)) && MetConflict(w, a, r) && AttemptOf(e) != a
    ensures MetConflict(Apply(w, e), a, r)
  {
    EventIsLocal(w, e);
    hide Apply;
  }

  lemma ConflictStep(w: World, a: nat, r: Request, e: Event)
    requires Invariant(w) && MetConflict(w, a, r)
    ensures MetConflict(Apply(w, e), a, r)
    ensures AttemptOf(e) == a ==> SameData(w, Apply(w, e))
  {
    hide Invariant, MetConflict, Apply, SameData, Extends;
    ApplyKeeps(w, e);
    if AttemptOf(e) == a {
      OwnConflictEvent(w, a, r, e);
    } else {
      OtherEvent(w, a, r, e);
    }
  }

  lemma ConflictReported(w: World, a: nat, r: Request)
    requires MetConflict(w, a, r)
    ensures a in w.attempts
    ensures w.attempts[a].phase.Conflicting? ==> var w' := Apply(w, Commit(a, Acknowledged));
      a in w'.attempts && w'.attempts[a].phase == Done(Failure(IdempotencyConflict))
  {
  }

  lemma ConflictBegins(w: World, a: nat)
    requires Invariant(w) && a in w.attempts && w.attempts[a].phase.Conflicting?
    ensures MetConflict(w, a, w.attempts[a].request)
  {
    assert PhaseSound(w, a);
  }

  lemma {:induction false} ConflictLasts(events: seq<Event>, i: nat, a: nat, r: Request)
    requires i <= |events| && MetConflict(Run(events[..i]), a, r)
    ensures MetConflict(Run(events), a, r)
  {
    hide MetConflict;
    if i < |events| {
      var n := |events| - 1;
      assert events[..n][..i] == events[..i];
      ConflictLasts(events[..n], i, a, r);
      RunKeeps(events[..n]);
      ConflictStep(Run(events[..n]), a, r, events[n]);
    } else {
      assert events[..i] == events;
    }
  }

  /**
   An attempt that once met a different recorded request never changes anything: at every later point of the
   run it has applied nothing and has not succeeded, the other request is still on record, and none of its own
   events, whatever becomes of its commit, touches records, changes or locks.
   */
  lemma ConflictChangesNothing(events: seq<Event>, i: nat, a: nat)
    requires i <= |events| && a in Run(events[..i]).attempts && Run(events[..i]).attempts[a].phase.Conflicting?
    ensures MetConflict(Run(events), a, Run(events[..i]).attempts[a].request)
    ensures forall e :: AttemptOf(e) == a ==> SameData(Run(events), Apply(Run(events), e))
    ensures Run(events).attempts[a].phase.Conflicting? ==> var w := Apply(Run(events), Commit(a, Acknowledged));
      a in w.attempts && w.attempts[a].phase == Done(Failure(IdempotencyConflict))
  {
    var w, r := Run(events[..i]), Run(events[..i]).attempts[a].request;
    hide Invariant, SameData, Run, Apply, MetConflict;
    RunKeeps(events[..i]);
    RunKeeps(events);
    ConflictBegins(w, a);
    ConflictLasts(events, i, a, r);
    ConflictReported(Run(events), a, r);
    forall e | AttemptOf(e) == a
      ensures SameData(Run(events), Apply(Run(events), e))
    {
      ConflictStep(Run(events), a, r, e);
    }
  }

  // ----- what a success says -----

  ghost predicate AppliedBy(w: World, a: nat, id: nat) {
    exists i :: 0 <= i < |w.applied| && w.applied[i].attempt == a && w.applied[i].mutationId == id
  }

  /** Rows that got past the statement are as many as the request expects, and a success of its own was applied. */
  ghost predicate AttemptCounted(w: World, a: nat)
    requires a in w.attempts
  {
    var Attempt(r, p) := w.attempts[a];
    match p
    case Ran(_, rows) => |rows| == r.expectedRows
    case Recorded(_, rows) => |rows| == r.expectedRows
    case Done(Success(id, rows, _, replayed)) => !replayed ==> |rows| == r.expectedRows && AppliedBy(w, a, id)
    case _ => true
  }

  ghost predicate AllCounted(w: World) {
    forall a :: a in w.attempts ==> AttemptCounted(w, a)
  }

  lemma OthersCounted(w: World, e: Event, b: nat)
    requires b in w.attempts && b != AttemptOf(e) && AttemptCounted(w, b)
    ensures b in Apply(w, e).attempts && AttemptCounted(Apply(w, e), b)
  {
    EventIsLocal(w, e);
    hide Apply;
    var w' := Apply(w, e);
    if w.attempts[b].phase.Done? && w.attempts[b].phase.outcome.Success? && !w.attempts[b].phase.outcome.replayed {
      var i :| 0 <= i < |w.applied| && w.applied[i].attempt == b && w.applied[i].mutationId == w.attempts[b].phase.outcome.mutationId;
      assert w'.applied[i] == w.applied[i];
    }
  }

  lemma OwnCounted(w: World, e: Event)
    requires Invariant(w) && (AttemptOf(e) in w.attempts ==> AttemptCounted(w, AttemptOf(e)))
    ensures AttemptOf(e) in Apply(w, e).attempts ==> AttemptCounted(Apply(w, e), AttemptOf(e))
  {
    hide Invariant;
    match e
    case Commit(a, fate) =>
      if a in w.attempts && w.attempts[a].phase.Recorded? && fate != LostBeforeCommit {
        var w' := Apply(w, e);
        assert w'.applied[|w.applied|] == Applied(a, w.attempts[a].request.key, w.attempts[a].phase.mutationId);
      }
    case _ =>
  }

  lemma {:induction false} RunCounted(events: seq<Event>)
    ensures AllCounted(Run(events))
  {
    hide Invariant, AttemptCounted, Apply;
    if events != [] {
      var n := |events| - 1;
      var w, e := Run(events[..n]), events[n];
      RunCounted(events[..n]);
      RunKeeps(events[..n]);
      OwnCounted(w, e);
      EventIsLocal(w, e);
      forall b | b in Apply(w, e).attempts
        ensures AttemptCounted(Apply(w, e), b)
      {
        if b != AttemptOf(e) {
          NoNewAttempt(w, e, b);
          OthersCounted(w, e, b);
        }
      }
    }
  }

  lemma NoNewAttempt(w: World, e: Event, b: nat)
    requires b in Apply(w, e).attempts && b != AttemptOf(e)
    ensures b in w.attempts
  {
  }

  /**
   A reported success, in every run: it carries the count of its rows; it is flagged as a replay exactly when this attempt
   applied nothing itself; and if it did apply the change, the rows are as many as its request expects.
   */
  lemma SuccessMeans(events: seq<Event>, a: nat, id: nat, rows: seq<Json>, affected: nat, replayed: bool)
    requires Replied(Run(events), a, id, rows, affected, replayed)
    ensures var w := Run(events);
      && affected == |rows| && AllArrays(rows)
      && (!replayed <==> AppliedBy(w, a, id))
      && (!replayed ==> |rows| == w.attempts[a].request.expectedRows)
  {
    RunKeeps(events);
    RunCounted(events);
    var w := Run(events);
    assert AttemptCounted(w, a);
    assert PhaseSound(w, a);
    assert EntriesSound(w) && Attributed(w);
  }

  /** What the statement returned decides: rows of the wrong shape, too many bytes or the wrong number roll back, in this order. */
  lemma StatementDecides(events: seq<Event>, a: nat, rows: seq<Json>, tooLarge: bool)
    requires a in Run(events).attempts && Run(events).attempts[a].phase.Executing?
    ensures var w := Run(events); var w' := Apply(w, Statement(a, rows, tooLarge)); var r := w.attempts[a].request;
      && a in w'.attempts
      && w'.attempts[a].phase ==
           (if exists i :: 0 <= i < |rows| && !rows[i].Array? then Done(Failure(InvalidRowShape))
            else if tooLarge then Done(Failure(ResultByteLimitExceeded))
            else if |rows| != r.expectedRows then Done(Failure(AffectedRowMismatch))
            else Ran(w.attempts[a].phase.mutationId, rows))
      && w'.applied == w.applied && w'.entries == w.entries
      && (w'.attempts[a].phase.Done? <==> r.key !in w'.locks)
  {
    RunKeeps(events);
    assert LocksHeld(Run(events));
  }

  /** A commit applies a recorded attempt's change once unless it was lost before it landed, and only its acknowledgement makes it a success. */
  lemma CommitDecides(events: seq<Event>, a: nat, fate: Fate)
    requires a in Run(events).attempts && Run(events).attempts[a].phase.Recorded?
    ensures var w := Run(events); var w' := Apply(w, Commit(a, fate)); var Attempt(r, p) := w.attempts[a];
      && a in w'.attempts && r.key !in w'.locks
      && w'.attempts[a].phase.Done?
      && w'.attempts[a].phase.outcome == (if fate == Acknowledged then Success(p.mutationId, p.rows, |p.rows|, false) else Failure(CommitIndeterminate))
      && (fate == LostBeforeCommit ==> w'.applied == w.applied && w'.entries == w.entries)
      && (fate != LostBeforeCommit ==> w'.applied == w.applied + [Applied(a, r.key, p.mutationId)])
      && (fate != LostBeforeCommit ==> w'.entries == w.entries[r.key := Entry(r.body, p.mutationId, Some(p.rows), |p.rows|)])
  {
  }

  /** A claim waits for a key in use; a recorded key replays for the same request and conflicts for another; a fresh key is locked and executed. */
  lemma ClaimDecides(events: seq<Event>, a: nat)
    requires a in Run(events).attempts && Run(events).attempts[a].phase.Started?
    ensures var w := Run(events); var w' := Apply(w, Claim(a)); var r := w.attempts[a].request;
      && w'.applied == w.applied && w'.entries == w.entries
      && a in w'.attempts
      && w'.attempts[a].phase ==
           (if r.key in w.locks then Started
            else if r.key !in w.entries then Executing(w.nextMutation)
            else if w.entries[r.key].body == r.body then Replaying(w.entries[r.key])
            else Conflicting)
      && (w'.attempts[a].phase.Executing? ==> w'.locks == w.locks[r.key := a] && w'.nextMutation == w.nextMutation + 1)
      && (!w'.attempts[a].phase.Executing? ==> w'.locks == w.locks && w'.nextMutation == w.nextMutation)
  {
  }

  /** An acknowledged replay succeeds with the recorded id, rows and count, flagged as a replay, and applies nothing. */
  lemma ReplayDecides(events: seq<Event>, a: nat, fate: Fate)
    requires a in Run(events).attempts && Run(events).attempts[a].phase.Replaying?
    ensures var w := Run(events); var w' := Apply(w, Commit(a, fate)); var r := w.attempts[a].request;
      && SameData(w, w') && a in w'.attempts && r.key in w.entries && w.entries[r.key].rows.Some?
      && var entry := w.entries[r.key];
      && w'.attempts[a].phase ==
           Done(if fate == Acknowledged then Success(entry.mutationId, entry.rows.value, |entry.rows.value|, true) else Failure(CommitIndeterminate))
  {
    RunKeeps(events);
    assert PhaseSound(Run(events), a);
    assert EntriesSound(Run(events));
  }

  // ----- the audit status -----

  predicate MutationWasAttempted(e: ExecuteError) {
    e in {Cancelled, Execution, InvalidRowShape, ResultByteLimitExceeded, AffectedRowMismatch, Serialization, FinishAudit}
  }

  datatype AuditStatus = Indeterminate | RolledBack | Rejected

  function FailureStatus(e: ExecuteError): AuditStatus {
    if e == CommitIndeterminate then Indeterminate
    else if MutationWasAttempted(e) then RolledBack
    else Rejected
  }

  /** The recorded failure status tells the truth: only an indeterminate attempt may have changed data. */
  lemma FailureStatusTruthful(events: seq<Event>, a: nat, e: ExecuteError, i: nat)
    requires a in Run(events).attempts && Run(events).attempts[a].phase == Done(Failure(e))
    requires i < |Run(events).applied| && Run(events).applied[i].attempt == a
    ensures FailureStatus(e) == Indeterminate
  {
    RunKeeps(events);
    assert Attributed(Run(events));
  }

  /** A lost acknowledgement is resolved by retrying: the retry replays if and only if the commit had landed. */
  lemma RetryResolves(events: seq<Event>, a: nat, b: nat)
    requires a != b && a in Run(events).attempts && b in Run(events).attempts
    requires Run(events).attempts[a].phase == Done(Failure(CommitIndeterminate))
    requires Run(events).attempts[b] == Attempt(Run(events).attempts[a].request, Started)
    requires Run(events).attempts[a].request.key !in Run(events).locks
    ensures var w := Run(events); var w' := Apply(w, Claim(b)); var key := w.attempts[a].request.key;
      && (key in w.entries && w.entries[key].body == w.attempts[a].request.body ==> w'.attempts[b].phase == Replaying(w.entries[key]))
      && (key !in w.entries ==> w'.attempts[b].phase.Executing?)
      && (CountKey(w.applied, key) == 0 <==> w'.attempts[b].phase.Executing?)
  {
    AtMostOnce(events, Run(events).attempts[a].request.key);
  }
}

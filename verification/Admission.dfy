/**
 The admission ladder of the HTTP server: permits a request collects on its way in, gives
 back on every way out, and hands to a worker that may outlive the response.
 */
module Admission {

  datatype Sizes = Sizes(preAuth: nat, authenticated: nat, database: nat)

  /** What is asked of a worker: a tool of its own program, or a method that needs no database. */
  datatype WorkerKind =
    | QueryWorker            // query_semantic_model
    | MutationWorker         // mutate_semantic_model
    | SnapshotWorker         // every tool and resource that reads the published snapshot
    | WritableWorker         // validate_semantic_mutation
    | ReconcileWorker        // reconcile_semantic_mutation
    | IdleWorker

  /** The database client a connection is opened for. */
  datatype Client = Runtime | Audit | Writing

  /** A worker opens a client, works with what it has open, or drops the client it opened last. */
  datatype Action = Open(client: Client) | Work | Close

  /** What a worker does when nothing fails, in order; a failure ends it and closes everything. */
  function Program(kind: WorkerKind): seq<Action> {
    match kind
    case QueryWorker => [Work, Open(Runtime), Work, Open(Audit), Work, Close, Close, Work]
    case MutationWorker => [Work, Open(Audit), Work, Open(Writing), Work, Close, Close, Work]
    case SnapshotWorker => [Work, Open(Runtime), Work, Close, Work]
    case WritableWorker => [Work, Open(Writing), Work, Close, Work]
    case ReconcileWorker => [Work, Open(Audit), Work, Close, Work]
    case IdleWorker => [Work]
  }

  /** The connections open after some actions. */
  function OpenAfter(actions: seq<Action>): seq<Client> {
    if actions == [] then []
    else OpenWith(OpenAfter(actions[..|actions| - 1]), actions[|actions| - 1])
  }

  function OpenWith(open: seq<Client>, action: Action): seq<Client> {
    match action
    case Open(client) => open + [client]
    case Work => open
    case Close => if open == [] then [] else open[..|open| - 1]
  }

  predicate UsesDatabase(kind: WorkerKind) {
    !kind.IdleWorker?
  }

  datatype Stage =
    | Entered
    | Limited
    | Reading
    | Parsed
    | Ready(kind: WorkerKind)
    | Working(kind: WorkerKind, done: nat, responded: bool)    // actions of its program already done
    | Returned(kind: WorkerKind, responded: bool)
    | Gone

  datatype Request = Request(authority: string, stage: Stage)

  const DATABASE_PERMITS: nat := 2

  function HeldPreAuth(s: Stage): nat {
    if s.Entered? || s.Limited? || s.Reading? then 1 else 0
  }

  function HeldAuthenticated(s: Stage): nat {
    if s.Entered? || s.Limited? || s.Gone? then 0 else 1
  }

  function HeldDatabase(s: Stage): nat {
    if (s.Ready? || s.Working? || s.Returned?) && UsesDatabase(s.kind) then DATABASE_PERMITS else 0
  }

  function HeldPrincipal(s: Stage): nat {
    if s.Entered? || s.Gone? then 0 else 1
  }

  /** The connections a request's worker has open where it stands in its program. */
  function Connections(s: Stage): nat {
    if s.Working? && s.done <= |Program(s.kind)| then |OpenAfter(Program(s.kind)[..s.done])| else 0
  }

  /** The semaphores' free permits, the limiter's permits in use, and every request ever made. */
  datatype Server = Server(free: Sizes, active: map<string, nat>, requests: seq<Request>)

  datatype Event =
    | Arrive(authority: string)
    | Reject(i: nat)
    | TakePrincipal(i: nat, rateAllows: bool)
    | TakeAuthenticated(i: nat)
    | ReadBody(i: nat)
    | TakeDatabase(i: nat, worker: WorkerKind)
    | Spawn(i: nat)
    | Respond(i: nat)
    | Act(i: nat)
    | Return(i: nat)
    | Finish(i: nat)

  function Active(w: Server, authority: string): nat {
    if authority in w.active then w.active[authority] else 0
  }

  predicate At(w: Server, i: nat) {
    i < |w.requests|
  }

  function Move(w: Server, i: nat, s: Stage): Server
    requires At(w, i)
  {
    w.(requests := w.requests[i := w.requests[i].(stage := s)])
  }

  /** Dropping whatever the request holds: guards give their permits back. */
  function Release(w: Server, i: nat): Server
    requires At(w, i)
  {
    var Request(a, s) := w.requests[i];
    Move(w.(free := Sizes(w.free.preAuth + HeldPreAuth(s), w.free.authenticated + HeldAuthenticated(s), w.free.database + HeldDatabase(s)),
            active := if HeldPrincipal(s) == 1 then w.active[a := if Active(w, a) == 0 then 0 else Active(w, a) - 1] else w.active),
         i, Gone)
  }

  /** One step of the server. A step that is not enabled changes nothing. */
  function Step(maxConcurrent: string -> nat, w: Server, e: Event): Server {
    match e
    case Arrive(a) =>
      if w.free.preAuth == 0 then w.(requests := w.requests + [Request(a, Gone)])
      else w.(free := w.free.(preAuth := w.free.preAuth - 1), requests := w.requests + [Request(a, Entered)])
    case Reject(i) =>
      // an early return, or the client going away, before a worker holds the permits
      if At(w, i) && !w.requests[i].stage.Working? && !w.requests[i].stage.Returned? then Release(w, i) else w
    case TakePrincipal(i, rateAllows) =>
      if !At(w, i) || !w.requests[i].stage.Entered? then w
      else
        var a := w.requests[i].authority;
        if Active(w, a) >= maxConcurrent(a) || !rateAllows then Release(w, i)
        else Move(w.(active := w.active[a := Active(w, a) + 1]), i, Limited)
    case TakeAuthenticated(i) =>
      if !At(w, i) || !w.requests[i].stage.Limited? then w
      else if w.free.authenticated == 0 then Release(w, i)
      else Move(w.(free := w.free.(authenticated := w.free.authenticated - 1)), i, Reading)
    case ReadBody(i) =>
      if !At(w, i) || !w.requests[i].stage.Reading? then w
      else Move(w.(free := w.free.(preAuth := w.free.preAuth + 1)), i, Parsed)
    case TakeDatabase(i, kind) =>
      if !At(w, i) || !w.requests[i].stage.Parsed? then w
      else if !UsesDatabase(kind) then Move(w, i, Ready(kind))
      else if w.free.database < DATABASE_PERMITS then Release(w, i)
      else Move(w.(free := w.free.(database := w.free.database - DATABASE_PERMITS)), i, Ready(kind))
    case Spawn(i) =>
      if !At(w, i) || !w.requests[i].stage.Ready? then w
      else Move(w, i, Working(w.requests[i].stage.kind, 0, false))
    case Respond(i) =>
      // the response is sent, times out or is abandoned; the worker keeps its permits
      if !At(w, i) then w
      else (match w.requests[i].stage
        case Working(kind, done, _) => Move(w, i, Working(kind, done, true))
        case Returned(kind, _) => Move(w, i, Returned(kind, true))
        case _ => w)
    case Act(i) =>
      if !At(w, i) || !w.requests[i].stage.Working? || w.requests[i].stage.done == |Program(w.requests[i].stage.kind)| then w
      else Move(w, i, w.requests[i].stage.(done := w.requests[i].stage.done + 1))
    case Return(i) =>
      // the program is done, or an action of it failed; either way its clients are dropped
      if !At(w, i) || !w.requests[i].stage.Working? then w
      else Move(w, i, Returned(w.requests[i].stage.kind, w.requests[i].stage.responded))
    case Finish(i) =>
      if !At(w, i) || !w.requests[i].stage.Returned? then w else Release(w, i)
  }

  function Run(sizes: Sizes, maxConcurrent: string -> nat, events: seq<Event>): Server {
    if events == [] then Server(sizes, map[], [])
    else Step(maxConcurrent, Run(sizes, maxConcurrent, events[..|events| - 1]), events[|events| - 1])
  }

  // ----- sums over all requests -----

  function Sum(requests: seq<Request>, held: Stage -> nat): nat {
    if requests == [] then 0 else Sum(requests[..|requests| - 1], held) + held(requests[|requests| - 1].stage)
  }

  lemma {:induction false} SumUpdate(requests: seq<Request>, held: Stage -> nat, i: nat, s: Stage)
    requires i < |requests|
    ensures Sum(requests[i := requests[i].(stage := s)], held) == Sum(requests, held) - held(requests[i].stage) + held(s)
    ensures held(requests[i].stage) <= Sum(requests, held)
  {
    var changed, n := requests[i := requests[i].(stage := s)], |requests| - 1;
    if i < n {
      assert changed[..n] == requests[..n][i := requests[i].(stage := s)];
      SumUpdate(requests[..n], held, i, s);
    } else {
      assert changed[..n] == requests[..n];
    }
  }

  lemma SumAppend(requests: seq<Request>, held: Stage -> nat, r: Request)
    ensures Sum(requests + [r], held) == Sum(requests, held) + held(r.stage)
  {
    assert (requests + [r])[..|requests|] == requests;
  }

  lemma {:induction false} SumLeq(requests: seq<Request>, small: Stage -> nat, large: Stage -> nat)
    requires forall i :: 0 <= i < |requests| ==> small(requests[i].stage) <= large(requests[i].stage)
    ensures Sum(requests, small) <= Sum(requests, large)
  {
    if requests != [] {
      SumLeq(requests[..|requests| - 1], small, large);
    }
  }

  /** Requests of one authority that hold a principal permit. */
  function Holders(requests: seq<Request>, a: string): nat {
    if requests == [] then 0
    else Holders(requests[..|requests| - 1], a)
         + (if requests[|requests| - 1].authority == a then HeldPrincipal(requests[|requests| - 1].stage) else 0)
  }

  lemma {:induction false} HoldersUpdate(requests: seq<Request>, a: string, i: nat, s: Stage)
    requires i < |requests|
    ensures var own := requests[i].authority == a;
      && Holders(requests[i := requests[i].(stage := s)], a)
         == Holders(requests, a) + (if own then HeldPrincipal(s) - HeldPrincipal(requests[i].stage) else 0)
      && (own ==> HeldPrincipal(requests[i].stage) <= Holders(requests, a))
  {
    var changed, n := requests[i := requests[i].(stage := s)], |requests| - 1;
    if i < n {
      assert changed[..n] == requests[..n][i := requests[i].(stage := s)];
      HoldersUpdate(requests[..n], a, i, s);
    } else {
      assert changed[..n] == requests[..n];
    }
  }

  // ----- the invariant -----

  /** Held and free permits of each semaphore add up to its size. */
  ghost predicate Conserved(sizes: Sizes, w: Server) {
    && w.free.preAuth + Sum(w.requests, HeldPreAuth) == sizes.preAuth
    && w.free.authenticated + Sum(w.requests, HeldAuthenticated) == sizes.authenticated
    && w.free.database + Sum(w.requests, HeldDatabase) == sizes.database
  }

  /** The limiter's count of an authority is the number of its requests that hold a permit. */
  ghost predicate PrincipalsCounted(maxConcurrent: string -> nat, w: Server) {
    forall a :: Active(w, a) == Holders(w.requests, a) <= maxConcurrent(a)
  }

  ghost predicate WorkersPlaced(w: Server) {
    forall i :: 0 <= i < |w.requests| && w.requests[i].stage.Working? ==>
      w.requests[i].stage.done <= |Program(w.requests[i].stage.kind)|
  }

  ghost predicate Invariant(sizes: Sizes, maxConcurrent: string -> nat, w: Server) {
    Conserved(sizes, w) && PrincipalsCounted(maxConcurrent, w) && WorkersPlaced(w)
  }

  lemma SumsUpdate(requests: seq<Request>, i: nat, s: Stage)
    requires i < |requests|
    ensures var changed := requests[i := requests[i].(stage := s)];
      && Sum(changed, HeldPreAuth) == Sum(requests, HeldPreAuth) - HeldPreAuth(requests[i].stage) + HeldPreAuth(s)
      && Sum(changed, HeldAuthenticated) == Sum(requests, HeldAuthenticated) - HeldAuthenticated(requests[i].stage) + HeldAuthenticated(s)
      && Sum(changed, HeldDatabase) == Sum(requests, HeldDatabase) - HeldDatabase(requests[i].stage) + HeldDatabase(s)
  {
    SumUpdate(requests, HeldPreAuth, i, s);
    SumUpdate(requests, HeldAuthenticated, i, s);
    SumUpdate(requests, HeldDatabase, i, s);
  }

  /** Leaving the ladder anywhere gives back exactly what was held. */
  lemma ReleaseKeeps(sizes: Sizes, maxConcurrent: string -> nat, w: Server, i: nat)
    requires Invariant(sizes, maxConcurrent, w) && At(w, i)
    ensures Invariant(sizes, maxConcurrent, Release(w, i))
  {
    SumsUpdate(w.requests, i, Gone);
    forall a
      ensures Active(Release(w, i), a) == Holders(Release(w, i).requests, a) <= maxConcurrent(a)
    {
      HoldersUpdate(w.requests, a, i, Gone);
      assert Active(w, a) == Holders(w.requests, a) <= maxConcurrent(a);
    }
  }

  /** A step to a later stage, with the counters changed by what the stages differ in. */
  lemma MoveKeeps(sizes: Sizes, maxConcurrent: string -> nat, w: Server, w': Server, i: nat, s: Stage)
    requires Invariant(sizes, maxConcurrent, w) && At(w, i)
    requires w'.requests == w.requests[i := w.requests[i].(stage := s)]
    requires w'.free.preAuth + HeldPreAuth(s) == w.free.preAuth + HeldPreAuth(w.requests[i].stage)
    requires w'.free.authenticated + HeldAuthenticated(s) == w.free.authenticated + HeldAuthenticated(w.requests[i].stage)
    requires w'.free.database + HeldDatabase(s) == w.free.database + HeldDatabase(w.requests[i].stage)
    requires forall a :: Active(w', a) - Active(w, a)
                      == if a == w.requests[i].authority then HeldPrincipal(s) - HeldPrincipal(w.requests[i].stage) else 0
    requires forall a :: Active(w', a) <= maxConcurrent(a)
    requires s.Working? ==> s.done <= |Program(s.kind)|
    ensures Invariant(sizes, maxConcurrent, w')
  {
    SumsUpdate(w.requests, i, s);
    forall a
      ensures Active(w', a) == Holders(w'.requests, a) <= maxConcurrent(a)
    {
      HoldersUpdate(w.requests, a, i, s);
      assert Active(w, a) == Holders(w.requests, a) <= maxConcurrent(a);
    }
  }

  lemma HoldersAppend(requests: seq<Request>, r: Request, a: string)
    requires HeldPrincipal(r.stage) == 0
    ensures Holders(requests + [r], a) == Holders(requests, a)
  {
    assert (requests + [r])[..|requests|] == requests;
  }

  /** A request that enters takes a pre-authentication permit or nothing. */
  lemma ArriveKeeps(sizes: Sizes, maxConcurrent: string -> nat, w: Server, w': Server, r: Request)
    requires Invariant(sizes, maxConcurrent, w)
    requires r.stage == Gone || r.stage == Entered
    requires w'.requests == w.requests + [r] && w'.active == w.active
    requires w'.free == w.free.(preAuth := w'.free.preAuth) && w'.free.preAuth + HeldPreAuth(r.stage) == w.free.preAuth
    ensures Invariant(sizes, maxConcurrent, w')
  {
    hide Sum, Holders;
    SumAppend(w.requests, HeldPreAuth, r);
    SumAppend(w.requests, HeldAuthenticated, r);
    SumAppend(w.requests, HeldDatabase, r);
    forall a
      ensures Active(w', a) == Holders(w'.requests, a) <= maxConcurrent(a)
    {
      HoldersAppend(w.requests, r, a);
      assert Active(w, a) == Holders(w.requests, a) <= maxConcurrent(a);
    }
  }

  lemma StepKeeps(sizes: Sizes, maxConcurrent: string -> nat, w: Server, e: Event)
    requires Invariant(sizes, maxConcurrent, w)
    ensures Invariant(sizes, maxConcurrent, Step(maxConcurrent, w, e))
  {
    hide Conserved, PrincipalsCounted, WorkersPlaced;
    var w' := Step(maxConcurrent, w, e);
    if e.Arrive? {
      ArriveKeeps(sizes, maxConcurrent, w, w', if w.free.preAuth == 0 then Request(e.authority, Gone) else Request(e.authority, Entered));
    } else if At(w, e.i) && w' != w {
      if w' == Release(w, e.i) {
        ReleaseKeeps(sizes, maxConcurrent, w, e.i);
      } else {
        AdvanceKeeps(sizes, maxConcurrent, w, e);
      }
    }
  }

  /** The steps that go on: what the counters lose, the request holds. */
  lemma AdvanceKeeps(sizes: Sizes, maxConcurrent: string -> nat, w: Server, e: Event)
    requires Invariant(sizes, maxConcurrent, w) && !e.Arrive? && At(w, e.i)
    requires Step(maxConcurrent, w, e) != w && Step(maxConcurrent, w, e) != Release(w, e.i)
    ensures Invariant(sizes, maxConcurrent, Step(maxConcurrent, w, e))
  {
    hide Conserved, PrincipalsCounted, WorkersPlaced, Invariant, Sum, Holders;
    assert PrincipalsCounted(maxConcurrent, w) && WorkersPlaced(w) by {
      InvariantParts(sizes, maxConcurrent, w);
    }
    BoundsHold(maxConcurrent, w);
    WorkerPlaced(w, e.i);
    var w' := Step(maxConcurrent, w, e);
    MoveKeeps(sizes, maxConcurrent, w, w', e.i, w'.requests[e.i].stage);
  }

  lemma InvariantParts(sizes: Sizes, maxConcurrent: string -> nat, w: Server)
    requires Invariant(sizes, maxConcurrent, w)
    ensures PrincipalsCounted(maxConcurrent, w) && WorkersPlaced(w)
  {
  }

  lemma WorkerPlaced(w: Server, i: nat)
    requires WorkersPlaced(w) && At(w, i)
    ensures w.requests[i].stage.Working? ==> w.requests[i].stage.done <= |Program(w.requests[i].stage.kind)|
  {
  }

  lemma BoundsHold(maxConcurrent: string -> nat, w: Server)
    requires PrincipalsCounted(maxConcurrent, w)
    ensures forall a :: Active(w, a) <= maxConcurrent(a)
  {
  }

  lemma {:induction false} RunKeeps(sizes: Sizes, maxConcurrent: string -> nat, events: seq<Event>)
    ensures Invariant(sizes, maxConcurrent, Run(sizes, maxConcurrent, events))
  {
    if events != [] {
      RunKeeps(sizes, maxConcurrent, events[..|events| - 1]);
      StepKeeps(sizes, maxConcurrent, Run(sizes, maxConcurrent, events[..|events| - 1]), events[|events| - 1]);
    }
  }

  // ----- what operators may rely on -----

  /** In every reachable state, whatever returned early or timed out, no permit is lost or made up. */
  lemma PermitsConserved(sizes: Sizes, maxConcurrent: string -> nat, events: seq<Event>)
    ensures Conserved(sizes, Run(sizes, maxConcurrent, events))
    ensures PrincipalsCounted(maxConcurrent, Run(sizes, maxConcurrent, events))
  {
    RunKeeps(sizes, maxConcurrent, events);
  }

  function Opens(actions: seq<Action>): nat {
    if actions == [] then 0 else Opens(actions[..|actions| - 1]) + (if actions[|actions| - 1].Open? then 1 else 0)
  }

  /** Whatever it lets go, a program never has more open than it opens in all. */
  lemma {:induction false} OpenAtMost(actions: seq<Action>, n: nat)
    requires n <= |actions|
    ensures |OpenAfter(actions[..n])| <= Opens(actions)
  {
    if actions != [] {
      var m := |actions| - 1;
      if n <= m {
        OpenAtMost(actions[..m], n);
        assert actions[..m][..n] == actions[..n];
      } else {
        OpenAtMost(actions[..m], m);
        assert actions[..m][..m] == actions[..m] && actions[..n] == actions;
      }
    }
  }

  lemma OpensStep(actions: seq<Action>, n: nat)
    requires n < |actions|
    ensures Opens(actions[..n + 1]) == Opens(actions[..n]) + (if actions[n].Open? then 1 else 0)
  {
    assert actions[..n + 1][..n] == actions[..n];
  }

  lemma ProgramOpens(kind: WorkerKind)
    ensures Opens(Program(kind)) <= if UsesDatabase(kind) then DATABASE_PERMITS else 0
  {
    var p := Program(kind);
    assert p[..|p|] == p;
    OpensStep(p, 0);
    if |p| > 1 {
      OpensStep(p, 1);
      OpensStep(p, 2);
      OpensStep(p, 3);
      OpensStep(p, 4);
    }
    if |p| > 5 {
      OpensStep(p, 5);
      OpensStep(p, 6);
      OpensStep(p, 7);
    }
  }

  /** No worker has more connections open than it holds permits, wherever it stands in its program. */
  lemma WorkerConnections(s: Stage)
    ensures Connections(s) <= HeldDatabase(s)
  {
    if s.Working? && s.done <= |Program(s.kind)| {
      OpenAtMost(Program(s.kind), s.done);
      ProgramOpens(s.kind);
    }
  }

  /** The connections open after n actions, one action at a time. */
  lemma OpenAlong(p: seq<Action>, opens: seq<seq<Client>>)
    requires |opens| == |p| + 1 && opens[0] == []
    requires forall n :: 0 <= n < |p| ==> opens[n + 1] == OpenWith(opens[n], p[n])
    ensures forall n :: 0 <= n <= |p| ==> OpenAfter(p[..n]) == opens[n]
  {
    for n := 0 to |p|
      invariant forall m :: 0 <= m <= n ==> OpenAfter(p[..m]) == opens[m]
    {
      OpenStep(p, n);
    }
  }

  /** Two permits are what a query or a mutation comes to need, and a program that ends leaves nothing open. */
  lemma PermitsNeeded()
    ensures OpenAfter(Program(QueryWorker)[..4]) == [Runtime, Audit] && OpenAfter(Program(QueryWorker)) == []
    ensures OpenAfter(Program(MutationWorker)[..4]) == [Audit, Writing] && OpenAfter(Program(MutationWorker)) == []
  {
    hide OpenAfter;
    var q, m := Program(QueryWorker), Program(MutationWorker);
    OpenAlong(q, [[], [], [Runtime], [Runtime], [Runtime, Audit], [Runtime, Audit], [Runtime], [], []]);
    OpenAlong(m, [[], [], [Audit], [Audit], [Audit, Writing], [Audit, Writing], [Audit], [], []]);
    assert q[..8] == q && m[..8] == m;
  }

  lemma OpenStep(actions: seq<Action>, n: nat)
    requires n < |actions|
    ensures OpenAfter(actions[..n + 1]) == OpenWith(OpenAfter(actions[..n]), actions[n])
  {
    assert actions[..n + 1][..n] == actions[..n];
  }

  /** Workers never have more connections open than the database semaphore's size, answered or not. */
  lemma ConnectionsBounded(sizes: Sizes, maxConcurrent: string -> nat, events: seq<Event>)
    ensures Sum(Run(sizes, maxConcurrent, events).requests, Connections) <= sizes.database
  {
    RunKeeps(sizes, maxConcurrent, events);
    var requests := Run(sizes, maxConcurrent, events).requests;
    forall i | 0 <= i < |requests|
      ensures Connections(requests[i].stage) <= HeldDatabase(requests[i].stage)
    {
      WorkerConnections(requests[i].stage);
    }
    SumLeq(requests, Connections, HeldDatabase);
  }

  lemma {:induction false} SumGone(requests: seq<Request>, held: Stage -> nat)
    requires forall i :: 0 <= i < |requests| ==> requests[i].stage.Gone?
    requires held(Gone) == 0
    ensures Sum(requests, held) == 0
  {
    if requests != [] {
      SumGone(requests[..|requests| - 1], held);
    }
  }

  /** Once every request is gone, all permits are free again. */
  lemma NothingLeaks(sizes: Sizes, maxConcurrent: string -> nat, events: seq<Event>)
    requires forall i :: 0 <= i < |Run(sizes, maxConcurrent, events).requests| ==> Run(sizes, maxConcurrent, events).requests[i].stage.Gone?
    ensures Run(sizes, maxConcurrent, events).free == sizes
  {
    RunKeeps(sizes, maxConcurrent, events);
    var requests := Run(sizes, maxConcurrent, events).requests;
    SumGone(requests, HeldPreAuth);
    SumGone(requests, HeldAuthenticated);
    SumGone(requests, HeldDatabase);
  }

  // ----- who moves on -----

  function StageAfter(maxConcurrent: string -> nat, w: Server, e: Event, i: nat): Stage {
    var w' := Step(maxConcurrent, w, e);
    if At(w', i) then w'.requests[i].stage else Gone
  }

  /** What a request needs to get past each rung, told by what all requests hold. */
  ghost predicate Allowed(sizes: Sizes, maxConcurrent: string -> nat, w: Server, e: Event) {
    match e
    case Arrive(_) => Sum(w.requests, HeldPreAuth) + 1 <= sizes.preAuth
    case TakePrincipal(i, rateAllows) => At(w, i) && rateAllows && Holders(w.requests, w.requests[i].authority) + 1 <= maxConcurrent(w.requests[i].authority)
    case TakeAuthenticated(_) => Sum(w.requests, HeldAuthenticated) + 1 <= sizes.authenticated
    case TakeDatabase(_, kind) => UsesDatabase(kind) ==> Sum(w.requests, HeldDatabase) + 2 <= sizes.database
    case _ => true
  }

  /**
   In every reachable state a request moves to the next rung exactly when the limiter and the semaphores still have
   room for it, and is gone otherwise.
   */
  lemma MovesOnExactly(sizes: Sizes, maxConcurrent: string -> nat, events: seq<Event>, e: Event)
    ensures var w := Run(sizes, maxConcurrent, events);
            var allowed := Allowed(sizes, maxConcurrent, w, e);
      match e
      case Arrive(a) => Step(maxConcurrent, w, e).requests == w.requests + [Request(a, if allowed then Entered else Gone)]
      case TakePrincipal(i, _) => At(w, i) && w.requests[i].stage.Entered? ==> StageAfter(maxConcurrent, w, e, i) == if allowed then Limited else Gone
      case TakeAuthenticated(i) => At(w, i) && w.requests[i].stage.Limited? ==> StageAfter(maxConcurrent, w, e, i) == if allowed then Reading else Gone
      case ReadBody(i) => At(w, i) && w.requests[i].stage.Reading? ==> StageAfter(maxConcurrent, w, e, i) == Parsed
      case TakeDatabase(i, kind) => At(w, i) && w.requests[i].stage.Parsed? ==> StageAfter(maxConcurrent, w, e, i) == if allowed then Ready(kind) else Gone
      case Spawn(i) => At(w, i) && w.requests[i].stage.Ready? ==> StageAfter(maxConcurrent, w, e, i) == Working(w.requests[i].stage.kind, 0, false)
      case _ => true
  {
    hide Sum, Holders, Run;
    RunKeeps(sizes, maxConcurrent, events);
    var w := Run(sizes, maxConcurrent, events);
    if e.TakePrincipal? && At(w, e.i) {
      var a := w.requests[e.i].authority;
      assert Active(w, a) == Holders(w.requests, a) <= maxConcurrent(a);
    }
  }
}

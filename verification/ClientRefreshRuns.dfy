/**
 Every interleaving of concurrent requests, refresh calls and sign-ins on one
 client. Requests and refresh calls are numbered in the order they are made.
 */
module ClientRefreshRuns {
  import opened Basics
  import opened ClientRefresh

  datatype Phase =
    | First                         // sent, its first response awaited
    | Waiting(call: nat)            // awaiting the promise of a refresh call
    | Second(retried: Option<Stamped>)
    | Done

  /** `retries` is false for auth.refresh(), which only waits. */
  datatype Request = Request(phase: Phase, noRefresh: bool, retries: bool, sends: nat, joins: nat)

  datatype Call = Outstanding(sent: Token) | Succeeded(version: nat) | Failed

  /** `refused` collects the refresh tokens the server has turned down. */
  datatype World = World(held: Held, requests: seq<Request>, calls: seq<Call>, refused: set<Token>)

  datatype Op =
    | Send(noRefresh: bool)
    | ManualRefresh
    | FirstResponse(request: nat, unauthorized: bool)
    | FirstFails(request: nat)
    | RefreshAnswered(call: nat, answer: Answer)
    | Resume(request: nat)
    | SecondResponse(request: nat)
    | Login(pair: Pair)
    | ClearTokens
    | SetTokens(access: Option<Token>, refresh: Option<Token>)

  function At(w: World, i: nat): Phase {
    if i < |w.requests| then w.requests[i].phase else Done
  }

  function Moved(w: World, i: nat, phase: Phase): World
    requires i < |w.requests|
  {
    w.(requests := w.requests[i := w.requests[i].(phase := phase)])
  }

  /** Request `i` calls refreshTokens and awaits what it returns. */
  function Joining(w: World, i: nat): World
    requires i < |w.requests|
  {
    var ticket := TicketFor(w.held, |w.calls|);
    if ticket.Rejected? then Moved(w, i, Done)
    else
      w.(held := Holding(w.held, ticket),
         calls := if ticket.Started? then w.calls + [Outstanding(ticket.sent)] else w.calls,
         requests := w.requests[i := w.requests[i].(phase := Waiting(ticket.refreshId), joins := w.requests[i].joins + 1)])
  }

  function Apply(w: World, op: Op): World {
    match op
    case Send(noRefresh) => w.(requests := w.requests + [Request(First, noRefresh, true, 1, 0)])
    case ManualRefresh => Joining(w.(requests := w.requests + [Request(First, true, false, 0, 0)]), |w.requests|)
    case FirstResponse(i, unauthorized) =>
      if At(w, i) != First then w
      else if AfterFirst(w.held, unauthorized, w.requests[i].noRefresh, |w.calls|).Finish? then Moved(w, i, Done)
      else Joining(w, i)
    case FirstFails(i) => if At(w, i) != First then w else Moved(w, i, Done)
    case RefreshAnswered(c, answer) =>
      if |w.calls| <= c || !w.calls[c].Outstanding? then w
      else
        var held := Settled(w.held, answer);
        World(held, w.requests,
              w.calls[c := if answer.Granted? then Succeeded(held.stores) else Failed],
              if answer.Refused? then w.refused + {w.calls[c].sent} else w.refused)
    case Resume(i) =>
      if !At(w, i).Waiting? || |w.calls| <= At(w, i).call || w.calls[At(w, i).call].Outstanding? then w
      else if w.calls[At(w, i).call].Failed? || !w.requests[i].retries then Moved(w, i, Done)
      else w.(requests := w.requests[i := w.requests[i].(phase := Second(w.held.access), sends := w.requests[i].sends + 1)])
    case SecondResponse(i) => if !At(w, i).Second? then w else Moved(w, i, Done)
    case Login(pair) => w.(held := Stored(w.held, pair))
    case ClearTokens => w.(held := w.held.(access := None, refresh := None))
    case SetTokens(access, refresh) =>
      w.(held := w.held.(access := if access.Some? then Some(Stamped(access.value, w.held.stores)) else None, refresh := refresh))
  }

  ghost predicate IsRun(ws: seq<World>, ops: seq<Op>) {
    && |ws| == |ops| + 1
    && ws[0].requests == [] && ws[0].calls == [] && ws[0].refused == {}
    && ws[0].held.inFlight == None && ws[0].held.stores == 0
    && forall i :: 0 <= i < |ops| ==> ws[i + 1] == Apply(ws[i], ops[i])
  }

  // ---- One refresh at a time, two sends at most ----

  ghost predicate Counted(q: Request, calls: nat) {
    match q.phase
    case First => q.sends == 1 && q.joins == 0 && q.retries
    case Waiting(c) => q.sends <= 1 && q.joins == 1 && c < calls
    case Second(_) => q.sends <= 2 && q.joins == 1
    case Done => q.sends <= 2 && q.joins <= 1
  }

  ghost predicate Sane(w: World) {
    && (w.held.inFlight.Some? ==> w.held.inFlight.value < |w.calls|)
    && (forall c :: 0 <= c < |w.calls| ==> (w.calls[c].Outstanding? <==> w.held.inFlight == Some(c)))
    && (forall i :: 0 <= i < |w.requests| ==> Counted(w.requests[i], |w.calls|))
  }

  lemma JoiningIsSane(w: World, i: nat)
    requires i < |w.requests| && w.requests[i].phase == First && w.requests[i].joins == 0 && w.requests[i].sends <= 1
    requires (forall k :: 0 <= k < |w.requests| && k != i ==> Counted(w.requests[k], |w.calls|))
    requires Sane(w.(requests := []))
    ensures Sane(Joining(w, i))
  {
    var w' := Joining(w, i);
    forall k | 0 <= k < |w'.requests| ensures Counted(w'.requests[k], |w'.calls|) {
      assert k != i ==> w'.requests[k] == w.requests[k] && Counted(w.requests[k], |w.calls|);
    }
  }

  lemma StepIsSane(w: World, op: Op)
    requires Sane(w)
    ensures Sane(Apply(w, op))
  {
    match op
    case ManualRefresh =>
      var q := Request(First, true, false, 0, 0);
      var w' := w.(requests := w.requests + [q]);
      assert forall k :: 0 <= k < |w.requests| ==> w'.requests[k] == w.requests[k];
      JoiningIsSane(w', |w.requests|);
    case FirstResponse(i, unauthorized) =>
      if At(w, i) == First {
        assert Counted(w.requests[i], |w.calls|);
        JoiningIsSane(w, i);
      }
    case Resume(i) =>
      if At(w, i).Waiting? {
        assert Counted(w.requests[i], |w.calls|);
      }
    case _ =>
  }

  lemma {:induction false} RunIsSane(ws: seq<World>, ops: seq<Op>, j: nat)
    requires IsRun(ws, ops) && j < |ws|
    ensures Sane(ws[j])
  {
    if 0 < j {
      RunIsSane(ws, ops, j - 1);
      StepIsSane(ws[j - 1], ops[j - 1]);
    }
  }

  /** However requests interleave, one refresh call is outstanding at most, and no request sends or joins more than it should. */
  lemma SingleFlight(ws: seq<World>, ops: seq<Op>, j: nat)
    requires IsRun(ws, ops) && j < |ws|
    ensures forall c, c' | 0 <= c < |ws[j].calls| && 0 <= c' < |ws[j].calls| ::
      ws[j].calls[c].Outstanding? && ws[j].calls[c'].Outstanding? ==> c == c'
    ensures forall i :: 0 <= i < |ws[j].requests| ==> ws[j].requests[i].sends <= 2 && ws[j].requests[i].joins <= 1
  {
    RunIsSane(ws, ops, j);
    forall i | 0 <= i < |ws[j].requests| ensures ws[j].requests[i].sends <= 2 && ws[j].requests[i].joins <= 1 {
      assert Counted(ws[j].requests[i], |ws[j].calls|);
    }
  }

  // ---- Exactly when a request refreshes ----

  /** The request's first response is a 401. */
  ghost predicate Unauthorized(ws: seq<World>, ops: seq<Op>, k: nat, i: nat)
    requires k < |ws| == |ops| + 1 && k < |ops|
  {
    ops[k] == FirstResponse(i, true) && At(ws[k], i) == First
  }

  /** One that refreshes or has sent twice had a 401, and may refresh. */
  ghost predicate Justified(ws: seq<World>, ops: seq<Op>, j: nat, i: nat)
    requires j < |ws| == |ops| + 1 && i < |ws[j].requests|
  {
    var q := ws[j].requests[i];
    q.retries && (q.joins > 0 || q.sends > 1 || q.phase.Waiting? || q.phase.Second?) ==>
      !q.noRefresh && exists k :: 0 <= k < j && Unauthorized(ws, ops, k, i)
  }

  lemma RequestsChangeInTurn(w: World, op: Op, i: nat)
    requires i < |w.requests|
    ensures var w' := Apply(w, op);
            && i < |w'.requests|
            && w'.requests[i].noRefresh == w.requests[i].noRefresh && w'.requests[i].retries == w.requests[i].retries
            && (w'.requests[i] == w.requests[i] || w'.requests[i].phase == Done || op == Resume(i)
                || (op.FirstResponse? && op.request == i && At(w, i) == First))
            && (op == Resume(i) && w'.requests[i] != w.requests[i] ==> w.requests[i].phase.Waiting?)
            && (w'.requests[i].phase == Done && w'.requests[i] != w.requests[i] ==>
                w'.requests[i].sends == w.requests[i].sends && w'.requests[i].joins == w.requests[i].joins)
  {
  }

  /** The guard of the branch, spelled out: it awaits a refresh exactly on a 401 of a request that may refresh, with a token held. */
  lemma FirstResponseAwaitsExactlyWhen(w: World, i: nat, unauthorized: bool)
    requires At(w, i) == First
    ensures var w' := Apply(w, FirstResponse(i, unauthorized));
            && (At(w', i).Waiting? <==> unauthorized && !w.requests[i].noRefresh && w.held.refresh.Some? && w.held.refresh.value != "")
            && (!At(w', i).Waiting? ==>
                 w' == w.(requests := w.requests[i := w.requests[i].(phase := Done)]))
            && (At(w', i).Waiting? ==>
                 w'.requests[i].joins == w.requests[i].joins + 1 && w'.requests[i].sends == w.requests[i].sends)
  {
  }

  /** auth.refresh() joins a call in flight; else it starts one with the token held, or fails at once if there is none. */
  lemma ManualRefreshAwaitsExactlyWhen(w: World)
    ensures var (w', i) := (Apply(w, ManualRefresh), |w.requests|);
            && |w'.requests| == i + 1
            && w'.held.access == w.held.access && w'.held.refresh == w.held.refresh
            && match w.held.inFlight
               case Some(c) => At(w', i) == Waiting(c) && w'.calls == w.calls
               case None =>
                 if w.held.refresh.None? || w.held.refresh.value == "" then At(w', i) == Done && w'.calls == w.calls
                 else At(w', i) == Waiting(|w.calls|) && w'.calls == w.calls + [Outstanding(w.held.refresh.value)]
  {
  }

  lemma StepIsJustified(ws: seq<World>, ops: seq<Op>, j: nat, i: nat)
    requires IsRun(ws, ops) && 0 < j < |ws| && i < |ws[j - 1].requests| && Justified(ws, ops, j - 1, i)
    ensures i < |ws[j].requests| && Justified(ws, ops, j, i)
  {
    var w, op := ws[j - 1], ops[j - 1];
    assert ws[j] == Apply(w, op);
    RequestsChangeInTurn(w, op, i);
    if op.FirstResponse? && op.request == i && At(w, i) == First {
      FirstResponseAwaitsExactlyWhen(w, i, op.unauthorized);
      assert op.unauthorized ==> Unauthorized(ws, ops, j - 1, i);
    }
  }

  lemma NewRequestIsJustified(ws: seq<World>, ops: seq<Op>, j: nat, i: nat)
    requires IsRun(ws, ops) && 0 < j < |ws| && |ws[j - 1].requests| <= i < |ws[j].requests|
    ensures Justified(ws, ops, j, i)
  {
    assert ws[j] == Apply(ws[j - 1], ops[j - 1]);
  }

  /**
   Over any run, a request joins a refresh or is sent a second time only if its first response
   was a 401 and it may refresh; auth.refresh() itself sends nothing of the kind.
   */
  lemma {:induction false} OnlyUnauthorizedRequestsRefresh(ws: seq<World>, ops: seq<Op>, j: nat, i: nat)
    requires IsRun(ws, ops) && j < |ws| && i < |ws[j].requests|
    ensures Justified(ws, ops, j, i)
  {
    assert 0 < j;
    if i < |ws[j - 1].requests| {
      OnlyUnauthorizedRequestsRefresh(ws, ops, j - 1, i);
      StepIsJustified(ws, ops, j, i);
    } else {
      NewRequestIsJustified(ws, ops, j, i);
    }
  }

  lemma DoneIsForGood(w: World, op: Op, i: nat)
    requires i < |w.requests| && w.requests[i].phase == Done
    ensures i < |Apply(w, op).requests| && Apply(w, op).requests[i] == w.requests[i]
  {
    RequestsChangeInTurn(w, op, i);
  }

  /** Any other first response ends the request: for good, with one send, no join and no refresh call. */
  lemma {:induction false} OtherResponsesEndTheRequest(ws: seq<World>, ops: seq<Op>, k: nat, j: nat, i: nat, unauthorized: bool)
    requires IsRun(ws, ops) && k < j < |ws| && ops[k] == FirstResponse(i, unauthorized) && At(ws[k], i) == First
    requires !unauthorized || ws[k].requests[i].noRefresh
    ensures ws[k + 1].calls == ws[k].calls && ws[k + 1].held == ws[k].held
    ensures i < |ws[j].requests| && ws[j].requests[i].phase == Done
    ensures ws[j].requests[i].sends == 1 && ws[j].requests[i].joins == 0
    decreases j
  {
    RunIsSane(ws, ops, k);
    assert Counted(ws[k].requests[i], |ws[k].calls|);
    FirstResponseAwaitsExactlyWhen(ws[k], i, unauthorized);
    assert ws[k + 1] == Apply(ws[k], ops[k]);
    if k + 1 < j {
      OtherResponsesEndTheRequest(ws, ops, k, j - 1, i, unauthorized);
      assert ws[j] == Apply(ws[j - 1], ops[j - 1]);
      DoneIsForGood(ws[j - 1], ops[j - 1], i);
    }
  }

  /** A waiter is sent again exactly when the refresh it awaited has succeeded; a failed refresh ends it. */
  lemma WaitersResumeExactlyWhen(w: World, i: nat, c: nat)
    requires i < |w.requests| && w.requests[i].phase == Waiting(c) && c < |w.calls| && w.requests[i].retries
    ensures var w' := Apply(w, Resume(i));
            && (w.calls[c].Outstanding? ==> w' == w)
            && (w.calls[c].Failed? ==> w' == w.(requests := w.requests[i := w.requests[i].(phase := Done)]))
            && (w.calls[c].Succeeded? ==> At(w', i) == Second(w.held.access) && w'.requests[i].sends == w.requests[i].sends + 1)
            && (At(w', i).Second? <==> w.calls[c].Succeeded?)
  {
  }

  /**
   What an answer does: a pair replaces both tokens, a refusal drops the refresh token and keeps the access
   token, a broken answer keeps both; in every case the call is over and a new one may start.
   */
  lemma AnswersSettle(w: World, c: nat, answer: Answer)
    requires Sane(w) && c < |w.calls| && w.calls[c].Outstanding?
    ensures var w' := Apply(w, RefreshAnswered(c, answer));
            && w'.held.inFlight == None && !w'.calls[c].Outstanding? && (w'.calls[c].Succeeded? <==> answer.Granted?)
            && w'.held.refresh == (match answer case Granted(pair) => Some(pair.refresh) case Refused => None case Broken => w.held.refresh)
            && (answer.Granted? ==> w'.held.access.Some? && w'.held.access.value.token == answer.pair.access)
            && (!answer.Granted? ==> w'.held.access == w.held.access)
  {
  }

  // ---- Termination ----

  function Weight(q: Request): nat {
    match q.phase
    case First => 4
    case Waiting(_) => 2
    case Second(_) => 1
    case Done => 0
  }

  function Work(requests: seq<Request>): nat {
    if requests == [] then 0 else Work(requests[..|requests| - 1]) + Weight(requests[|requests| - 1])
  }

  /** What is still to be done: by each request, and by the refresh call in flight. */
  function Pending(w: World): nat {
    Work(w.requests) + if w.held.inFlight.Some? then 1 else 0
  }

  lemma {:induction false} WorkUpdated(requests: seq<Request>, i: nat, q: Request)
    requires i < |requests|
    ensures Work(requests[i := q]) == Work(requests) - Weight(requests[i]) + Weight(q)
  {
    var last := |requests| - 1;
    if i == last {
      assert requests[i := q][..last] == requests[..last];
    } else {
      WorkUpdated(requests[..last], i, q);
      assert requests[i := q][..last] == requests[..last][i := q];
    }
  }

  lemma WorkAppended(requests: seq<Request>, q: Request)
    ensures Work(requests + [q]) == Work(requests) + Weight(q)
  {
    assert (requests + [q])[..|requests|] == requests;
  }

  /** Steps the client or the network takes, as opposed to new demands by the application. */
  predicate Internal(op: Op) {
    op.FirstResponse? || op.FirstFails? || op.RefreshAnswered? || op.Resume? || op.SecondResponse?
  }

  function Demand(op: Op): nat {
    if op.Send? then 4 else if op.ManualRefresh? then 3 else 0
  }

  lemma JoiningCosts(w: World, i: nat)
    requires i < |w.requests| && w.requests[i].phase == First
    ensures Pending(Joining(w, i)) <= Pending(w) - 1
  {
    var w' := Joining(w, i);
    WorkUpdated(w.requests, i, w'.requests[i]);
    assert w'.requests == w.requests[i := w'.requests[i]];
  }

  lemma MovingCosts(w: World, i: nat, phase: Phase)
    requires i < |w.requests| && phase == Done && w.requests[i].phase != Done
    ensures Pending(Moved(w, i, phase)) < Pending(w)
  {
    WorkUpdated(w.requests, i, w.requests[i].(phase := phase));
  }

  lemma StepCosts(w: World, op: Op)
    requires Sane(w)
    ensures Internal(op) && Apply(w, op) != w ==> Pending(Apply(w, op)) < Pending(w)
    ensures Pending(Apply(w, op)) <= Pending(w) + Demand(op)
  {
    match op
    case Send(noRefresh) => WorkAppended(w.requests, Request(First, noRefresh, true, 1, 0));
    case ManualRefresh =>
      var q := Request(First, true, false, 0, 0);
      WorkAppended(w.requests, q);
      JoiningCosts(w.(requests := w.requests + [q]), |w.requests|);
    case FirstResponse(i, unauthorized) => ResponseCosts(w, op, i);
    case FirstFails(i) => ResponseCosts(w, op, i);
    case Resume(i) => ResumeCosts(w, i);
    case SecondResponse(i) => ResponseCosts(w, op, i);
    case _ =>
  }

  lemma ResponseCosts(w: World, op: Op, i: nat)
    requires op == FirstFails(i) || op == SecondResponse(i) || (op.FirstResponse? && op.request == i)
    ensures Apply(w, op) == w || Pending(Apply(w, op)) < Pending(w)
  {
    if At(w, i) != Done {
      MovingCosts(w, i, Done);
      if At(w, i) == First {
        JoiningCosts(w, i);
      }
    }
  }

  lemma ResumeCosts(w: World, i: nat)
    ensures Apply(w, Resume(i)) == w || Pending(Apply(w, Resume(i))) < Pending(w)
  {
    if At(w, i).Waiting? {
      MovingCosts(w, i, Done);
      WorkUpdated(w.requests, i, w.requests[i].(phase := Second(w.held.access), sends := w.requests[i].sends + 1));
    }
  }

  /** How many of the first `j` steps were internal and did something. */
  function Steps(ws: seq<World>, ops: seq<Op>, j: nat): nat
    requires |ws| == |ops| + 1 && j < |ws|
  {
    if j == 0 then 0
    else Steps(ws, ops, j - 1) + if Internal(ops[j - 1]) && ws[j] != ws[j - 1] then 1 else 0
  }

  function Demands(ops: seq<Op>, j: nat): nat
    requires j <= |ops|
  {
    if j == 0 then 0 else Demands(ops, j - 1) + Demand(ops[j - 1])
  }

  /** So nothing goes round in circles: a request costs four steps at most, a manual refresh three. */
  lemma {:induction false} EveryRequestEnds(ws: seq<World>, ops: seq<Op>, j: nat)
    requires IsRun(ws, ops) && j < |ws|
    ensures Steps(ws, ops, j) + Pending(ws[j]) <= Demands(ops, j)
  {
    if 0 < j {
      EveryRequestEnds(ws, ops, j - 1);
      RunIsSane(ws, ops, j - 1);
      StepCosts(ws[j - 1], ops[j - 1]);
    }
  }

  lemma {:induction false} WorkLeft(requests: seq<Request>) returns (i: nat)
    requires Work(requests) > 0
    ensures i < |requests| && requests[i].phase != Done
  {
    var last := |requests| - 1;
    if requests[last].phase == Done {
      i := WorkLeft(requests[..last]);
    } else {
      i := last;
    }
  }

  /** And nothing gets stuck: while anything is pending, some answer can still move it. */
  lemma SomethingCanMove(ws: seq<World>, ops: seq<Op>, j: nat) returns (op: Op)
    requires IsRun(ws, ops) && j < |ws| && Pending(ws[j]) > 0
    ensures Internal(op) && Apply(ws[j], op) != ws[j]
  {
    RunIsSane(ws, ops, j);
    var w := ws[j];
    if w.held.inFlight.Some? {
      op := RefreshAnswered(w.held.inFlight.value, Broken);
    } else {
      var i := WorkLeft(w.requests);
      assert Counted(w.requests[i], |w.calls|);
      op := match w.requests[i].phase
        case First => FirstFails(i)
        case Waiting(_) => Resume(i)
        case _ => SecondResponse(i);
      assert Apply(w, op).requests[i].phase != w.requests[i].phase;
    }
  }

  // ---- The token a waiter retries with ----

  ghost predicate Current(w: World) {
    && (w.held.stores > 0 ==> w.held.access.Some? && w.held.access.value.version == w.held.stores)
    && (forall c :: 0 <= c < |w.calls| && w.calls[c].Succeeded? ==> 0 < w.calls[c].version <= w.held.stores)
  }

  ghost predicate TokensOnlyStored(ops: seq<Op>) {
    forall k :: 0 <= k < |ops| ==> !ops[k].ClearTokens? && !ops[k].SetTokens?
  }

  lemma {:induction false} RunIsCurrent(ws: seq<World>, ops: seq<Op>, j: nat)
    requires IsRun(ws, ops) && j < |ws| && TokensOnlyStored(ops)
    ensures Current(ws[j])
  {
    if 0 < j {
      RunIsCurrent(ws, ops, j - 1);
      assert ws[j] == Apply(ws[j - 1], ops[j - 1]);
    }
  }

  /** A waiter whose refresh succeeded retries with the token that refresh brought, or a later one. */
  lemma WaitersRetryWithAFreshToken(ws: seq<World>, ops: seq<Op>, k: nat, i: nat, c: nat)
    requires IsRun(ws, ops) && k < |ops| && TokensOnlyStored(ops)
    requires ops[k] == Resume(i) && i < |ws[k].requests| && ws[k].requests[i].retries
    requires ws[k].requests[i].phase == Waiting(c) && c < |ws[k].calls| && ws[k].calls[c].Succeeded?
    ensures At(ws[k + 1], i).Second? && At(ws[k + 1], i).retried.Some?
    ensures ws[k].calls[c].version <= At(ws[k + 1], i).retried.value.version
  {
    RunIsCurrent(ws, ops, k);
  }

  // ---- Refused refresh tokens ----

  /** Nobody hands the client a refresh token the server has already turned down. */
  ghost predicate HandsOutFresh(w: World, op: Op) {
    && (op.Login? ==> op.pair.refresh !in w.refused)
    && (op.RefreshAnswered? && op.answer.Granted? ==> op.answer.pair.refresh !in w.refused)
    && (op.SetTokens? && op.refresh.Some? ==> op.refresh.value !in w.refused)
  }

  lemma {:induction false} HeldTokenIsNotRefused(ws: seq<World>, ops: seq<Op>, j: nat)
    requires IsRun(ws, ops) && j < |ws|
    requires forall k :: 0 <= k < |ops| ==> HandsOutFresh(ws[k], ops[k])
    ensures ws[j].held.refresh.Some? ==> ws[j].held.refresh.value !in ws[j].refused
  {
    if 0 < j {
      HeldTokenIsNotRefused(ws, ops, j - 1);
      assert ws[j] == Apply(ws[j - 1], ops[j - 1]) && HandsOutFresh(ws[j - 1], ops[j - 1]);
    }
  }

  lemma {:induction false} RefusedGrows(ws: seq<World>, ops: seq<Op>, i: nat, j: nat)
    requires IsRun(ws, ops) && i <= j < |ws|
    ensures ws[i].refused <= ws[j].refused
  {
    if i < j {
      RefusedGrows(ws, ops, i, j - 1);
      assert ws[j] == Apply(ws[j - 1], ops[j - 1]);
    }
  }

  /** Once refused, a refresh token is never sent again. */
  lemma RefusedTokenIsNeverSentAgain(ws: seq<World>, ops: seq<Op>, i: nat, k: nat)
    requires IsRun(ws, ops) && i <= k < |ops|
    requires forall n :: 0 <= n < |ops| ==> HandsOutFresh(ws[n], ops[n])
    requires |ws[k].calls| < |ws[k + 1].calls|
    ensures var call := ws[k + 1].calls[|ws[k].calls|];
            call.Outstanding? && call.sent !in ws[i].refused
  {
    HeldTokenIsNotRefused(ws, ops, k);
    RefusedGrows(ws, ops, i, k);
    assert ws[k + 1] == Apply(ws[k], ops[k]);
  }

  // ---- What a refusal drops ----

  predicate LeavesTokens(op: Op) {
    !op.Login? && !op.ClearTokens? && !op.SetTokens?
  }

  /** A change of tokens brings another refresh token than `sent`, or none. */
  predicate BringsAnother(op: Op, sent: Token) {
    && (op.Login? ==> op.pair.refresh != sent)
    && (op.SetTokens? ==> op.refresh != Some(sent))
  }

  ghost predicate Began(ws: seq<World>, i: nat, c: nat, sent: Token)
    requires i + 1 < |ws|
  {
    c == |ws[i].calls| && c < |ws[i + 1].calls| && ws[i + 1].calls[c] == Outstanding(sent)
  }

  lemma BeginningHoldsTheToken(ws: seq<World>, ops: seq<Op>, i: nat, c: nat, sent: Token)
    requires IsRun(ws, ops) && i < |ops| && Began(ws, i, c, sent)
    ensures ws[i + 1].held.refresh == Some(sent)
  {
    assert ws[i + 1] == Apply(ws[i], ops[i]);
  }

  /** A step while the call is outstanding: the tokens stay, or change as the application says. */
  lemma TokensWhileOutstanding(w: World, op: Op, c: nat, sent: Token)
    requires Sane(w) && c < |w.calls| && Apply(w, op).calls[c] == Outstanding(sent)
    requires BringsAnother(op, sent)
    ensures w.calls[c] == Outstanding(sent)
    ensures LeavesTokens(op) ==> Apply(w, op).held.refresh == w.held.refresh
    ensures !LeavesTokens(op) ==> Apply(w, op).held.refresh != Some(sent)
  {
  }

  /** No step strictly between i and j changes the tokens. */
  ghost predicate LeftAlone(ops: seq<Op>, i: nat, j: nat)
    requires j <= |ops|
  {
    forall k :: i < k < j ==> LeavesTokens(ops[k])
  }

  ghost predicate OnlyOthersBrought(ops: seq<Op>, i: nat, j: nat, sent: Token)
    requires j <= |ops|
  {
    forall k :: i < k < j ==> BringsAnother(ops[k], sent)
  }

  lemma OneStepMore(ops: seq<Op>, i: nat, j: nat, sent: Token)
    requires i < j < |ops|
    ensures LeftAlone(ops, i, j + 1) <==> LeftAlone(ops, i, j) && LeavesTokens(ops[j])
    ensures OnlyOthersBrought(ops, i, j + 1, sent) <==> OnlyOthersBrought(ops, i, j, sent) && BringsAnother(ops[j], sent)
  {
  }

  /**
   While a call is outstanding, the token it sent is the one held, and so the one a refusal
   would drop, exactly as long as the application has not changed the tokens.
   */
  lemma {:induction false} RefusalsDropTheRefusedTokenExactlyWhen(
    ws: seq<World>, ops: seq<Op>, i: nat, j: nat, c: nat, sent: Token)
    requires IsRun(ws, ops) && i < j <= |ops| && Began(ws, i, c, sent)
    requires c < |ws[j].calls| && ws[j].calls[c] == Outstanding(sent)
    requires OnlyOthersBrought(ops, i, j, sent)
    ensures ws[j].held.refresh == Some(sent) <==> LeftAlone(ops, i, j)
    decreases j
  {
    if i + 1 == j {
      BeginningHoldsTheToken(ws, ops, i, c, sent);
    } else {
      OneStepMore(ops, i, j - 1, sent);
      OutstandingBefore(ws, ops, i, j - 1, c, sent);
      RefusalsDropTheRefusedTokenExactlyWhen(ws, ops, i, j - 1, c, sent);
    }
  }

  /** A call outstanding after a step was outstanding before it, and the step did to the token what it says. */
  lemma OutstandingBefore(ws: seq<World>, ops: seq<Op>, i: nat, n: nat, c: nat, sent: Token)
    requires IsRun(ws, ops) && i < n < |ops| && Began(ws, i, c, sent)
    requires c < |ws[n + 1].calls| && ws[n + 1].calls[c] == Outstanding(sent) && BringsAnother(ops[n], sent)
    ensures c < |ws[n].calls| && ws[n].calls[c] == Outstanding(sent)
    ensures LeavesTokens(ops[n]) ==> ws[n + 1].held.refresh == ws[n].held.refresh
    ensures !LeavesTokens(ops[n]) ==> ws[n + 1].held.refresh != Some(sent)
  {
    RunIsSane(ws, ops, n);
    CallsGrow(ws, ops, i + 1, n);
    TokensWhileOutstanding(ws[n], ops[n], c, sent);
  }

  lemma {:induction false} CallsGrow(ws: seq<World>, ops: seq<Op>, i: nat, j: nat)
    requires IsRun(ws, ops) && i <= j < |ws|
    ensures |ws[i].calls| <= |ws[j].calls|
  {
    if i < j {
      CallsGrow(ws, ops, i, j - 1);
      assert ws[j] == Apply(ws[j - 1], ops[j - 1]);
    }
  }

  /** A sign-in while a refresh is in flight: the refusal of the old token drops the new one. */
  lemma StaleRefusalDropsANewToken(old': Token, pair: Pair) returns (ws: seq<World>, ops: seq<Op>)
    requires old' != "" && pair.refresh != old'
    ensures IsRun(ws, ops) && |ws| == 5
    ensures var before, after := ws[|ws| - 2], ws[|ws| - 1];
            before.held.refresh == Some(pair.refresh) && after.held.refresh == None && after.refused == {old'}
  {
    var w := World(Held(None, Some(old'), None, 0), [], [], {});
    ops := [Send(false), FirstResponse(0, true), Login(pair), RefreshAnswered(0, Refused)];
    var w1 := Apply(w, ops[0]);
    var w2 := Apply(w1, ops[1]);
    var w3 := Apply(w2, ops[2]);
    ws := [w, w1, w2, w3, Apply(w3, ops[3])];
  }

  // ---- When a logout holds ----

  /** What may follow: any steps that hand the client no tokens. */
  ghost predicate FollowedBy(w: World, vs: seq<World>, more: seq<Op>) {
    && |vs| == |more| + 1 && vs[0] == w
    && forall k :: 0 <= k < |more| ==> vs[k + 1] == Apply(vs[k], more[k]) && !more[k].Login? && !more[k].SetTokens?
  }

  ghost predicate SignedOut(w: World, calls: nat) {
    w.held.access == None && w.held.refresh == None && |w.calls| == calls
  }

  ghost predicate StaysSignedOut(w: World) {
    forall vs, more :: FollowedBy(w, vs, more) ==> SignedOut(vs[|more|], |w.calls|)
  }

  lemma {:induction false} NothingSignsBackIn(w: World, vs: seq<World>, more: seq<Op>)
    requires Sane(w) && w.held.inFlight == None && SignedOut(w, |w.calls|) && FollowedBy(w, vs, more)
    ensures Sane(vs[|more|]) && vs[|more|].held.inFlight == None && SignedOut(vs[|more|], |w.calls|)
    decreases |more|
  {
    if more != [] {
      var n := |more| - 1;
      NothingSignsBackIn(w, vs[..n + 1], more[..n]);
      assert vs[n + 1] == Apply(vs[n], more[n]);
      StepIsSane(vs[n], more[n]);
    }
  }

  /**
   A logout holds, in the sense that no token comes back and no refresh call starts until
   the application signs in anew, exactly when no refresh call is in flight at that moment.
   */
  lemma LogoutHoldsExactlyWhen(ws: seq<World>, ops: seq<Op>, k: nat)
    requires IsRun(ws, ops) && k < |ops| && ops[k] == ClearTokens
    ensures StaysSignedOut(ws[k + 1]) <==> ws[k].held.inFlight == None
  {
    var w := ws[k + 1];
    assert w == Apply(ws[k], ops[k]);
    RunIsSane(ws, ops, k + 1);
    if w.held.inFlight == None {
      forall vs, more | FollowedBy(w, vs, more) ensures SignedOut(vs[|more|], |w.calls|) {
        NothingSignsBackIn(w, vs, more);
      }
    } else {
      var op := RefreshAnswered(w.held.inFlight.value, Granted(Pair("", "")));
      var vs := [w, Apply(w, op)];
      assert FollowedBy(w, vs, [op]) && !SignedOut(vs[1], |w.calls|);
    }
  }

  /** A logout while a refresh is in flight: its answer signs the client in again. */
  lemma LateAnswerUndoesLogout(old': Token, pair: Pair) returns (ws: seq<World>, ops: seq<Op>)
    requires old' != ""
    ensures IsRun(ws, ops) && |ops| == 4 && ops[2] == ClearTokens && ops[3] == RefreshAnswered(0, Granted(pair))
    ensures var after := ws[|ws| - 1];
            after.held.refresh == Some(pair.refresh) && after.held.access.Some? && after.held.access.value.token == pair.access
  {
    var w := World(Held(None, Some(old'), None, 0), [], [], {});
    ops := [Send(false), FirstResponse(0, true), ClearTokens, RefreshAnswered(0, Granted(pair))];
    var w1 := Apply(w, ops[0]);
    var w2 := Apply(w1, ops[1]);
    var w3 := Apply(w2, ops[2]);
    ws := [w, w1, w2, w3, Apply(w3, ops[3])];
  }
}

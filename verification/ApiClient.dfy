/** Refresh once and retry: the browser's API client over the auth store's single-flight refresh,
    as a transition system whose steps are the stretches of code between two awaits. */
module ApiClient {
  import opened Wrappers
  import opened Text

  type Token = nat

  // ------------------------------------------------------------------
  // The interceptors
  // ------------------------------------------------------------------

  const UNAUTHORIZED: nat := 401
  const FORBIDDEN: nat := 403
  const REFRESH_PATH := "/auth/refresh"
  const NO_REFRESH_PATHS := ["/auth/login", REFRESH_PATH, "/auth/logout"]

  predicate EndsWith(s: string, suffix: string) {
    |suffix| <= |s| && s[|s| - |suffix|..] == suffix
  }

  predicate IsRefreshable(url: string) {
    var path := Split(url, '?')[0];
    forall excluded :: excluded in NO_REFRESH_PATHS ==> path != excluded && !EndsWith(path, excluded)
  }

  /** The refresh endpoint is never refreshable, whatever base it is resolved against and whatever
      query follows it. */
  lemma RefreshPathIsExcluded(base: string, query: string)
    requires '?' !in base
    ensures !IsRefreshable(base + REFRESH_PATH)
    ensures !IsRefreshable(base + REFRESH_PATH + ['?'] + query)
  {
    var path := base + REFRESH_PATH;
    assert '?' !in path;
    SplitWhole(path, '?');
    SplitJoin(path, query, '?');
    assert path[|path| - |REFRESH_PATH|..] == REFRESH_PATH;
    assert REFRESH_PATH in NO_REFRESH_PATHS by {
      assert NO_REFRESH_PATHS[1] == REFRESH_PATH;
    }
  }

  /** How a call ends on the wire: a 2xx, an error status, or no response at all. */
  datatype Answer = Success | Status(code: nat) | NoResponse

  datatype Verdict = Rethrow | RefreshThenRetry

  function OnError(answer: Answer, attempted: bool, bridged: bool, refreshable: bool): (verdict: Verdict) {
    if answer == Status(UNAUTHORIZED) && !attempted && bridged && refreshable
    then RefreshThenRetry
    else Rethrow
  }

  /** A request's configuration, which both interceptors write to and a retry carries on. */
  class RequestConfig {
    const url: string
    var authorization: Option<Token>
    var refreshAttempted: bool

    constructor (url: string)
      ensures this.url == url && authorization == None && !refreshAttempted
    {
      this.url := url;
      authorization := None;
      refreshAttempted := false;
    }

    method AttachToken(token: Option<Token>)
      modifies this`authorization
      ensures authorization == token
    {
      if token.Some? {
        authorization := Some(token.value);
      } else {
        authorization := None;
      }
    }

    /** The response interceptor up to its await. */
    method OnResponseError(answer: Answer, bridged: bool) returns (verdict: Verdict)
      modifies this`refreshAttempted
      ensures verdict == OnError(answer, old(refreshAttempted), bridged, IsRefreshable(url))
      ensures refreshAttempted == (old(refreshAttempted) || verdict == RefreshThenRetry)
    {
      if answer != Status(UNAUTHORIZED) {
        return Rethrow;
      }
      if refreshAttempted || !bridged || !IsRefreshable(url) {
        return Rethrow;
      }
      refreshAttempted := true;
      return RefreshThenRetry;
    }
  }

  // ------------------------------------------------------------------
  // The protocol's state
  // ------------------------------------------------------------------

  /** Where a logical request stands: about to be sent, sent, waiting for a refresh, answered. */
  datatype Phase = Queued | OnWire | Awaiting(flight: nat) | Settled(ok: bool)

  /** `rotation` names the flight whose refresh call this request is; `asks` counts its own
      requests for a refresh, and `late` records that the refresh it joined was already over. */
  datatype Request = Request(
    refreshable: bool, rotation: Option<nat>, attempted: bool, asks: nat, late: bool,
    sent: seq<Option<Token>>, phase: Phase)

  /** A refresh: waiting for the cross-tab lock, on the wire as a request, or over. */
  datatype Flight = Locking | Presenting(request: nat, entry: nat) | Resolved(ok: bool)

  datatype Outcome = Pending | Rotated | Refused | Inconclusive

  datatype Presentation = Presentation(token: Token, outcome: Outcome)

  /** `next` numbers token pairs no one has seen yet; `latch` is the store's in-flight promise, and
      `refreshUrl` is where the store posts its refresh call. */
  datatype State = State(
    refreshUrl: string, bridged: bool, access: Option<Token>, refresh: Option<Token>, next: Token,
    latch: Option<nat>, flights: seq<Flight>, requests: seq<Request>, presented: seq<Presentation>)

  function Initial(refreshUrl: string): (after: State) {
    State(refreshUrl, false, None, None, 0, None, [], [], [])
  }

  datatype Step =
    | Issue(url: string) | Install | SignOut | Register(bridged: bool)
    | Send(i: nat) | Answered(i: nat, answer: Answer) | Rotate(adopted: bool) | Unlatch | Resume(i: nat)

  /** The steps of the protocol itself, as opposed to what the user and the application do. */
  predicate IsProtocolStep(step: Step) {
    step.Send? || step.Answered? || step.Rotate? || step.Unlatch? || step.Resume?
  }

  predicate Enabled(s: State, step: Step) {
    match step
    case Issue(_) => true
    case Install => true
    case SignOut => true
    case Register(_) => true
    case Send(i) => i < |s.requests| && s.requests[i].phase == Queued
    case Answered(i, _) => i < |s.requests| && s.requests[i].phase == OnWire
    case Rotate(_) => s.latch.Some? && s.latch.value < |s.flights| && s.flights[s.latch.value] == Locking
    case Unlatch => s.latch.Some? && s.latch.value < |s.flights| && s.flights[s.latch.value].Resolved?
    case Resume(i) =>
      && i < |s.requests| && s.requests[i].phase.Awaiting?
      && s.requests[i].phase.flight < |s.flights| && s.flights[s.requests[i].phase.flight].Resolved?
      && s.latch != Some(s.requests[i].phase.flight)
  }

  function NewRequest(url: string, rotation: Option<nat>): (request: Request) {
    Request(IsRefreshable(url), rotation, false, 0, false, [], Queued)
  }

  /** No call posted to this URL can ask for a refresh. */
  ghost predicate NeverAsks(url: string) {
    forall rotation :: !NewRequest(url, rotation).refreshable
  }

  /** A fresh pair: a sign-in here, or a pair another tab has stored. */
  function Installed(s: State): (after: State) {
    s.(access := Some(s.next), refresh := Some(s.next), next := s.next + 1)
  }

  function Cleared(s: State): (after: State) {
    s.(access := None, refresh := None)
  }

  function WithRequest(s: State, i: nat, r: Request): (after: State)
    requires i < |s.requests|
  {
    s.(requests := s.requests[i := r])
  }

  /** `bridge.refresh()`: join the flight in the latch, or start one. */
  function Joined(s: State): (r: (State, nat)) {
    if s.latch.Some? then (s, s.latch.value)
    else (s.(latch := Some(|s.flights|), flights := s.flights + [Locking]), |s.flights|)
  }

  /** Only a 401 or a 403 on the refresh call is a verdict against its token. */
  function Judged(answer: Answer): (outcome: Outcome) {
    if answer == Success then Rotated
    else if answer == Status(UNAUTHORIZED) || answer == Status(FORBIDDEN) then Refused
    else Inconclusive
  }

  /** What the store does with the answer to its refresh call: anything short of a verdict leaves
      the token pair as it was. */
  function Concluded(s: State, f: nat, answer: Answer): (after: State)
    requires f < |s.flights| && s.flights[f].Presenting? && s.flights[f].entry < |s.presented|
  {
    var entry := s.flights[f].entry;
    var outcome := Judged(answer);
    var told := s.(flights := s.flights[f := Resolved(answer == Success)],
                   presented := s.presented[entry := s.presented[entry].(outcome := outcome)]);
    match outcome
    case Rotated => Installed(told)
    case Refused => Cleared(told)
    case _ => told
  }

  function Rotating(s: State, f: nat, adopted: bool): (after: State)
    requires f < |s.flights|
  {
    if adopted then Installed(s.(flights := s.flights[f := Resolved(true)]))
    else if s.refresh.None? then Cleared(s.(flights := s.flights[f := Resolved(false)]))
    else s.(flights := s.flights[f := Presenting(|s.requests|, |s.presented|)],
            requests := s.requests + [NewRequest(s.refreshUrl, Some(f))],
            presented := s.presented + [Presentation(s.refresh.value, Pending)])
  }

  function Answering(s: State, i: nat, answer: Answer): (after: State)
    requires i < |s.requests|
  {
    var r := s.requests[i];
    match OnError(answer, r.attempted, s.bridged, r.refreshable)
    case RefreshThenRetry =>
      var (joined, f) := Joined(s);
      var late := f < |joined.flights| && joined.flights[f].Resolved?;
      WithRequest(joined, i, r.(attempted := true, asks := r.asks + 1, late := late, phase := Awaiting(f)))
    case Rethrow =>
      var settled := WithRequest(s, i, r.(phase := Settled(answer == Success)));
      if && r.rotation.Some? && r.rotation.value < |s.flights|
         && s.flights[r.rotation.value].Presenting? && s.flights[r.rotation.value].entry < |s.presented|
      then Concluded(settled, r.rotation.value, answer)
      else settled
  }

  function Next(s: State, step: Step): (after: State)
    requires Enabled(s, step)
  {
    match step
    case Issue(url) => s.(requests := s.requests + [NewRequest(url, None)])
    case Install => Installed(s)
    case SignOut => Cleared(s)
    case Register(bridged) => s.(bridged := bridged)
    case Send(i) =>
      var token := if s.bridged then s.access else None;
      WithRequest(s, i, s.requests[i].(sent := s.requests[i].sent + [token], phase := OnWire))
    case Answered(i, answer) => Answering(s, i, answer)
    case Rotate(adopted) => Rotating(s, s.latch.value, adopted)
    case Unlatch => s.(latch := None)
    case Resume(i) =>
      var r := s.requests[i];
      WithRequest(s, i, r.(phase := if s.flights[r.phase.flight].ok then Queued else Settled(false)))
  }

  predicate Leads(s: State, step: Step, s': State) {
    Enabled(s, step) && Next(s, step) == s'
  }

  ghost predicate Moves(s: State, s': State) {
    exists step :: Leads(s, step, s')
  }

  ghost predicate ProtocolMoves(s: State, s': State) {
    exists step :: IsProtocolStep(step) && Leads(s, step, s')
  }

  /** The states a client passes through, from one with no bridge whose store posts its refresh
      where the client asks for none: any base followed by the refresh path is such a place, by
      RefreshPathIsExcluded. */
  ghost predicate IsRun(run: seq<State>) {
    && run != [] && run[0] == Initial(run[0].refreshUrl) && NeverAsks(run[0].refreshUrl)
    && forall i, j :: 0 <= i && j == i + 1 && j < |run| ==> Moves(run[i], run[j])
  }

  ghost predicate Reachable(s: State) {
    exists run :: IsRun(run) && run[|run| - 1] == s
  }

  // ------------------------------------------------------------------
  // The invariant
  // ------------------------------------------------------------------

  predicate PhaseOk(r: Request, flights: nat) {
    match r.phase
    case Queued => |r.sent| == r.asks
    case OnWire => |r.sent| == r.asks + 1
    case Awaiting(f) => f < flights && |r.sent| == 1 && r.asks == 1
    case Settled(_) => 1 <= |r.sent| <= r.asks + 1
  }

  /** A request that may be sent once more does not carry the token it failed with. */
  predicate RetryOk(s: State, r: Request) {
    && (|r.sent| == 2 && !r.late ==> r.sent[0].None? || r.sent[1] != r.sent[0])
    && (|r.sent| == 1 && !r.late &&
        (r.phase == Queued || (r.phase.Awaiting? && r.phase.flight < |s.flights| && s.flights[r.phase.flight] == Resolved(true)))
        ==> r.sent[0].None? || r.sent[0] != s.access)
  }

  ghost predicate RequestOk(s: State, i: nat)
    requires i < |s.requests|
  {
    var r := s.requests[i];
    && PhaseOk(r, |s.flights|)
    && r.asks == (if r.attempted then 1 else 0)
    && (forall t :: t in r.sent && t.Some? ==> t.value < s.next)
    && RetryOk(s, r)
    && (r.rotation.Some? ==>
          && !r.refreshable && !r.attempted && r.rotation.value < |s.flights|
          && (!r.phase.Settled? ==>
                s.flights[r.rotation.value].Presenting? && s.flights[r.rotation.value].request == i))
  }

  predicate FlightOk(s: State, f: nat)
    requires f < |s.flights|
  {
    && (!s.flights[f].Resolved? ==> s.latch == Some(f))
    && (s.flights[f].Presenting? ==>
          var j, p := s.flights[f].request, s.flights[f].entry;
          && j < |s.requests| && s.requests[j].rotation == Some(f) && !s.requests[j].phase.Settled?
          && p + 1 == |s.presented| && s.presented[p].outcome == Pending)
  }

  /** Every presentation of a token but its last came back without a verdict. */
  ghost predicate TokensOk(s: State) {
    && (s.access.Some? ==> s.access.value < s.next)
    && (s.refresh.Some? ==> s.refresh.value < s.next)
    && (forall p :: 0 <= p < |s.presented| ==> s.presented[p].token < s.next)
    && (forall p, q :: 0 <= p < q < |s.presented| && s.presented[p].token == s.presented[q].token
                       ==> s.presented[p].outcome == Inconclusive)
    && (forall p :: 0 <= p < |s.presented| && s.presented[p].outcome == Pending
                    ==> s.latch.Some? && s.latch.value < |s.flights|
                        && s.flights[s.latch.value].Presenting? && s.flights[s.latch.value].entry == p)
    && (forall p :: 0 <= p < |s.presented| && Some(s.presented[p].token) == s.refresh
                    ==> s.presented[p].outcome.Inconclusive? || s.presented[p].outcome.Pending?)
  }

  ghost predicate Inv(s: State) {
    && NeverAsks(s.refreshUrl)
    && (s.latch.Some? ==> s.latch.value < |s.flights|)
    && (forall i :: 0 <= i < |s.requests| ==> RequestOk(s, i))
    && (forall f :: 0 <= f < |s.flights| ==> FlightOk(s, f))
    && TokensOk(s)
  }

  lemma EnvironmentKeepsInv(s: State, step: Step)
    requires Inv(s) && !IsProtocolStep(step)
    ensures Inv(Next(s, step))
  {
    var s' := Next(s, step);
    forall i | 0 <= i < |s'.requests| ensures RequestOk(s', i) {
      if i < |s.requests| {
        assert RequestOk(s, i);
      }
    }
    forall f | 0 <= f < |s'.flights| ensures FlightOk(s', f) {
      assert FlightOk(s, f);
    }
  }

  lemma SendKeepsInv(s: State, i: nat)
    requires Inv(s) && Enabled(s, Send(i))
    ensures Inv(Next(s, Send(i)))
  {
    var s' := Next(s, Send(i));
    assert RequestOk(s, i);
    forall k | 0 <= k < |s'.requests| ensures RequestOk(s', k) {
      assert RequestOk(s, k);
    }
    forall f | 0 <= f < |s'.flights| ensures FlightOk(s', f) {
      assert FlightOk(s, f);
    }
  }

  lemma ResumeKeepsInv(s: State, i: nat)
    requires Inv(s) && Enabled(s, Resume(i))
    ensures Inv(Next(s, Resume(i)))
  {
    var s' := Next(s, Resume(i));
    assert RequestOk(s, i);
    forall k | 0 <= k < |s'.requests| ensures RequestOk(s', k) {
      assert RequestOk(s, k);
    }
    forall f | 0 <= f < |s'.flights| ensures FlightOk(s', f) {
      assert FlightOk(s, f);
    }
  }

  lemma UnlatchKeepsInv(s: State)
    requires Inv(s) && Enabled(s, Unlatch)
    ensures Inv(Next(s, Unlatch))
  {
    var s' := Next(s, Unlatch);
    forall k | 0 <= k < |s'.requests| ensures RequestOk(s', k) {
      assert RequestOk(s, k);
    }
    forall f | 0 <= f < |s'.flights| ensures FlightOk(s', f) {
      assert FlightOk(s, f);
    }
  }

  /** The lock is held and the refresh call goes out. */
  lemma PresentKeepsInv(s: State)
    requires Inv(s) && Enabled(s, Rotate(false)) && s.refresh.Some?
    ensures Inv(Next(s, Rotate(false)))
  {
    var s' := Next(s, Rotate(false));
    assert FlightOk(s, s.latch.value);
    forall k | 0 <= k < |s'.requests| ensures RequestOk(s', k) {
      if k < |s.requests| {
        assert RequestOk(s, k);
      }
    }
    forall f | 0 <= f < |s'.flights| ensures FlightOk(s', f) {
      assert FlightOk(s, f);
    }
  }

  lemma RotateKeepsInv(s: State, adopted: bool)
    requires Inv(s) && Enabled(s, Rotate(adopted))
    ensures Inv(Next(s, Rotate(adopted)))
  {
    if !adopted && s.refresh.Some? {
      PresentKeepsInv(s);
    } else {
      var s' := Next(s, Rotate(adopted));
      assert FlightOk(s, s.latch.value);
      forall k | 0 <= k < |s'.requests| ensures RequestOk(s', k) {
        assert RequestOk(s, k);
      }
      forall f | 0 <= f < |s'.flights| ensures FlightOk(s', f) {
        assert FlightOk(s, f);
      }
    }
  }

  lemma AskKeepsInv(s: State, i: nat, answer: Answer)
    requires Inv(s) && Enabled(s, Answered(i, answer))
    requires OnError(answer, s.requests[i].attempted, s.bridged, s.requests[i].refreshable) == RefreshThenRetry
    ensures Inv(Next(s, Answered(i, answer)))
  {
    var s' := Next(s, Answered(i, answer));
    assert RequestOk(s, i);
    forall k | 0 <= k < |s'.requests| ensures RequestOk(s', k) {
      assert RequestOk(s, k);
    }
    forall f | 0 <= f < |s'.flights| ensures FlightOk(s', f) {
      if f < |s.flights| {
        assert FlightOk(s, f);
      }
    }
  }

  lemma SettleKeepsInv(s: State, i: nat, answer: Answer)
    requires Inv(s) && Enabled(s, Answered(i, answer)) && s.requests[i].rotation.None?
    requires OnError(answer, s.requests[i].attempted, s.bridged, s.requests[i].refreshable) == Rethrow
    ensures Inv(Next(s, Answered(i, answer)))
  {
    var s' := Next(s, Answered(i, answer));
    assert RequestOk(s, i);
    forall k | 0 <= k < |s'.requests| ensures RequestOk(s', k) {
      assert RequestOk(s, k);
    }
    forall f | 0 <= f < |s'.flights| ensures FlightOk(s', f) {
      assert FlightOk(s, f);
    }
  }

  /** The answer to the refresh call ends its flight, and only then can the latch be released. */
  lemma ConcludeKeepsInv(s: State, i: nat, answer: Answer)
    requires Inv(s) && Enabled(s, Answered(i, answer)) && s.requests[i].rotation.Some?
    ensures Inv(Next(s, Answered(i, answer)))
  {
    var f := s.requests[i].rotation.value;
    assert RequestOk(s, i) && FlightOk(s, f);
    var settled := WithRequest(s, i, s.requests[i].(phase := Settled(answer == Success)));
    var s' := Concluded(settled, f, answer);
    assert s' == Next(s, Answered(i, answer));
    ConcludeKeepsTokens(s, settled, f, answer);
    forall k | 0 <= k < |s'.requests| ensures RequestOk(s', k) {
      assert RequestOk(s, k);
      ConcludeKeepsRequest(s, i, k, f, answer);
    }
    forall g | 0 <= g < |s'.flights| ensures FlightOk(s', g) {
      assert FlightOk(s, g);
    }
  }

  lemma ConcludedRequestIsOk(s: State, i: nat, f: nat, answer: Answer)
    requires i < |s.requests| && RequestOk(s, i)
    requires s.requests[i].rotation == Some(f) && s.requests[i].phase == OnWire
    requires f < |s.flights| && s.flights[f].Presenting? && s.flights[f].entry < |s.presented|
    ensures RequestOk(Concluded(WithRequest(s, i, s.requests[i].(phase := Settled(answer == Success))), f, answer), i)
  {
  }

  lemma OtherRequestIsOk(s: State, settled: State, k: nat, f: nat, answer: Answer)
    requires k < |s.requests| && RequestOk(s, k)
    requires settled == s.(requests := settled.requests) && |settled.requests| == |s.requests|
    requires settled.requests[k] == s.requests[k]
    requires f < |s.flights| && s.flights[f].Presenting? && s.flights[f].entry < |s.presented|
    requires s.requests[k].rotation == Some(f) ==> s.requests[k].phase.Settled?
    ensures RequestOk(Concluded(settled, f, answer), k)
  {
  }

  lemma ConcludeKeepsRequest(s: State, i: nat, k: nat, f: nat, answer: Answer)
    requires i < |s.requests| && k < |s.requests| && RequestOk(s, i) && RequestOk(s, k)
    requires s.requests[i].rotation == Some(f) && s.requests[i].phase == OnWire
    requires f < |s.flights| && s.flights[f].Presenting? && s.flights[f].entry < |s.presented|
    ensures RequestOk(Concluded(WithRequest(s, i, s.requests[i].(phase := Settled(answer == Success))), f, answer), k)
  {
    if k == i {
      ConcludedRequestIsOk(s, i, f, answer);
    } else {
      OtherRequestIsOk(s, WithRequest(s, i, s.requests[i].(phase := Settled(answer == Success))), k, f, answer);
    }
  }

  predicate Concludes(s: State, settled: State, f: nat) {
    && settled == s.(requests := settled.requests)
    && f < |s.flights| && s.flights[f].Presenting? && s.latch == Some(f)
    && s.flights[f].entry + 1 == |s.presented|
  }

  lemma RotationKeepsTokens(s: State, settled: State, f: nat, answer: Answer)
    requires TokensOk(s) && Concludes(s, settled, f) && Judged(answer).Rotated?
    ensures TokensOk(Concluded(settled, f, answer))
  {
  }

  lemma RefusalKeepsTokens(s: State, settled: State, f: nat, answer: Answer)
    requires TokensOk(s) && Concludes(s, settled, f) && Judged(answer).Refused?
    ensures TokensOk(Concluded(settled, f, answer))
  {
  }

  lemma ConcludeKeepsTokens(s: State, settled: State, f: nat, answer: Answer)
    requires TokensOk(s) && Concludes(s, settled, f)
    ensures TokensOk(Concluded(settled, f, answer))
  {
    match Judged(answer)
    case Rotated => RotationKeepsTokens(s, settled, f, answer);
    case Refused => RefusalKeepsTokens(s, settled, f, answer);
    case _ =>
  }

  lemma StepKeepsInv(s: State, step: Step)
    requires Inv(s) && Enabled(s, step)
    ensures Inv(Next(s, step))
  {
    match step
    case Send(i) => SendKeepsInv(s, i);
    case Resume(i) => ResumeKeepsInv(s, i);
    case Unlatch => UnlatchKeepsInv(s);
    case Rotate(adopted) => RotateKeepsInv(s, adopted);
    case Answered(i, answer) =>
      if s.requests[i].rotation.Some? {
        ConcludeKeepsInv(s, i, answer);
      } else if OnError(answer, s.requests[i].attempted, s.bridged, s.requests[i].refreshable) == Rethrow {
        SettleKeepsInv(s, i, answer);
      } else {
        AskKeepsInv(s, i, answer);
      }
    case _ => EnvironmentKeepsInv(s, step);
  }

  lemma {:induction false} RunKeepsInv(run: seq<State>, i: nat)
    requires IsRun(run) && i < |run|
    ensures Inv(run[i])
  {
    if i > 0 {
      RunKeepsInv(run, i - 1);
      assert Moves(run[i - 1], run[i]);
      var step :| Leads(run[i - 1], step, run[i]);
      StepKeepsInv(run[i - 1], step);
    }
  }

  // ------------------------------------------------------------------
  // What holds in every state the client can reach
  // ------------------------------------------------------------------

  lemma ReachableInv(s: State)
    requires Reachable(s)
    ensures Inv(s)
  {
    var run :| IsRun(run) && run[|run| - 1] == s;
    RunKeepsInv(run, |run| - 1);
  }

  /** Every logical request is sent at most twice and asks for at most one refresh; the refresh
      call itself never waits for a refresh. */
  lemma AtMostOneRetryEach(s: State, i: nat)
    requires Reachable(s) && i < |s.requests|
    ensures |s.requests[i].sent| <= 2 && s.requests[i].asks <= 1
    ensures s.requests[i].rotation.Some? ==> !s.requests[i].phase.Awaiting? && |s.requests[i].sent| <= 1
  {
    ReachableInv(s);
    assert RequestOk(s, i);
  }

  lemma AtMostOneRefreshInFlight(s: State, f: nat, g: nat)
    requires Reachable(s) && f < |s.flights| && g < |s.flights|
    requires !s.flights[f].Resolved? && !s.flights[g].Resolved?
    ensures f == g
  {
    ReachableInv(s);
    assert FlightOk(s, f) && FlightOk(s, g);
  }

  /** A refresh token whose presentation got a verdict, a new pair or a refusal, is never presented
      again: the same value goes out twice only if every earlier time it went out the tab received
      no verdict. What the server did is another matter, and `CrossTab` tells the two apart. */
  lemma SpentTokenIsNeverPresentedAgain(s: State, p: nat, q: nat)
    requires Reachable(s) && p < q < |s.presented|
    ensures s.presented[p].token == s.presented[q].token ==> s.presented[p].outcome == Inconclusive
  {
    ReachableInv(s);
  }

  /** The promise that no refresh token value is presented twice does not hold of the store: a
      failed refresh keeps the session unless the failure was a 401 or a 403. A rotation presents
      a token for the second time exactly when an earlier presentation of it was inconclusive. */
  lemma RotationRepeatsATokenExactlyWhen(s: State)
    requires Reachable(s) && Enabled(s, Rotate(false)) && s.refresh.Some?
    ensures var s' := Next(s, Rotate(false)); var last := |s'.presented| - 1;
            && s'.presented[last].token == s.refresh.value
            && ((exists p :: 0 <= p < last && s'.presented[p].token == s'.presented[last].token)
                <==> Presentation(s.refresh.value, Inconclusive) in s.presented)
  {
    ReachableInv(s);
    var s' := Next(s, Rotate(false));
    var last := |s'.presented| - 1;
    if p :| 0 <= p < last && s'.presented[p].token == s'.presented[last].token {
      assert s.presented[p] == Presentation(s.refresh.value, Inconclusive);
    }
    if Presentation(s.refresh.value, Inconclusive) in s.presented {
      var p :| 0 <= p < |s.presented| && s.presented[p] == Presentation(s.refresh.value, Inconclusive);
      assert s'.presented[p].token == s'.presented[last].token;
    }
  }

  /** A retry carries no token, or another one than it failed with, unless the refresh it joined
      was already over. */
  lemma RetryCarriesANewToken(s: State, i: nat)
    requires Reachable(s) && i < |s.requests| && |s.requests[i].sent| == 2
    requires s.requests[i].sent[0].Some? && !s.requests[i].late
    ensures s.requests[i].sent[1] != s.requests[i].sent[0]
  {
    ReachableInv(s);
    assert RequestOk(s, i);
  }

  // ------------------------------------------------------------------
  // The two exceptions do occur
  // ------------------------------------------------------------------

  lemma ReachNext(s: State, step: Step)
    requires Reachable(s) && Enabled(s, step)
    ensures Reachable(Next(s, step))
  {
    var run :| IsRun(run) && run[|run| - 1] == s;
    var s' := Next(s, step);
    assert Leads(s, step, s');
    assert IsRun(run + [s']) && (run + [s'])[|run|] == s';
  }

  function Sending(token: Token): (request: Request) {
    Request(true, None, false, 0, false, [Some(token)], OnWire)
  }

  function Waiting(token: Token, flight: nat, late: bool): (request: Request) {
    Request(true, None, true, 1, late, [Some(token)], Awaiting(flight))
  }

  function RefreshCall(flight: nat, phase: Phase): (request: Request) {
    Request(false, Some(flight), false, 0, false, if phase == Queued then [] else [Some(0)], phase)
  }

  function SignedIn(refreshUrl: string): (after: State) {
    State(refreshUrl, true, Some(0), Some(0), 1, None, [], [], [])
  }

  /** `url` has been sent and answered 401 ... */
  function Asked(refreshUrl: string): (after: State) {
    SignedIn(refreshUrl).(latch := Some(0), flights := [Locking], requests := [Waiting(0, 0, false)])
  }

  /** ... the store posts its refresh call ... */
  function Called(refreshUrl: string): (after: State) {
    Refreshing(refreshUrl).(requests := [Waiting(0, 0, false), RefreshCall(0, Queued)])
  }

  /** ... which is on the wire ... */
  function Refreshing(refreshUrl: string): (after: State) {
    SignedIn(refreshUrl).(latch := Some(0), flights := [Presenting(1, 0)],
                          requests := [Waiting(0, 0, false), RefreshCall(0, OnWire)],
                          presented := [Presentation(0, Pending)])
  }

  /** ... and answered with a new pair, the latch not yet released. */
  function Renewed(refreshUrl: string): (after: State) {
    Refreshing(refreshUrl).(flights := [Resolved(true)], presented := [Presentation(0, Rotated)],
                            access := Some(1), refresh := Some(1), next := 2,
                            requests := [Waiting(0, 0, false), RefreshCall(0, Settled(true))])
  }

  /** ... or got no response, and the pair is kept. */
  function Lost(refreshUrl: string): (after: State) {
    Refreshing(refreshUrl).(flights := [Resolved(false)], presented := [Presentation(0, Inconclusive)],
                            requests := [Waiting(0, 0, false), RefreshCall(0, Settled(false))])
  }

  lemma RefreshIsLost(refreshUrl: string)
    ensures Leads(Refreshing(refreshUrl), Answered(1, NoResponse), Lost(refreshUrl))
  {
    assert Refreshing(refreshUrl).requests[1 := RefreshCall(0, Settled(false))] == Lost(refreshUrl).requests;
    assert Refreshing(refreshUrl).flights[0 := Resolved(false)] == Lost(refreshUrl).flights;
    assert Refreshing(refreshUrl).presented[0 := Presentation(0, Inconclusive)] == Lost(refreshUrl).presented;
  }

  lemma AskedIsCalled(refreshUrl: string)
    requires !IsRefreshable(refreshUrl)
    ensures Leads(Asked(refreshUrl), Rotate(false), Called(refreshUrl))
  {
    assert Asked(refreshUrl).flights[0 := Presenting(1, 0)] == Called(refreshUrl).flights;
    assert Asked(refreshUrl).requests + [RefreshCall(0, Queued)] == Called(refreshUrl).requests;
  }

  lemma CallIsSent(refreshUrl: string)
    ensures Leads(Called(refreshUrl), Send(1), Refreshing(refreshUrl))
  {
    assert [] + [Called(refreshUrl).access] == [Some(0)];
    assert Called(refreshUrl).requests[1 := RefreshCall(0, OnWire)] == Refreshing(refreshUrl).requests;
  }

  lemma RefreshIsRenewed(refreshUrl: string)
    ensures Leads(Refreshing(refreshUrl), Answered(1, Success), Renewed(refreshUrl))
  {
    assert Refreshing(refreshUrl).requests[1 := RefreshCall(0, Settled(true))] == Renewed(refreshUrl).requests;
    assert Refreshing(refreshUrl).flights[0 := Resolved(true)] == Renewed(refreshUrl).flights;
    assert Refreshing(refreshUrl).presented[0 := Presentation(0, Rotated)] == Renewed(refreshUrl).presented;
  }

  lemma SignedInIsReachable(refreshUrl: string)
    requires !IsRefreshable(refreshUrl)
    ensures Reachable(SignedIn(refreshUrl))
  {
    var start := Initial(refreshUrl);
    assert IsRun([start]) && [start][0] == start;
    ReachNext(start, Register(true));
    ReachNext(Next(start, Register(true)), Install);
  }

  lemma SendFrom(s: State, url: string)
    requires Reachable(s) && IsRefreshable(url) && s.bridged && s.access.Some?
    ensures Reachable(s.(requests := s.requests + [Sending(s.access.value)]))
  {
    var n := |s.requests|;
    var issued := Next(s, Issue(url));
    ReachNext(s, Issue(url));
    assert issued == s.(requests := s.requests + [NewRequest(url, None)]);
    ReachNext(issued, Send(n));
    assert [] + [s.access] == [Some(s.access.value)];
    assert issued.requests[n].(sent := [] + [s.access], phase := OnWire) == Sending(s.access.value);
    assert issued.requests[n := Sending(s.access.value)] == s.requests + [Sending(s.access.value)];
    assert Next(issued, Send(n)) == s.(requests := s.requests + [Sending(s.access.value)]);
  }

  lemma AskedIsReachable(refreshUrl: string, url: string)
    requires !IsRefreshable(refreshUrl) && IsRefreshable(url)
    ensures Reachable(Asked(refreshUrl))
  {
    var start := SignedIn(refreshUrl);
    SignedInIsReachable(refreshUrl);
    SendFrom(start, url);
    var sent := start.(requests := [] + [Sending(0)]);
    assert sent.requests[0] == Sending(0);
    ReachNext(sent, Answered(0, Status(UNAUTHORIZED)));
    assert Next(sent, Answered(0, Status(UNAUTHORIZED))) == Asked(refreshUrl);
  }

  lemma RefreshingIsReachable(refreshUrl: string, url: string)
    requires !IsRefreshable(refreshUrl) && IsRefreshable(url)
    ensures Reachable(Refreshing(refreshUrl))
  {
    AskedIsReachable(refreshUrl, url);
    AskedIsCalled(refreshUrl);
    ReachNext(Asked(refreshUrl), Rotate(false));
    CallIsSent(refreshUrl);
    ReachNext(Called(refreshUrl), Send(1));
  }

  /** The refresh gets no response, the session is kept, and the next 401 presents the very same
      refresh token. */
  lemma LostAnswerRepeatsTheToken(refreshUrl: string, url: string) returns (s: State)
    requires !IsRefreshable(refreshUrl) && IsRefreshable(url)
    ensures Reachable(s)
    ensures s.presented == [Presentation(0, Inconclusive), Presentation(0, Pending)]
  {
    var lost := Lost(refreshUrl);
    assert Reachable(lost) by {
      RefreshingIsReachable(refreshUrl, url);
      RefreshIsLost(refreshUrl);
      ReachNext(Refreshing(refreshUrl), Answered(1, NoResponse));
    }
    ReachNext(lost, Unlatch);
    var idle := lost.(latch := None);
    SendFrom(idle, url);
    s := idle.(requests := idle.requests + [Sending(0)]);
    s := AskAgain(s);
  }

  lemma AskAgain(before: State) returns (s: State)
    requires Reachable(before) && before.bridged && before.latch.None?
    requires before.refresh == Some(0) && |before.requests| == 3 && before.requests[2] == Sending(0)
    requires before.presented == [Presentation(0, Inconclusive)]
    ensures Reachable(s)
    ensures s.presented == [Presentation(0, Inconclusive), Presentation(0, Pending)]
  {
    ReachNext(before, Answered(2, Status(UNAUTHORIZED)));
    var asked := Next(before, Answered(2, Status(UNAUTHORIZED)));
    ReachNext(asked, Rotate(false));
    s := Next(asked, Rotate(false));
  }

  /** A request sent with the new token and refused before the latch is released joins the refresh
      that is already over, and its retry carries the token it failed with. */
  lemma LateJoinRetriesWithTheSameToken(refreshUrl: string, url: string) returns (s: State)
    requires !IsRefreshable(refreshUrl) && IsRefreshable(url)
    ensures Reachable(s)
    ensures |s.requests| == 3 && s.requests[2].late && s.requests[2].sent == [Some(1), Some(1)]
  {
    assert Reachable(Renewed(refreshUrl)) by {
      RefreshingIsReachable(refreshUrl, url);
      RefreshIsRenewed(refreshUrl);
      ReachNext(Refreshing(refreshUrl), Answered(1, Success));
    }
    SendFrom(Renewed(refreshUrl), url);
    s := Renewed(refreshUrl).(requests := Renewed(refreshUrl).requests + [Sending(1)]);
    s := JoinLate(s);
    s := RetryLate(s);
  }

  lemma JoinLate(before: State) returns (s: State)
    requires Reachable(before) && before.bridged && before.latch == Some(0)
    requires before.flights == [Resolved(true)] && before.access == Some(1)
    requires |before.requests| == 3 && before.requests[2] == Sending(1)
    ensures Reachable(s) && s == before.(latch := None, requests := before.requests[2 := Waiting(1, 0, true)])
  {
    ReachNext(before, Answered(2, Status(UNAUTHORIZED)));
    var joined := Next(before, Answered(2, Status(UNAUTHORIZED)));
    assert joined.requests[2] == Waiting(1, 0, true);
    ReachNext(joined, Unlatch);
    s := Next(joined, Unlatch);
  }

  lemma RetryLate(before: State) returns (s: State)
    requires Reachable(before) && before.bridged && before.latch == None
    requires before.flights == [Resolved(true)] && before.access == Some(1)
    requires |before.requests| == 3 && before.requests[2] == Waiting(1, 0, true)
    ensures Reachable(s)
    ensures |s.requests| == 3 && s.requests[2].late && s.requests[2].sent == [Some(1), Some(1)]
  {
    ReachNext(before, Resume(2));
    var queued := Next(before, Resume(2));
    ReachNext(queued, Send(2));
    s := Next(queued, Send(2));
  }

  // ------------------------------------------------------------------
  // Every request is answered
  // ------------------------------------------------------------------

  function RequestWork(r: Request): (n: nat) {
    match r.phase
    case Settled(_) => 0
    case OnWire => if r.attempted || r.rotation.Some? then 1 else 9
    case Queued => if r.attempted || r.rotation.Some? then 2 else 10
    case Awaiting(_) => 3
  }

  function RequestsWork(rs: seq<Request>): (n: nat) {
    if rs == [] then 0 else RequestsWork(rs[..|rs| - 1]) + RequestWork(rs[|rs| - 1])
  }

  function LatchWork(s: State): (n: nat) {
    if s.latch.None? || |s.flights| <= s.latch.value then 0
    else match s.flights[s.latch.value]
         case Locking => 5
         case Presenting(_, _) => 2
         case Resolved(_) => 1
  }

  /** How many protocol steps can still be owed. */
  function Work(s: State): (n: nat) {
    RequestsWork(s.requests) + LatchWork(s)
  }

  lemma {:induction false} WorkOfUpdate(rs: seq<Request>, i: nat, r: Request)
    requires i < |rs|
    ensures RequestsWork(rs[i := r]) + RequestWork(rs[i]) == RequestsWork(rs) + RequestWork(r)
    decreases |rs|
  {
    var last := |rs| - 1;
    if i == last {
      assert rs[i := r][..last] == rs[..last];
    } else {
      assert rs[i := r][..last] == rs[..last][i := r];
      WorkOfUpdate(rs[..last], i, r);
    }
  }

  lemma WorkOfAppend(rs: seq<Request>, r: Request)
    ensures RequestsWork(rs + [r]) == RequestsWork(rs) + RequestWork(r)
  {
    assert (rs + [r])[..|rs|] == rs;
  }

  /** One answer moves one request on and starts at most one flight. */
  lemma AnswerMoves(s: State, i: nat, answer: Answer)
    requires Enabled(s, Answered(i, answer)) && RequestOk(s, i)
    requires s.requests[i].rotation.Some? ==> FlightOk(s, s.requests[i].rotation.value)
    requires s.latch.Some? ==> s.latch.value < |s.flights|
    ensures var s' := Next(s, Answered(i, answer));
            && |s'.requests| == |s.requests| && s'.requests == s.requests[i := s'.requests[i]]
            && RequestWork(s'.requests[i]) + LatchWork(s') < RequestWork(s.requests[i]) + LatchWork(s)
  {
  }

  lemma AnswerDoesWork(s: State, i: nat, answer: Answer)
    requires Inv(s) && Enabled(s, Answered(i, answer))
    ensures Work(Next(s, Answered(i, answer))) < Work(s)
  {
    assert RequestOk(s, i);
    if s.requests[i].rotation.Some? {
      assert FlightOk(s, s.requests[i].rotation.value);
    }
    AnswerMoves(s, i, answer);
    WorkOfUpdate(s.requests, i, Next(s, Answered(i, answer)).requests[i]);
  }

  lemma RotateDoesWork(s: State, adopted: bool)
    requires Enabled(s, Rotate(adopted))
    ensures Work(Next(s, Rotate(adopted))) < Work(s)
  {
    WorkOfAppend(s.requests, NewRequest(s.refreshUrl, Some(s.latch.value)));
  }

  lemma SendDoesWork(s: State, i: nat)
    requires Enabled(s, Send(i))
    ensures Work(Next(s, Send(i))) < Work(s)
  {
    WorkOfUpdate(s.requests, i, Next(s, Send(i)).requests[i]);
  }

  lemma ResumeDoesWork(s: State, i: nat)
    requires Enabled(s, Resume(i)) && RequestOk(s, i)
    ensures Work(Next(s, Resume(i))) < Work(s)
  {
    WorkOfUpdate(s.requests, i, Next(s, Resume(i)).requests[i]);
  }

  lemma ProtocolStepDoesWork(s: State, step: Step)
    requires Inv(s) && Enabled(s, step) && IsProtocolStep(step)
    ensures Work(Next(s, step)) < Work(s)
  {
    match step
    case Send(i) => SendDoesWork(s, i);
    case Resume(i) => ResumeDoesWork(s, i);
    case Answered(i, answer) => AnswerDoesWork(s, i, answer);
    case Rotate(adopted) => RotateDoesWork(s, adopted);
    case Unlatch =>
  }

  /** While any request is unanswered, some step of the protocol can be taken: nothing waits on
      something that waits on it. */
  lemma UnansweredRequestCanProceed(s: State, i: nat) returns (step: Step)
    requires Inv(s) && i < |s.requests| && !s.requests[i].phase.Settled?
    ensures IsProtocolStep(step) && Enabled(s, step)
  {
    assert RequestOk(s, i);
    match s.requests[i].phase
    case Queued => step := Send(i);
    case OnWire => step := Answered(i, NoResponse);
    case Awaiting(f) =>
      assert FlightOk(s, f);
      match s.flights[f]
      case Locking => step := Rotate(false);
      case Presenting(j, _) =>
        assert RequestOk(s, j);
        step := if s.requests[j].phase.Queued? then Send(j) else Answered(j, NoResponse);
      case Resolved(_) => step := if s.latch == Some(f) then Unlatch else Resume(i);
  }

  ghost predicate IsProtocolRun(run: seq<State>) {
    run != [] && forall i, j :: 0 <= i && j == i + 1 && j < |run| ==> ProtocolMoves(run[i], run[j])
  }

  lemma {:induction false} WorkBoundsRuns(run: seq<State>, i: nat)
    requires IsProtocolRun(run) && Inv(run[0]) && i < |run|
    ensures Inv(run[i]) && i + Work(run[i]) <= Work(run[0])
  {
    if i > 0 {
      WorkBoundsRuns(run, i - 1);
      assert ProtocolMoves(run[i - 1], run[i]);
      var step :| IsProtocolStep(step) && Leads(run[i - 1], step, run[i]);
      StepKeepsInv(run[i - 1], step);
      ProtocolStepDoesWork(run[i - 1], step);
    }
  }

  /** From any reachable state the protocol takes no more steps than the work owed, in whatever
      order it takes them, and where it can take none every request has been answered. */
  lemma EveryRequestIsAnswered(run: seq<State>)
    requires IsProtocolRun(run) && Reachable(run[0])
    ensures var end := run[|run| - 1];
            && |run| - 1 <= Work(run[0])
            && ((forall step :: IsProtocolStep(step) ==> !Enabled(end, step))
                ==> forall i :: 0 <= i < |end.requests| ==> end.requests[i].phase.Settled?)
  {
    ReachableInv(run[0]);
    WorkBoundsRuns(run, |run| - 1);
    var end := run[|run| - 1];
    forall i | 0 <= i < |end.requests| && !end.requests[i].phase.Settled?
      ensures exists step :: IsProtocolStep(step) && Enabled(end, step)
    {
      var step := UnansweredRequestCanProceed(end, i);
    }
  }
}

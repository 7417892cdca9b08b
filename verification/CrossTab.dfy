/** One session shared by the browser's tabs: a pair of tokens in local storage, a copy in each
    tab's store, and the cross-tab lock under which a tab presents its refresh token. */
module CrossTab {
  import opened Wrappers
  import Client = ApiClient

  /** The two tokens of a pair move together, so one number stands for both. */
  type Pair = Client.Token

  // ------------------------------------------------------------------
  // One tab's store
  // ------------------------------------------------------------------

  datatype Copies = Copies(own: Option<Pair>, stored: Option<Pair>)

  /** What a rotation does once it holds the lock. */
  datatype Opening = Adopt(pair: Pair) | Present(pair: Pair) | GiveUp

  function Open(c: Copies): (opening: Opening) {
    if c.stored.Some? && c.stored != c.own then Adopt(c.stored.value)
    else if c.own.Some? then Present(c.own.value)
    else GiveUp
  }

  function Concluded(c: Copies, outcome: Client.Outcome, renewed: Pair): (after: Copies) {
    match outcome
    case Rotated => Copies(Some(renewed), Some(renewed))
    case Refused => Copies(None, None)
    case _ => c
  }

  class LocalStorage {
    var pair: Option<Pair>

    constructor ()
      ensures pair == None
    {
      pair := None;
    }
  }

  class AuthStore {
    const storage: LocalStorage
    var pair: Option<Pair>

    function View(): (after: Copies)
      reads this, storage
    {
      Copies(pair, storage.pair)
    }

    /** A store starts from what an earlier page left in storage. */
    constructor (storage: LocalStorage)
      ensures this.storage == storage && View() == Copies(storage.pair, storage.pair)
    {
      this.storage := storage;
      pair := storage.pair;
    }

    method ApplySession(renewed: Pair)
      modifies this, storage
      ensures View() == Copies(Some(renewed), Some(renewed))
    {
      pair := Some(renewed);
      storage.pair := Some(renewed);
    }

    method ClearSession()
      modifies this, storage
      ensures View() == Copies(None, None)
    {
      pair := None;
      storage.pair := None;
    }

    method AdoptPersistedSession() returns (adopted: bool)
      modifies this
      ensures adopted == Open(old(View())).Adopt?
      ensures pair == if adopted then storage.pair else old(pair)
    {
      if storage.pair.None? || storage.pair == pair {
        return false;
      }
      pair := storage.pair;
      return true;
    }

    /** The rotation up to its call to the server. */
    method BeginRotation() returns (opening: Opening)
      modifies this, storage
      ensures opening == Open(old(View()))
      ensures View() == match opening
                          case Adopt(taken) => Copies(Some(taken), old(storage.pair))
                          case Present(_) => old(View())
                          case GiveUp => Copies(None, None)
    {
      var adopted := AdoptPersistedSession();
      if adopted {
        return Adopt(pair.value);
      }
      if pair.None? {
        ClearSession();
        return GiveUp;
      }
      return Present(pair.value);
    }

    /** The rotation from the server's answer on. */
    method EndRotation(answer: Client.Answer, renewed: Pair) returns (usable: bool)
      modifies this, storage
      ensures usable == (answer == Client.Success)
      ensures View() == Concluded(old(View()), Client.Judged(answer), renewed)
    {
      if answer == Client.Success {
        ApplySession(renewed);
        return true;
      }
      if answer == Client.Status(Client.UNAUTHORIZED) || answer == Client.Status(Client.FORBIDDEN) {
        ClearSession();
      }
      return false;
    }

    /** The browser tells this tab that another one wrote to storage. */
    method OnExternalSessionChange()
      modifies this
      ensures pair == storage.pair
    {
      if storage.pair.Some? {
        var _ := AdoptPersistedSession();
        return;
      }
      pair := None;
    }
  }

  // ------------------------------------------------------------------
  // All tabs
  // ------------------------------------------------------------------

  /** A tab's rotation: none, waiting for the lock, or on the wire as the given presentation. */
  datatype Phase = Idle | Waiting | Presenting(entry: nat)

  datatype Tab = Tab(own: Option<Pair>, phase: Phase)

  /** What the server does with a presentation when it reaches it. */
  datatype Ruling = Unruled | RotatedPair | RefusedPair

  /** One refresh call: `ruling` is what the server did, `heard` what the tab made of the answer, and
      `ended` records that storage held no session when the pair was presented. */
  datatype Presentation = Presentation(tab: nat, pair: Pair, ruling: Ruling, heard: Client.Outcome, ended: bool)

  /** `locks` says whether the browser has the lock at all; `next` numbers pairs as tabs get them. */
  datatype State = State(
    locks: bool, stored: Option<Pair>, next: Pair, tabs: seq<Tab>, presented: seq<Presentation>)

  function Initial(locks: bool): (after: State) {
    State(locks, None, 0, [], [])
  }

  datatype Step =
    | OpenTab | SignIn(t: nat) | EndSession(t: nat) | Hear(t: nat)
    | Ask(t: nat) | Acquire(t: nat) | Rule(p: nat, rotated: bool) | Answered(t: nat, answer: Client.Answer)

  predicate MayAcquire(s: State, t: nat)
    requires t < |s.tabs|
  {
    && s.tabs[t].phase == Waiting
    && (s.locks ==> forall u :: 0 <= u < |s.tabs| ==> !s.tabs[u].phase.Presenting?)
  }

  /** The server rules on a call once, whether or not its tab still waits, and its update rotates a
      pair at most once. It may refuse any pair for reasons of its own. */
  predicate MayRule(s: State, p: nat, rotated: bool) {
    && p < |s.presented| && s.presented[p].ruling.Unruled?
    && (rotated ==> forall q :: 0 <= q < |s.presented| && s.presented[q].pair == s.presented[p].pair
                                ==> !s.presented[q].ruling.RotatedPair?)
  }

  /** A tab hears a verdict only if the server gave it, and may hear none whatever the server did. */
  predicate MayHear(s: State, t: nat, answer: Client.Answer)
    requires t < |s.tabs|
  {
    && s.tabs[t].phase.Presenting? && s.tabs[t].phase.entry < |s.presented|
    && var ruling := s.presented[s.tabs[t].phase.entry].ruling;
       match Client.Judged(answer)
       case Rotated => ruling.RotatedPair?
       case Refused => ruling.RefusedPair?
       case _ => true
  }

  predicate Enabled(s: State, step: Step) {
    match step
    case OpenTab => true
    case Rule(p, rotated) => MayRule(s, p, rotated)
    case SignIn(t) => t < |s.tabs|
    case EndSession(t) => t < |s.tabs|
    case Hear(t) => t < |s.tabs|
    case Ask(t) => t < |s.tabs| && s.tabs[t].phase == Idle
    case Acquire(t) => t < |s.tabs| && MayAcquire(s, t)
    case Answered(t, answer) => t < |s.tabs| && MayHear(s, t, answer)
  }

  /** A tab's two copies, and its phase, after a step of its own. */
  function Moved(s: State, t: nat, c: Copies, phase: Phase): (after: State)
    requires t < |s.tabs|
  {
    s.(stored := c.stored, tabs := s.tabs[t := Tab(c.own, phase)])
  }

  function Acquired(s: State, t: nat): (after: State)
    requires t < |s.tabs|
  {
    match Open(Copies(s.tabs[t].own, s.stored))
    case Adopt(pair) => Moved(s, t, Copies(Some(pair), s.stored), Idle)
    case GiveUp => Moved(s, t, Copies(None, None), Idle)
    case Present(pair) =>
      Moved(s, t, Copies(s.tabs[t].own, s.stored), Presenting(|s.presented|))
      .(presented := s.presented + [Presentation(t, pair, Unruled, Client.Pending, s.stored.None?)])
  }

  function Next(s: State, step: Step): (after: State)
    requires Enabled(s, step)
  {
    match step
    case OpenTab => s.(tabs := s.tabs + [Tab(s.stored, Idle)])
    case SignIn(t) => Moved(s, t, Copies(Some(s.next), Some(s.next)), s.tabs[t].phase).(next := s.next + 1)
    case EndSession(t) => Moved(s, t, Copies(None, None), s.tabs[t].phase)
    case Hear(t) => Moved(s, t, Copies(s.stored, s.stored), s.tabs[t].phase)
    case Ask(t) => Moved(s, t, Copies(s.tabs[t].own, s.stored), Waiting)
    case Acquire(t) => Acquired(s, t)
    case Rule(p, rotated) =>
      s.(presented := s.presented[p := s.presented[p].(ruling := if rotated then RotatedPair else RefusedPair)])
    case Answered(t, answer) =>
      var entry, heard := s.tabs[t].phase.entry, Client.Judged(answer);
      Moved(s, t, Concluded(Copies(s.tabs[t].own, s.stored), heard, s.next), Idle)
      .(next := s.next + 1, presented := s.presented[entry := s.presented[entry].(heard := heard)])
  }

  predicate Leads(s: State, step: Step, s': State) {
    Enabled(s, step) && Next(s, step) == s'
  }

  ghost predicate Moves(s: State, s': State) {
    exists step :: Leads(s, step, s')
  }

  /** The states a browser passes through, from one with no tab and nothing stored. */
  ghost predicate IsRun(run: seq<State>) {
    && run != [] && run[0] == Initial(run[0].locks)
    && forall i, j :: 0 <= i && j == i + 1 && j < |run| ==> Moves(run[i], run[j])
  }

  ghost predicate Reachable(s: State) {
    exists run :: IsRun(run) && run[|run| - 1] == s
  }

  // ------------------------------------------------------------------
  // The invariant
  // ------------------------------------------------------------------

  /** A tab has received a verdict, whichever it was. */
  predicate IsVerdict(heard: Client.Outcome) {
    heard.Rotated? || heard.Refused?
  }

  predicate PresentationOk(s: State, p: nat)
    requires p < |s.presented|
  {
    var it := s.presented[p];
    && it.pair < s.next
    && (it.heard.Pending? ==> it.tab < |s.tabs| && s.tabs[it.tab].phase == Presenting(p))
    && (Some(it.pair) == s.stored ==> !IsVerdict(it.heard))
    && (it.heard.Rotated? ==> it.ruling.RotatedPair?)
    && (it.heard.Refused? ==> it.ruling.RefusedPair?)
  }

  predicate TabOk(s: State, t: nat)
    requires t < |s.tabs|
  {
    && (s.tabs[t].own.Some? ==> s.tabs[t].own.value < s.next)
    && (s.tabs[t].phase.Presenting? ==>
          var e := s.tabs[t].phase.entry;
          && e < |s.presented| && s.presented[e].tab == t && s.presented[e].heard.Pending?)
  }

  /** The server rotates a pair once. Under the lock, a pair goes out again only after an answer
      without a verdict, or after a verdict once the session is over. */
  predicate RepeatOk(s: State, p: nat, q: nat)
    requires p < q < |s.presented|
  {
    s.presented[p].pair == s.presented[q].pair ==>
      && !(s.presented[p].ruling.RotatedPair? && s.presented[q].ruling.RotatedPair?)
      && (s.locks ==> s.presented[p].heard.Inconclusive? || (s.presented[q].ended && IsVerdict(s.presented[p].heard)))
  }

  /** While a tab presents a pair, storage holds that pair, nothing, or a pair never presented. */
  ghost predicate StoredOk(s: State, p: nat)
    requires p < |s.presented|
  {
    Some(s.presented[p].pair) == s.stored ==>
      forall t :: 0 <= t < |s.tabs| && s.tabs[t].phase.Presenting? && s.tabs[t].phase.entry < |s.presented|
                  ==> s.presented[s.tabs[t].phase.entry].pair == s.presented[p].pair
  }

  ghost predicate Exclusive(s: State) {
    && (forall p :: 0 <= p < |s.presented| ==> StoredOk(s, p))
    && (forall t, u :: 0 <= t < |s.tabs| && 0 <= u < |s.tabs| && s.tabs[t].phase.Presenting? && s.tabs[u].phase.Presenting?
                       ==> t == u)
  }

  ghost predicate Inv(s: State) {
    && (s.stored.Some? ==> s.stored.value < s.next)
    && (forall t :: 0 <= t < |s.tabs| ==> TabOk(s, t))
    && (forall p :: 0 <= p < |s.presented| ==> PresentationOk(s, p))
    && (forall p, q :: 0 <= p < q < |s.presented| ==> RepeatOk(s, p, q))
    && (s.locks ==> Exclusive(s))
  }

  predicate OfTab(step: Step) {
    !step.OpenTab? && !step.Rule?
  }

  lemma StepKeepsTabs(s: State, step: Step)
    requires Inv(s) && Enabled(s, step)
    ensures var s' := Next(s, step);
            && (s'.stored.Some? ==> s'.stored.value < s'.next)
            && (forall t :: 0 <= t < |s'.tabs| ==> TabOk(s', t))
  {
    var s' := Next(s, step);
    if OfTab(step) {
      assert TabOk(s, step.t);
    }
    forall t | 0 <= t < |s'.tabs| ensures TabOk(s', t) {
      if t < |s.tabs| {
        assert TabOk(s, t);
        StepKeepsTab(s, step, t);
      }
    }
  }

  lemma StepKeepsTab(s: State, step: Step, t: nat)
    requires Enabled(s, step) && t < |s.tabs| && TabOk(s, t) && (OfTab(step) ==> TabOk(s, step.t))
    requires s.stored.Some? ==> s.stored.value < s.next
    ensures TabOk(Next(s, step), t)
  {
  }

  lemma StepKeepsPresentations(s: State, step: Step)
    requires Inv(s) && Enabled(s, step)
    ensures var s' := Next(s, step); forall p :: 0 <= p < |s'.presented| ==> PresentationOk(s', p)
  {
    var s' := Next(s, step);
    if OfTab(step) {
      assert TabOk(s, step.t);
    }
    forall p | 0 <= p < |s'.presented| ensures PresentationOk(s', p) {
      if p < |s.presented| {
        assert PresentationOk(s, p);
      }
    }
  }

  lemma StepKeepsRepeats(s: State, step: Step)
    requires Inv(s) && Enabled(s, step)
    ensures var s' := Next(s, step); forall p, q :: 0 <= p < q < |s'.presented| ==> RepeatOk(s', p, q)
  {
    var s' := Next(s, step);
    if OfTab(step) {
      assert TabOk(s, step.t);
    }
    forall p, q | 0 <= p < q < |s'.presented| ensures RepeatOk(s', p, q) {
      assert PresentationOk(s, p);
      if q < |s.presented| {
        assert RepeatOk(s, p, q);
      }
    }
  }

  lemma StepKeepsExclusive(s: State, step: Step)
    requires Inv(s) && Enabled(s, step) && s.locks
    ensures Exclusive(Next(s, step))
  {
    var s' := Next(s, step);
    if OfTab(step) {
      assert TabOk(s, step.t);
    }
    forall p | 0 <= p < |s'.presented| ensures StoredOk(s', p) {
      if p < |s.presented| {
        assert PresentationOk(s, p) && StoredOk(s, p);
      }
    }
  }

  lemma {:induction false} RunKeepsInv(run: seq<State>, i: nat)
    requires IsRun(run) && i < |run|
    ensures Inv(run[i])
  {
    if i > 0 {
      RunKeepsInv(run, i - 1);
      assert Moves(run[i - 1], run[i]);
      var step :| Leads(run[i - 1], step, run[i]);
      StepKeepsTabs(run[i - 1], step);
      StepKeepsPresentations(run[i - 1], step);
      StepKeepsRepeats(run[i - 1], step);
      if run[i].locks {
        StepKeepsExclusive(run[i - 1], step);
      }
    }
  }

  lemma ReachableInv(s: State)
    requires Reachable(s)
    ensures Inv(s)
  {
    var run :| IsRun(run) && run[|run| - 1] == s;
    RunKeepsInv(run, |run| - 1);
  }

  // ------------------------------------------------------------------
  // When a pair goes out again
  // ------------------------------------------------------------------

  /** Some tab, but not `except`, has presented the pair. */
  ghost predicate Presented(s: State, pair: Pair, except: Option<nat>) {
    exists p :: 0 <= p < |s.presented| && Fits(s, p, pair, except)
  }

  predicate Fits(s: State, p: nat, pair: Pair, except: Option<nat>)
    requires p < |s.presented|
  {
    s.presented[p].pair == pair && Some(s.presented[p].tab) != except
  }

  ghost predicate Unanswered(s: State, pair: Pair, except: Option<nat>) {
    exists p :: 0 <= p < |s.presented| && Fits(s, p, pair, except) && s.presented[p].heard.Pending?
  }

  ghost predicate GotNoVerdict(s: State, pair: Pair, except: Option<nat>) {
    exists p :: 0 <= p < |s.presented| && Fits(s, p, pair, except) && s.presented[p].heard.Inconclusive?
  }

  ghost predicate GotAVerdict(s: State, pair: Pair, except: Option<nat>) {
    exists p :: 0 <= p < |s.presented| && Fits(s, p, pair, except) && IsVerdict(s.presented[p].heard)
  }

  lemma EarlierPresentation(s: State, t: nat, p: nat)
    requires p < |s.presented| && PresentationOk(s, p) && Enabled(s, Acquire(t))
    requires Open(Copies(s.tabs[t].own, s.stored)) == Present(s.presented[p].pair)
    ensures || s.presented[p].heard.Inconclusive?
            || (s.stored.None? && IsVerdict(s.presented[p].heard))
            || (!s.locks && s.presented[p].heard.Pending?)
  {
  }

  /** "Exactly one tab presents a given refresh token" holds of a rotation that is about to present
      its pair but for two cases with the lock, and a third without it. The pair has been out
      before, from any tab or, with `except`, from another one, exactly when such a presentation
      got an answer that was no verdict; or got a verdict and the session has ended, which this tab
      has not heard; or, without the lock, is still unanswered. */
  lemma PairGoesOutAgainExactlyWhen(s: State, t: nat, except: Option<nat>)
    requires Reachable(s) && Enabled(s, Acquire(t)) && Open(Copies(s.tabs[t].own, s.stored)).Present?
    ensures var pair := Open(Copies(s.tabs[t].own, s.stored)).pair;
            Presented(s, pair, except)
            <==> || GotNoVerdict(s, pair, except)
                 || (s.stored.None? && GotAVerdict(s, pair, except))
                 || (!s.locks && Unanswered(s, pair, except))
  {
    var pair := Open(Copies(s.tabs[t].own, s.stored)).pair;
    forall p | 0 <= p < |s.presented| && Fits(s, p, pair, except)
      ensures || s.presented[p].heard.Inconclusive?
              || (s.stored.None? && IsVerdict(s.presented[p].heard))
              || (!s.locks && s.presented[p].heard.Pending?)
    {
      assert PresentationOk(s, p) by {
        ReachableInv(s);
      }
      EarlierPresentation(s, t, p);
    }
  }

  /** The same over whole runs under the lock: a presentation is of a pair that was out before
      exactly when an earlier one got no verdict, or got one and the session was over by then. */
  lemma TabsPresentAPairAgainExactlyWhen(s: State, q: nat)
    requires Reachable(s) && s.locks && q < |s.presented|
    ensures (exists p :: 0 <= p < q && s.presented[p].pair == s.presented[q].pair)
            <==> || (exists p :: 0 <= p < q && s.presented[p].pair == s.presented[q].pair && s.presented[p].heard.Inconclusive?)
                 || (s.presented[q].ended &&
                     exists p :: 0 <= p < q && s.presented[p].pair == s.presented[q].pair && IsVerdict(s.presented[p].heard))
  {
    forall p | 0 <= p < q && s.presented[p].pair == s.presented[q].pair
      ensures s.presented[p].heard.Inconclusive? || (s.presented[q].ended && IsVerdict(s.presented[p].heard))
    {
      TabsPresentAPairOnce(s, p, q);
    }
  }

  /** With the lock, one pair is never out twice at once, and over a whole run no pair a tab has
      received a verdict on goes out again while a session is stored, from whichever tab. */
  lemma TabsPresentAPairOnce(s: State, p: nat, q: nat)
    requires Reachable(s) && s.locks && p < q < |s.presented|
    requires s.presented[p].pair == s.presented[q].pair
    ensures s.presented[p].heard.Inconclusive? || (s.presented[q].ended && IsVerdict(s.presented[p].heard))
  {
    assert RepeatOk(s, p, q) by {
      ReachableInv(s);
    }
  }

  // ------------------------------------------------------------------
  // When the server meets a pair it has rotated
  // ------------------------------------------------------------------

  ghost predicate ServerRotated(s: State, pair: Pair) {
    exists p :: 0 <= p < |s.presented| && IsRotationOf(s, p, pair)
  }

  predicate IsRotationOf(s: State, p: nat, pair: Pair)
    requires p < |s.presented|
  {
    s.presented[p].pair == pair && s.presented[p].ruling.RotatedPair?
  }

  /** The server has rotated the pair, and what the presenting tab heard is `heard`. */
  ghost predicate RotationHeardAs(s: State, pair: Pair, heard: Client.Outcome) {
    exists p :: 0 <= p < |s.presented| && IsRotationOf(s, p, pair) && s.presented[p].heard == heard
  }

  /** Whether or not there is a lock, no tab has received a verdict on the pair in storage. The
      server may all the same have rotated it: exactly when it did so and the answer is still
      awaited or was lost. */
  lemma StoredPairIsRotatedExactlyWhen(s: State)
    requires Reachable(s) && s.stored.Some?
    ensures !GotAVerdict(s, s.stored.value, None)
    ensures ServerRotated(s, s.stored.value)
            <==> || RotationHeardAs(s, s.stored.value, Client.Pending)
                 || RotationHeardAs(s, s.stored.value, Client.Inconclusive)
  {
    forall p | 0 <= p < |s.presented| && Some(s.presented[p].pair) == s.stored
      ensures s.presented[p].heard.Pending? || s.presented[p].heard.Inconclusive?
    {
      assert PresentationOk(s, p) by {
        ReachableInv(s);
      }
    }
  }

  lemma EarlierRotation(s: State, t: nat, p: nat)
    requires p < |s.presented| && PresentationOk(s, p) && Enabled(s, Acquire(t))
    requires Open(Copies(s.tabs[t].own, s.stored)) == Present(s.presented[p].pair)
    requires s.presented[p].ruling.RotatedPair?
    ensures || s.presented[p].heard.Inconclusive?
            || (s.stored.None? && s.presented[p].heard.Rotated?)
            || (!s.locks && s.presented[p].heard.Pending?)
  {
  }

  /** A rotation that is about to present its pair replays one the server has rotated, which revokes
      every session of the user, exactly when the answer to that rotation was lost; or was received
      and the session has ended since, which this tab has not heard; or, without the lock, is still
      awaited. */
  lemma RotatedPairIsReplayedExactlyWhen(s: State, t: nat)
    requires Reachable(s) && Enabled(s, Acquire(t)) && Open(Copies(s.tabs[t].own, s.stored)).Present?
    ensures var pair := Open(Copies(s.tabs[t].own, s.stored)).pair;
            ServerRotated(s, pair)
            <==> || RotationHeardAs(s, pair, Client.Inconclusive)
                 || (s.stored.None? && RotationHeardAs(s, pair, Client.Rotated))
                 || (!s.locks && RotationHeardAs(s, pair, Client.Pending))
  {
    var pair := Open(Copies(s.tabs[t].own, s.stored)).pair;
    forall p | 0 <= p < |s.presented| && IsRotationOf(s, p, pair)
      ensures || s.presented[p].heard.Inconclusive?
              || (s.stored.None? && s.presented[p].heard.Rotated?)
              || (!s.locks && s.presented[p].heard.Pending?)
    {
      assert PresentationOk(s, p) by {
        ReachableInv(s);
      }
      EarlierRotation(s, t, p);
    }
  }

  /** And the server never answers a replay with a new pair: of two presentations of one pair it
      rotates at most one, so no tab hears success twice either. */
  lemma ReplayIsNotRotated(s: State, p: nat, q: nat)
    requires Reachable(s) && p < |s.presented| && q < |s.presented| && p != q
    requires s.presented[p].pair == s.presented[q].pair && s.presented[p].ruling.RotatedPair?
    ensures !s.presented[q].ruling.RotatedPair? && !s.presented[q].heard.Rotated?
  {
    assert RepeatOk(s, if p < q then p else q, if p < q then q else p) && PresentationOk(s, q) by {
      ReachableInv(s);
    }
  }

  // ------------------------------------------------------------------
  // What a rotation takes on and what a refusal clears
  // ------------------------------------------------------------------

  /** While a session is stored, a tab that gets to go ends up with the stored pair. */
  lemma AcquireTakesTheStoredPair(s: State, t: nat)
    requires Reachable(s) && Enabled(s, Acquire(t)) && s.stored.Some?
    ensures var s' := Next(s, Acquire(t));
            s'.tabs[t].own == s.stored && s'.stored == s.stored && !GotAVerdict(s, s.stored.value, None)
  {
    StoredPairIsRotatedExactlyWhen(s);
  }

  /** A pair nobody has presented, such as one from a sign-in. */
  predicate Unpresented(s: State, pair: Pair) {
    forall p :: 0 <= p < |s.presented| ==> s.presented[p].pair != pair
  }

  lemma StoredWhilePresenting(s: State, t: nat)
    requires Exclusive(s) && Enabled(s, Answered(t, Client.NoResponse)) && s.stored.Some?
    ensures s.stored.value != s.presented[s.tabs[t].phase.entry].pair <==> Unpresented(s, s.stored.value)
  {
    forall p | 0 <= p < |s.presented| && s.presented[p].pair == s.stored.value
      ensures s.presented[s.tabs[t].phase.entry].pair == s.stored.value
    {
      assert StoredOk(s, p);
    }
  }

  /** A refused refresh clears storage whatever is in it. It forgets a pair other than the one it
      was refused exactly when that pair has never been presented: someone has signed in since. */
  lemma RefusalForgetsAnotherPairExactlyWhen(s: State, t: nat, answer: Client.Answer)
    requires Reachable(s) && s.locks && Enabled(s, Answered(t, answer)) && Client.Judged(answer) == Client.Refused
    ensures Next(s, Answered(t, answer)).stored == None
    ensures s.stored.Some? ==>
              (s.stored.value != s.presented[s.tabs[t].phase.entry].pair <==> Unpresented(s, s.stored.value))
  {
    if s.stored.Some? {
      assert Exclusive(s) by {
        ReachableInv(s);
      }
      StoredWhilePresenting(s, t);
    }
  }

  // ------------------------------------------------------------------
  // The exceptions do occur
  // ------------------------------------------------------------------

  lemma ReachNext(s: State, step: Step)
    requires Reachable(s) && Enabled(s, step)
    ensures Reachable(Next(s, step))
  {
    var run :| IsRun(run) && run[|run| - 1] == s;
    var s' := Next(s, step);
    assert Leads(s, step, s');
    assert IsRun(run + [s']) && (run + [s'])[|run|] == s';
  }

  lemma ReachTwo(s: State, one: Step, mid: State, two: Step, s': State)
    requires Reachable(s) && Leads(s, one, mid) && Leads(mid, two, s')
    ensures Reachable(mid) && Reachable(s')
  {
    ReachNext(s, one);
    ReachNext(mid, two);
  }

  /** One tab, signed in. */
  function SignedIn(locks: bool): (after: State) {
    State(locks, Some(0), 1, [Tab(Some(0), Idle)], [])
  }

  /** Two tabs that both hold pair 0 and both ask for a refresh. */
  function TwoWaiting(locks: bool): (after: State) {
    State(locks, Some(0), 1, [Tab(Some(0), Waiting), Tab(Some(0), Waiting)], [])
  }

  /** The first of them has presented the pair. */
  function OnePresents(locks: bool): (after: State) {
    State(locks, Some(0), 1, [Tab(Some(0), Presenting(0)), Tab(Some(0), Waiting)],
          [Presentation(0, 0, Unruled, Client.Pending, false)])
  }

  /** The server has rotated it ... */
  function OneRuled(locks: bool): (after: State) {
    OnePresents(locks).(presented := [Presentation(0, 0, RotatedPair, Client.Pending, false)])
  }

  /** ... and its tab has heard so ... */
  function OneRotated(locks: bool): (after: State) {
    State(locks, Some(1), 2, [Tab(Some(1), Idle), Tab(Some(0), Waiting)],
          [Presentation(0, 0, RotatedPair, Client.Rotated, false)])
  }

  /** ... or never got the answer, and the other tab has presented the pair again. */
  function OneLost(locks: bool): (after: State) {
    State(locks, Some(0), 2, [Tab(Some(0), Idle), Tab(Some(0), Waiting)],
          [Presentation(0, 0, RotatedPair, Client.Inconclusive, false)])
  }

  function OneReplayed(locks: bool): (after: State) {
    State(locks, Some(0), 2, [Tab(Some(0), Idle), Tab(Some(0), Presenting(1))],
          OneLost(locks).presented + [Presentation(1, 0, Unruled, Client.Pending, false)])
  }

  lemma SignedInIsReachable(locks: bool)
    ensures Reachable(SignedIn(locks))
  {
    var empty := Initial(locks);
    assert IsRun([empty]) && [empty][0] == empty;
    var one := State(locks, None, 0, [Tab(None, Idle)], []);
    ReachTwo(empty, OpenTab, one, SignIn(0), SignedIn(locks));
  }

  lemma TwoWaitingIsReachable(locks: bool)
    ensures Reachable(TwoWaiting(locks))
  {
    var two := State(locks, Some(0), 1, [Tab(Some(0), Idle), Tab(Some(0), Idle)], []);
    var asked := State(locks, Some(0), 1, [Tab(Some(0), Waiting), Tab(Some(0), Idle)], []);
    assert Reachable(asked) by {
      SignedInIsReachable(locks);
      ReachTwo(SignedIn(locks), OpenTab, two, Ask(0), asked);
    }
    assert Next(asked, Ask(1)).tabs == TwoWaiting(locks).tabs;
    ReachNext(asked, Ask(1));
  }

  lemma OneRuledIsReachable(locks: bool)
    ensures Reachable(OnePresents(locks)) && Reachable(OneRuled(locks))
  {
    TwoWaitingIsReachable(locks);
    assert Leads(TwoWaiting(locks), Acquire(0), OnePresents(locks));
    assert Leads(OnePresents(locks), Rule(0, true), OneRuled(locks));
    ReachTwo(TwoWaiting(locks), Acquire(0), OnePresents(locks), Rule(0, true), OneRuled(locks));
  }

  /** Without the lock two tabs present the same pair at once, with the session in storage. */
  lemma WithoutTheLockTwoTabsCollide(locks: bool) returns (s: State)
    requires !locks
    ensures Reachable(s) && s.locks == locks
    ensures s.presented == [Presentation(0, 0, Unruled, Client.Pending, false), Presentation(1, 0, Unruled, Client.Pending, false)]
  {
    OneRuledIsReachable(locks);
    ReachNext(OnePresents(locks), Acquire(1));
    s := Next(OnePresents(locks), Acquire(1));
  }

  /** The answer was lost before the server ruled, and the other tab has presented the pair. */
  function OneAgain(locks: bool): (after: State) {
    State(locks, Some(0), 2, [Tab(Some(0), Idle), Tab(Some(0), Presenting(1))],
          [Presentation(0, 0, Unruled, Client.Inconclusive, false), Presentation(1, 0, Unruled, Client.Pending, false)])
  }

  lemma OneAgainIsReachable(locks: bool)
    ensures Reachable(OneAgain(locks))
  {
    var first := [Presentation(0, 0, Unruled, Client.Inconclusive, false)];
    var lost := State(locks, Some(0), 2, [Tab(Some(0), Idle), Tab(Some(0), Waiting)], first);
    assert OneAgain(locks).presented == first + [Presentation(1, 0, Unruled, Client.Pending, false)];
    OneRuledIsReachable(locks);
    ReachTwo(OnePresents(locks), Answered(0, Client.NoResponse), lost, Acquire(1), OneAgain(locks));
  }

  /** With or without the lock, and with a session stored since sign-in: the answer to one tab's
      refresh is lost, and another tab presents the same pair again and gets a new one for it. */
  lemma LostAnswerLetsTwoTabsPresent(locks: bool) returns (s: State)
    ensures Reachable(s) && s.locks == locks && s.stored.Some?
    ensures s.presented == [Presentation(0, 0, Unruled, Client.Inconclusive, false),
                            Presentation(1, 0, RotatedPair, Client.Rotated, false)]
  {
    var first := Presentation(0, 0, Unruled, Client.Inconclusive, false);
    var again := OneAgain(locks);
    var ruled := again.(presented := [first, Presentation(1, 0, RotatedPair, Client.Pending, false)]);
    s := State(locks, Some(2), 3, [Tab(Some(0), Idle), Tab(Some(2), Idle)],
               [first, Presentation(1, 0, RotatedPair, Client.Rotated, false)]);
    assert Leads(again, Rule(1, true), ruled);
    assert Leads(ruled, Answered(1, Client.Success), s);
    OneAgainIsReachable(locks);
    ReachTwo(again, Rule(1, true), ruled, Answered(1, Client.Success), s);
  }

  lemma OneReplayedIsReachable(locks: bool)
    ensures Reachable(OneReplayed(locks))
  {
    OneRuledIsReachable(locks);
    ReachTwo(OneRuled(locks), Answered(0, Client.NoResponse), OneLost(locks), Acquire(1), OneReplayed(locks));
  }

  /** With or without the lock: the server rotates the pair, the answer is lost, the kept pair is
      presented again, and the refusal that a replay gets ends the session nobody ended. */
  lemma LostRotationEndsTheSession(locks: bool) returns (s: State)
    ensures Reachable(s) && s.locks == locks && s.stored == None
    ensures s.presented == [Presentation(0, 0, RotatedPair, Client.Inconclusive, false),
                            Presentation(1, 0, RefusedPair, Client.Refused, false)]
  {
    var first := OneLost(locks).presented;
    var refused := OneReplayed(locks).(presented := first + [Presentation(1, 0, RefusedPair, Client.Pending, false)]);
    s := State(locks, None, 3, [Tab(Some(0), Idle), Tab(None, Idle)],
               first + [Presentation(1, 0, RefusedPair, Client.Refused, false)]);
    OneReplayedIsReachable(locks);
    ReachTwo(OneReplayed(locks), Rule(1, false), refused, Answered(1, Client.Status(Client.UNAUTHORIZED)), s);
  }

  lemma OneRotatedIsReachable(locks: bool)
    ensures Reachable(OneRotated(locks))
  {
    OneRuledIsReachable(locks);
    var rotated := Next(OneRuled(locks), Answered(0, Client.Success));
    assert rotated.tabs == OneRotated(locks).tabs;
    assert rotated.presented == OneRotated(locks).presented;
    ReachNext(OneRuled(locks), Answered(0, Client.Success));
  }

  /** With or without the lock: one tab rotates the pair and signs out, and the other, waiting all
      the while, presents the pair the server has rotated. */
  lemma UnheardSignOutReplaysARotatedPair(locks: bool) returns (s: State)
    ensures Reachable(s) && s.locks == locks
    ensures s.presented == [Presentation(0, 0, RotatedPair, Client.Rotated, false),
                            Presentation(1, 0, Unruled, Client.Pending, true)]
  {
    OneRotatedIsReachable(locks);
    var rotated := OneRotated(locks);
    var ended := State(locks, None, 2, [Tab(None, Idle), Tab(Some(0), Waiting)], rotated.presented);
    s := State(locks, None, 2, [Tab(None, Idle), Tab(Some(0), Presenting(1))],
               rotated.presented + [Presentation(1, 0, Unruled, Client.Pending, true)]);
    ReachTwo(rotated, EndSession(0), ended, Acquire(1), s);
  }

  /** With or without the lock: a tab has signed in while another's refresh is out, the server has
      refused that refresh, and hearing so will clear a pair that has never been presented. */
  lemma SignInDuringARefresh(locks: bool) returns (s: State)
    ensures Reachable(s) && s.locks == locks
    ensures Enabled(s, Answered(0, Client.Status(Client.UNAUTHORIZED)))
    ensures s.stored == Some(1) && Unpresented(s, 1)
  {
    OneRuledIsReachable(locks);
    var signedIn := State(locks, Some(1), 2, [Tab(Some(0), Presenting(0)), Tab(Some(1), Waiting)], OnePresents(locks).presented);
    s := signedIn.(presented := [Presentation(0, 0, RefusedPair, Client.Pending, false)]);
    ReachTwo(OnePresents(locks), SignIn(1), signedIn, Rule(0, false), s);
  }
}

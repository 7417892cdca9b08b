/** The URL half of a list: it reads the query string, writes changes back to it, and one watch
    loads from what the URL then says. */
module ListRoute {
  import opened Wrappers
  import opened Text
  import opened QueryBackedList

  // ------------------------------------------------------------------
  // The query string
  // ------------------------------------------------------------------

  /** What a key can hold in a route's query: nothing, one value, or several. */
  datatype QueryValue = Null | One(value: string) | Many(values: seq<Option<string>>)

  type LocationQuery = map<string, QueryValue>

  /** A query's keys and values in the order the script walks them, each key once. */
  ghost predicate Lists<V>(entries: seq<(string, V)>, m: map<string, V>) {
    && (forall i, j :: 0 <= i < j < |entries| ==> entries[i].0 != entries[j].0)
    && (forall i :: 0 <= i < |entries| ==> entries[i].0 in m && m[entries[i].0] == entries[i].1)
    && (forall k :: k in m ==> exists i :: 0 <= i < |entries| && entries[i].0 == k)
  }

  function First(value: QueryValue): (r: Option<string>) {
    match value
    case Null => None
    case One(s) => Some(s)
    case Many(values) => if values == [] then None else values[0]
  }

  predicate Kept(value: QueryValue) {
    First(value).Some? && First(value).value != ""
  }

  function Flat(query: LocationQuery): (flat: ListQuery) {
    map k | k in query && Kept(query[k]) :: First(query[k]).value
  }

  method QueryFromRoute(entries: seq<(string, QueryValue)>, ghost query: LocationQuery) returns (flat: ListQuery)
    requires Lists(entries, query)
    ensures flat == Flat(query)
  {
    flat := map[];
    for i := 0 to |entries|
      invariant forall k :: k in flat ==> exists j :: 0 <= j < i && entries[j].0 == k && Kept(entries[j].1)
      invariant forall j :: 0 <= j < i && Kept(entries[j].1) ==>
                  entries[j].0 in flat && flat[entries[j].0] == First(entries[j].1).value
    {
      var (key, value) := entries[i];
      var first := First(value);
      if first.Some? && first.value != "" {
        flat := flat[key := first.value];
      }
    }
    forall k | k in Flat(query) ensures k in flat && flat[k] == Flat(query)[k] {
      var i :| 0 <= i < |entries| && entries[i].0 == k;
    }
  }

  /** The list's own part of the query: every excluded key left out. */
  function Own(query: LocationQuery, exclude: set<string>): (flat: ListQuery) {
    Flat(query) - exclude
  }

  predicate Survives(merged: ListQuery, resetPage: bool, key: string) {
    key in merged && merged[key] != "" && !(resetPage && key == PAGE)
  }

  /** The query `navigate` writes. */
  function NextQuery(own: ListQuery, changes: ListQuery, resetPage: bool): (query: ListQuery) {
    var merged := own + changes;
    map k | k in merged && Survives(merged, resetPage, k) :: merged[k]
  }

  method WriteQuery(own: ListQuery, changes: ListQuery, resetPage: bool, entries: seq<(string, string)>)
      returns (next: ListQuery)
    requires Lists(entries, if resetPage then (own + changes) - {PAGE} else own + changes)
    ensures next == NextQuery(own, changes, resetPage)
  {
    next := own + changes;
    if resetPage {
      next := next - {PAGE};
    }
    ghost var all := next;
    for i := 0 to |entries|
      invariant forall k :: k in next ==> k in all && next[k] == all[k]
      invariant forall k :: k in all && all[k] != "" ==> k in next
      invariant forall j :: 0 <= j < i && entries[j].1 == "" ==> entries[j].0 !in next
    {
      var (key, value) := entries[i];
      if value == "" {
        next := next - {key};
      }
    }
    forall k | k in next ensures next[k] != "" {
      var i :| 0 <= i < |entries| && entries[i].0 == k;
    }
  }

  function Written(query: ListQuery): (location: LocationQuery) {
    map k | k in query :: One(query[k])
  }

  /** What a navigation leaves in the URL: no blank value, no page key when it resets the page, and
      every other key the changes' value or, failing one, the list's own. */
  lemma NavigateWrites(query: LocationQuery, exclude: set<string>, changes: ListQuery, resetPage: bool, key: string)
    ensures var next := NextQuery(Own(query, exclude), changes, resetPage);
            && (key in next ==> next[key] != "")
            && (resetPage ==> PAGE !in next)
            && (key in changes && !(resetPage && key == PAGE) ==>
                  if changes[key] == "" then key !in next else key in next && next[key] == changes[key])
            && (key !in changes && !(resetPage && key == PAGE) ==>
                  && (key in next <==> key in Own(query, exclude))
                  && (key in next ==> next[key] == Own(query, exclude)[key]))
  {
  }

  /** An excluded key gets into the URL only if the changes put it there. */
  ghost predicate WritesExcluded(exclude: set<string>, changes: ListQuery, resetPage: bool) {
    exists k :: k in exclude && Survives(changes, resetPage, k)
  }

  /** Reading back the URL a navigation wrote returns the query it wrote: for the list, exactly when
      the changes set no excluded key, and then no excluded key is left in the URL at all. */
  lemma NavigateReadsBack(query: LocationQuery, exclude: set<string>, changes: ListQuery, resetPage: bool)
    ensures var next := NextQuery(Own(query, exclude), changes, resetPage);
            && Flat(Written(next)) == next
            && (Own(Written(next), exclude) == next <==> !WritesExcluded(exclude, changes, resetPage))
            && (!WritesExcluded(exclude, changes, resetPage) ==> forall k :: k in exclude ==> k !in next)
  {
    var own := Own(query, exclude);
    var next := NextQuery(own, changes, resetPage);
    assert Flat(Written(next)) == next;
    forall k | k in exclude ensures k in next <==> Survives(changes, resetPage, k) {
      assert k !in own;
    }
    if !WritesExcluded(exclude, changes, resetPage) {
      assert next - exclude == next;
    } else {
      var k :| k in exclude && Survives(changes, resetPage, k);
      assert k in next && k !in next - exclude;
    }
  }

  /** Any excluded key set to something is such a change: the list loads without it. */
  lemma ExcludedKeyIsNotReadBack(query: LocationQuery, exclude: set<string>, key: string, value: string)
    requires key in exclude && key != PAGE && value != ""
    ensures var next := NextQuery(Own(query, exclude), map[key := value], true);
            key in next && key !in Own(Written(next), exclude)
  {
  }

  // ------------------------------------------------------------------
  // Turning pages
  // ------------------------------------------------------------------

  function ClampedPage(next: int, totalPages: nat): (page: nat)
    requires totalPages >= 1
    ensures 1 <= page <= totalPages
    ensures 1 <= next <= totalPages ==> page == next
  {
    var low := if next < 1 then 1 else next;
    if low < totalPages then low else totalPages
  }

  /** Turning to a page, wherever asked for, keeps the list's own query and writes a page between
      the first and the last, which the list then reads back as that very page. */
  lemma GoToPageStaysInRange(own: ListQuery, next: int, total: nat, pageSize: nat)
    ensures var page := ClampedPage(next, TotalPages(total, pageSize));
            var written := NextQuery(own, map[PAGE := Decimal(page)], false);
            && 1 <= page <= TotalPages(total, pageSize)
            && PageFromQuery(Lookup(written, PAGE)) == page
            && (forall k :: k != PAGE && k in written ==> k in own && written[k] == own[k])
            && (forall k :: k != PAGE && k in own && own[k] != "" ==> k in written)
  {
    PageReadsBack(ClampedPage(next, TotalPages(total, pageSize)));
  }

  // ------------------------------------------------------------------
  // The URL, the watch and the list
  // ------------------------------------------------------------------

  datatype Target = Target(name: string, params: map<string, string>)

  datatype Url = Url(name: string, query: LocationQuery)

  /** `pending` is a navigation pushed and not yet finished, `watched` what the watch last saw. */
  datatype State<T> = State(
    url: Url, target: Target, exclude: set<string>, pending: Option<Url>,
    watched: (Target, ListQuery), list: Run<T>)

  function ListQueryOf<T>(s: State<T>): (query: ListQuery) {
    Own(s.url.query, s.exclude)
  }

  /** What the watch compares. */
  function Key<T>(s: State<T>): (key: (Target, ListQuery)) {
    (s.target, ListQueryOf(s))
  }

  predicate Settled<T>(s: State<T>) {
    s.watched == Key(s)
  }

  predicate OnOwnRoute<T>(s: State<T>) {
    s.url.name == s.target.name
  }

  function Pushed<T>(s: State<T>, changes: ListQuery, resetPage: bool): (after: State<T>) {
    s.(pending := Some(Url(s.target.name, Written(NextQuery(ListQueryOf(s), changes, resetPage)))))
  }

  function Paged<T>(s: State<T>, next: int): (after: State<T>) {
    var page := ClampedPage(next, TotalPages(s.list.view.total, s.list.view.pageSize));
    Pushed(s, map[PAGE := Decimal(page)], false)
  }

  function Applied<T>(s: State<T>): (after: State<T>) {
    s.(list := Happen(s.list, Event.Begin(ListQueryOf(s))))
  }

  /** The watch's callback: it notes what it saw, and loads only on the list's own route. */
  function Flushed<T>(s: State<T>): (after: State<T>) {
    var seen := s.(watched := Key(s));
    if OnOwnRoute(s) then Applied(seen) else seen
  }

  /** The page the delete was made on has no other row, and is not the first. */
  predicate StepsBack<T>(s: State<T>, afterDelete: bool) {
    afterDelete && |s.list.view.items| == 1 && s.list.view.page > 1
  }

  /** A finished navigation can move the URL and the target at once, since a routed list reads its
      target from the route: Arrive finishes one the list pushed, Visit is anyone else's, and a
      target can also move by itself. */
  datatype Step<T> =
    | Navigate(changes: ListQuery, resetPage: bool)
    | GoToPage(next: int)
    | Refresh(afterDelete: bool)
    | Arrive(target: Target)
    | Visit(target: Target, url: Url)
    | Retarget(target: Target)
    | Flush
    | Answer(ticket: nat, outcome: Outcome<T>)

  /** Vue runs the watch in the microtask after a change, before the router can finish another
      navigation, so URL and target move only from a state the watch has seen. A change in the
      order of keys alone also runs the watch, so Flush is always possible. */
  predicate Enabled<T>(s: State<T>, step: Step<T>) {
    match step
    case Arrive(_) => s.pending.Some? && Settled(s)
    case Visit(_, _) => Settled(s)
    case Retarget(_) => Settled(s)
    case Answer(ticket, outcome) => MayHappen(s.list, Event.Finish(ticket, outcome))
    case _ => true
  }

  function Next<T>(s: State<T>, step: Step<T>): (after: State<T>)
    requires Enabled(s, step)
  {
    match step
    case Navigate(changes, resetPage) => Pushed(s, changes, resetPage)
    case GoToPage(next) => Paged(s, next)
    case Refresh(afterDelete) => if StepsBack(s, afterDelete) then Paged(s, s.list.view.page - 1) else Applied(s)
    case Arrive(target) => s.(url := s.pending.value, target := target, pending := None)
    case Visit(target, url) => s.(url := url, target := target, pending := None)
    case Retarget(target) => s.(target := target)
    case Flush => Flushed(s)
    case Answer(ticket, outcome) => s.(list := Happen(s.list, Event.Finish(ticket, outcome)))
  }

  /** Setting the list up runs the watch once, at once. */
  function Opened<T>(url: Url, target: Target, exclude: set<string>): (after: State<T>) {
    Flushed(State(url, target, exclude, None, (target, map[]), NewRun()))
  }

  function After<T>(s: State<T>, steps: seq<Step<T>>): (after: State<T>)
    decreases |steps|
  {
    if steps == [] then s
    else
      var before, step := After(s, steps[..|steps| - 1]), steps[|steps| - 1];
      if Enabled(before, step) then Next(before, step) else before
  }

  predicate IsRun<T>(s: State<T>, steps: seq<Step<T>>)
    decreases |steps|
  {
    steps == [] ||
    (IsRun(s, steps[..|steps| - 1]) && Enabled(After(s, steps[..|steps| - 1]), steps[|steps| - 1]))
  }

  predicate InSync<T>(s: State<T>) {
    s.list.queries != [] && s.list.queries[|s.list.queries| - 1] == ListQueryOf(s)
  }

  /** The query a step loads, if it loads one. */
  function Loading<T>(s: State<T>, step: Step<T>): (query: Option<ListQuery>) {
    match step
    case Flush => if OnOwnRoute(s) then Some(ListQueryOf(s)) else None
    case Refresh(afterDelete) => if StepsBack(s, afterDelete) then None else Some(ListQueryOf(s))
    case _ => None
  }

  /** The last query loaded in a run, as its steps and the URLs they met tell it. */
  function LoadedAlong<T>(s: State<T>, steps: seq<Step<T>>): (query: Option<ListQuery>)
    decreases |steps|
  {
    if steps == [] then if OnOwnRoute(s) then Some(ListQueryOf(s)) else None
    else
      var loading := Loading(After(s, steps[..|steps| - 1]), steps[|steps| - 1]);
      if loading.Some? then loading else LoadedAlong(s, steps[..|steps| - 1])
  }

  /** The query the URL held at the last run of the watch, on whichever route. */
  function WatchedAlong<T>(s: State<T>, steps: seq<Step<T>>): (query: ListQuery)
    decreases |steps|
  {
    if steps == [] then ListQueryOf(s)
    else if steps[|steps| - 1].Flush? then ListQueryOf(After(s, steps[..|steps| - 1]))
    else WatchedAlong(s, steps[..|steps| - 1])
  }

  function LastQuery<T>(run: Run<T>): (query: Option<ListQuery>) {
    if run.queries == [] then None else Some(run.queries[|run.queries| - 1])
  }

  predicate StepOk<T>(s: State<T>, loaded: Option<ListQuery>, watched: ListQuery) {
    LastQuery(s.list) == loaded && s.watched.1 == watched
  }

  ghost predicate StateOk<T>(s: State<T>, loaded: Option<ListQuery>, watched: ListQuery) {
    RunOk(s.list) && StepOk(s, loaded, watched)
  }

  lemma NextKeepsStepOk<T>(s: State<T>, step: Step<T>, loaded: Option<ListQuery>, watched: ListQuery)
    requires StepOk(s, loaded, watched) && Enabled(s, step)
    ensures StepOk(Next(s, step), if Loading(s, step).Some? then Loading(s, step) else loaded,
                   if step.Flush? then ListQueryOf(s) else watched)
  {
  }

  lemma NextKeepsRunOk<T>(s: State<T>, step: Step<T>)
    requires RunOk(s.list) && Enabled(s, step)
    ensures RunOk(Next(s, step).list)
  {
    match step
    case Answer(ticket, outcome) => HappenKeepsOk(s.list, Event.Finish(ticket, outcome));
    case Flush => HappenKeepsOk(s.list, Event.Begin(ListQueryOf(s)));
    case Refresh(_) => HappenKeepsOk(s.list, Event.Begin(ListQueryOf(s)));
    case _ =>
  }

  predicate StartsOk<T>(s: State<T>) {
    StepOk(s, if OnOwnRoute(s) then Some(ListQueryOf(s)) else None, ListQueryOf(s))
  }

  lemma {:induction false} RunKeepsOk<T>(s: State<T>, steps: seq<Step<T>>)
    requires RunOk(s.list) && StartsOk(s) && IsRun(s, steps)
    ensures StateOk(After(s, steps), LoadedAlong(s, steps), WatchedAlong(s, steps))
    decreases |steps|
  {
    if steps == [] {
    } else {
      var init, step := steps[..|steps| - 1], steps[|steps| - 1];
      RunKeepsOk(s, init);
      NextKeepsStepOk(After(s, init), step, LoadedAlong(s, init), WatchedAlong(s, init));
      NextKeepsRunOk(After(s, init), step);
    }
  }

  lemma OpenedIsOk<T>(url: Url, target: Target, exclude: set<string>)
    ensures var s := Opened<T>(url, target, exclude); RunOk(s.list) && StartsOk(s)
  {
    var setup: State<T> := State(url, target, exclude, None, (target, map[]), NewRun());
    HappenKeepsOk(setup.list, Event.Begin(ListQueryOf(setup)));
  }

  /** Over every run, watch runs on other routes included: once the watch has seen the URL, the list
      is in step with it exactly when the last query loaded is the one the watch last saw. */
  lemma InStepExactlyWhenLoadedAsWatched<T>(url: Url, target: Target, exclude: set<string>, steps: seq<Step<T>>)
    requires IsRun(Opened<T>(url, target, exclude), steps)
    ensures var start := Opened<T>(url, target, exclude); var s := After(start, steps);
            Settled(s) ==> (InSync(s) <==> LoadedAlong(start, steps) == Some(WatchedAlong(start, steps)))
  {
    OpenedIsOk<T>(url, target, exclude);
    RunKeepsOk(Opened<T>(url, target, exclude), steps);
  }

  /** A run during which the watch never runs on somebody else's route. */
  predicate IsOwnRun<T>(s: State<T>, steps: seq<Step<T>>)
    decreases |steps|
  {
    steps == [] ||
    (var before, step := After(s, steps[..|steps| - 1]), steps[|steps| - 1];
     IsOwnRun(s, steps[..|steps| - 1]) && Enabled(before, step) && (step.Flush? ==> OnOwnRoute(before)))
  }

  /** Then the last query loaded is the one the watch last saw, but for a refresh ahead of it. */
  lemma {:induction false} OwnRunLoadsWhatIsWatched<T>(s: State<T>, steps: seq<Step<T>>)
    requires OnOwnRoute(s) && Settled(s) && IsOwnRun(s, steps)
    ensures IsRun(s, steps)
    ensures Settled(After(s, steps)) ==> LoadedAlong(s, steps) == Some(WatchedAlong(s, steps))
    ensures After(s, steps).watched.1 == WatchedAlong(s, steps)
    decreases |steps|
  {
    if steps == [] {
    } else {
      OwnRunLoadsWhatIsWatched(s, steps[..|steps| - 1]);
    }
  }

  /** The last query applied is the URL's, and once that load has answered the list shows what the
      URL's query alone would show. */
  predicate ShowsItsUrl<T(==)>(s: State<T>) {
    var n := |s.list.queries|;
    && InSync(s) && |s.list.outcomes| == n
    && (s.list.outcomes[n - 1].Some? ==>
          s.list.view == Alone(ListQueryOf(s), s.list.outcomes[n - 1].value).(latest := n))
  }

  lemma OwnRunShowsItsUrl<T>(start: State<T>, steps: seq<Step<T>>)
    requires RunOk(start.list) && StartsOk(start) && OnOwnRoute(start) && Settled(start)
    requires IsOwnRun(start, steps) && Settled(After(start, steps))
    ensures ShowsItsUrl(After(start, steps))
  {
    OwnRunLoadsWhatIsWatched(start, steps);
    RunKeepsOk(start, steps);
  }

  /** While the route is the list's own: after any run of controls, page turns, refreshes, back
      buttons, pasted links and changes of view, once the watch has run the list shows its URL. */
  lemma UrlIsTheState<T>(url: Url, target: Target, exclude: set<string>, steps: seq<Step<T>>)
    requires url.name == target.name
    requires IsOwnRun(Opened<T>(url, target, exclude), steps)
    ensures var s := After(Opened<T>(url, target, exclude), steps);
            Settled(s) ==> ShowsItsUrl(s)
  {
    var start := Opened<T>(url, target, exclude);
    OpenedIsOk<T>(url, target, exclude);
    if Settled(After(start, steps)) {
      OwnRunShowsItsUrl(start, steps);
    }
  }

  /** The list is refreshed only while its route is open. */
  predicate RefreshesAtHome<T>(s: State<T>, steps: seq<Step<T>>)
    decreases |steps|
  {
    steps == [] ||
    (RefreshesAtHome(s, steps[..|steps| - 1]) &&
     (steps[|steps| - 1].Refresh? ==> OnOwnRoute(After(s, steps[..|steps| - 1]))))
  }

  /** The query of a page being left is never the list's: every load, over any run, is of the query
      the URL held at a moment when the route was the list's own. */
  lemma {:induction false} EveryLoadIsOfItsOwnRoute<T>(s: State<T>, steps: seq<Step<T>>, n: nat) returns (k: nat)
    requires IsRun(s, steps) && RefreshesAtHome(s, steps)
    requires |s.list.queries| <= n < |After(s, steps).list.queries|
    ensures k < |steps| && OnOwnRoute(After(s, steps[..k]))
    ensures After(s, steps).list.queries[n] == ListQueryOf(After(s, steps[..k]))
    decreases |steps|
  {
    var last := |steps| - 1;
    var before := After(s, steps[..last]);
    if n < |before.list.queries| {
      k := EveryLoadIsOfItsOwnRoute(s, steps[..last], n);
      assert steps[..last][..k] == steps[..k];
    } else {
      k := last;
    }
  }

  /** A list that stays mounted while another route is open can come back out of step: the watch
      sees the other route's query there, loads nothing, and does not run again if the URL comes
      back with that query. */
  lemma UnseenReturnIsOutOfStep<T>(home: Url, target: Target, exclude: set<string>, away: string, query: LocationQuery)
      returns (steps: seq<Step<T>>)
    requires home.name == target.name && away != target.name
    requires Own(query, exclude) != Own(home.query, exclude)
    ensures var start := Opened<T>(home, target, exclude); var s := After(start, steps);
            IsRun(start, steps) && Settled(s) && OnOwnRoute(s) && s.url.query == query && !InSync(s)
  {
    var start := Opened<T>(home, target, exclude);
    var visit, back := Step<T>.Visit(target, Url(away, query)), Step<T>.Visit(target, Url(target.name, query));
    steps := [visit, Flush, back];
    assert steps[..2] == [visit, Flush] && steps[..2][..1] == [visit] && [visit][..0] == [];
    var left := Next(start, visit);
    assert After(start, [visit]) == left && IsRun(start, [visit]);
    assert After(start, steps[..2]) == Flushed(left) && IsRun(start, steps[..2]);
  }

  /** The watch as it runs after a change: only if what it compares is different. */
  function Watched<T>(s: State<T>): (after: State<T>) {
    if Settled(s) then s else Flushed(s)
  }

  lemma PagedReadsBack<T>(s: State<T>, next: int)
    requires PAGE !in s.exclude
    ensures var page := ClampedPage(next, TotalPages(s.list.view.total, s.list.view.pageSize));
            && Paged(s, next).pending.Some?
            && PageFromQuery(Lookup(Own(Paged(s, next).pending.value.query, s.exclude), PAGE)) == page
  {
    var page := ClampedPage(next, TotalPages(s.list.view.total, s.list.view.pageSize));
    var changes := map[PAGE := Decimal(page)];
    PageReadsBack(page);
    NavigateReadsBack(s.url.query, s.exclude, changes, false);
    assert !WritesExcluded(s.exclude, changes, false);
    assert Lookup(NextQuery(ListQueryOf(s), changes, false), PAGE) == Some(Decimal(page));
  }

  /** A navigation the list pushed, once finished and seen: the latest load is of the query it
      wrote, and is a new one unless the URL already held that query. */
  lemma ArrivalIsLoaded<T>(s: State<T>)
    requires InSync(s) && Settled(s)
    requires s.pending.Some? && s.pending.value.name == s.target.name
    ensures var there := Watched(Next(s, Step<T>.Arrive(s.target)));
            && InSync(there) && ListQueryOf(there) == Own(s.pending.value.query, s.exclude)
            && |there.list.queries| == |s.list.queries| + (if ListQueryOf(there) == ListQueryOf(s) then 0 else 1)
  {
    var arrived := Next(s, Step<T>.Arrive(s.target));
    assert OnOwnRoute(arrived);
    assert Settled(arrived) <==> ListQueryOf(arrived) == ListQueryOf(s);
  }

  /** So a page turned to is the one the latest load asks for. */
  lemma PagedIsLoaded<T>(s: State<T>, next: int)
    requires InSync(s) && Settled(s) && PAGE !in s.exclude
    ensures Enabled(Paged(s, next), Step<T>.Arrive(s.target))
    ensures var there := Watched(Next(Paged(s, next), Step<T>.Arrive(s.target)));
            && InSync(there)
            && |there.list.queries| == |s.list.queries| + (if ListQueryOf(there) == ListQueryOf(s) then 0 else 1)
            && PageFromQuery(Lookup(there.list.queries[|there.list.queries| - 1], PAGE))
               == ClampedPage(next, TotalPages(s.list.view.total, s.list.view.pageSize))
  {
    var pushed := Paged(s, next);
    assert pushed.list == s.list && InSync(pushed) && Settled(pushed);
    PagedReadsBack(s, next);
    ArrivalIsLoaded(pushed);
  }

  /** The page before, or the last if that is earlier. */
  function PageBefore<T>(v: View<T>): (page: nat)
    requires v.page > 1
    ensures 1 <= page < v.page
  {
    var pages := TotalPages(v.total, v.pageSize);
    if v.page - 1 <= pages then v.page - 1 else pages
  }

  lemma ClampedIsPageBefore<T>(v: View<T>)
    requires v.page > 1
    ensures ClampedPage(v.page - 1, TotalPages(v.total, v.pageSize)) == PageBefore(v)
  {
  }

  /** A refresh after a delete steps back from a page the delete has emptied: once its navigation
      has finished and the watch has run, the list's latest load asks for the page before. That load
      is a new one unless the URL already named that page, and the emptied page itself is not
      loaded again. */
  lemma RefreshStepsBackFromAnEmptiedPage<T>(s: State<T>)
    requires InSync(s) && Settled(s) && OnOwnRoute(s) && PAGE !in s.exclude
    requires StepsBack(s, true)
    ensures var pushed := Next(s, Step<T>.Refresh(true));
            && pushed.list == s.list && Enabled(pushed, Step<T>.Arrive(s.target))
            && var there := Watched(Next(pushed, Step<T>.Arrive(s.target)));
               && InSync(there)
               && |there.list.queries| == |s.list.queries| + (if ListQueryOf(there) == ListQueryOf(s) then 0 else 1)
               && PageFromQuery(Lookup(there.list.queries[|there.list.queries| - 1], PAGE)) == PageBefore(s.list.view)
  {
    var v := s.list.view;
    assert Next(s, Step<T>.Refresh(true)) == Paged(s, v.page - 1);
    ClampedIsPageBefore(v);
    PagedIsLoaded(s, v.page - 1);
  }
}

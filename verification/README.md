# Kelir: what its hard parts guarantee

This project models, in Dafny, the parts of Kelir whose promises range over every run, every text
or every number, and proves those promises. `dafny verify dfyconfig.toml` checks all of it.

| modules | what they model | source |
|---|---|---|
| `RateLimiter`, `RateLimiterRuns` | the authentication rate limiter and every run of calls on it | `kelir-backend/src/middleware/rate_limit.rs` |
| `Search` | literal search compiled to a LIKE pattern, against PostgreSQL's matcher | `kelir-backend/src/utils/search.rs` |
| `ApiClient` | refresh once and retry, as interleaved steps of requests and refreshes | `kelir-frontend/src/api/client.ts`, `kelir-frontend/src/api/session.ts`, `kelir-frontend/src/stores/auth.ts` |
| `CrossTab` | one session shared by several tabs under the cross-tab lock, and the server that rotates its pairs | `kelir-frontend/src/stores/auth.ts`, `kelir-backend/src/modules/auth/service.rs` |
| `QueryBackedList`, `ListRoute` | overlapping list loads, and the URL that is the list's state | `kelir-frontend/src/composables/` |
| `JsonNul` | refusing a NUL in a JSON body: the byte scan, the reader, the walk | `kelir-backend/src/extract.rs` |
| `ClientAddress`, `Cidr`, `Bits`, `Addresses` | the forwarding chain, and address masks | `kelir-backend/src/middleware/client_address.rs`, `kelir-backend/src/utils/cidr.rs` |
| `Storable`, `Pagination` | PostgreSQL's dates and instants, pages that tile a result | `kelir-backend/src/utils/storable.rs`, `kelir-backend/src/response.rs` |
| `Text`, `Wrappers` | trimming, splitting, decimal numbers, `Option` and `Result` | shared |

Code that changes state in place is a class whose methods are proved to compute a function of the
old state (`RateLimiter.RateLimiter`, `QueryBackedList.List`, `ApiClient.RequestConfig`,
`CrossTab.AuthStore`); loops are methods proved against a recursive function. Concurrent code is a
transition system over the stretches between two awaits, and its results are about every reachable
state.

## Where the code and its own words differ

The model follows the code. Each difference is a theorem that says exactly when it shows.

- `rate_limit.rs:115-116` returns the seconds left so that a client can wait. They are rounded
  down, so waiting just that long is enough exactly when no fraction of a second was cut off
  (`WaitingAsToldIsEnoughExactlyWhen`, and a caller for whom it is not in
  `WaitingAsToldCanBeTooShort`); one second more always is (`WaitingOneSecondMoreIsEnough`).
- `rate_limit.rs:175-179` prunes stale entries as mere cleanup. Dropping one is unobservable
  exactly when it records no block (`SweepIsUnobservableExactlyWhenBlockless`): with an expired
  block left on the entry the next check clears the count and anchors a window, so failures a
  minute later count from nothing, where a swept entry goes on counting in the window its next
  failure starts. While no entry it takes records one, the limiter's own sweep never shows (`OwnSweepIsUnobservable`), and
  a full allowance always lies between two blocks (`FullAllowanceAfterABlock`).
- `rate_limit.rs:102-107` grants "up to twice the limit across a boundary". For a key whose
  requests run one at a time, the failures counted in an interval as long as the window outnumber
  those worked off in it by at most twice the limit less one (`WindowHoldsUnderTwiceTheLimit`,
  `EveryKeyIsHeldUnderTwiceTheLimit`), and that is reached. Of failures alone that holds for a key
  that never succeeds; with successes in between any number fit (`SuccessesMakeRoom`).
- `client.ts:95-96` and `session.ts:13-19` describe a refresh that signs out when it fails.
  `auth.ts:294-307` keeps the session unless the failure was a 401 or a 403, so the promise that
  no refresh token value is presented twice is not met: a rotation repeats a token exactly when an
  earlier presentation of it got no verdict (`RotationRepeatsATokenExactlyWhen`). A token on which
  the tab has received a verdict, a new pair or a refusal, it never presents again.
- `auth.ts:99-101` says exactly one tab presents a given refresh token. The pair a tab is about to
  present has been out before, from any tab or from another one, exactly when an earlier answer was
  no verdict, or was one and the session has ended, which this tab has not heard; without the lock
  also while an earlier answer is awaited (`PairGoesOutAgainExactlyWhen`, and runs of each:
  `LostAnswerLetsTwoTabsPresent`, `UnheardSignOutReplaysARotatedPair`,
  `WithoutTheLockTwoTabsCollide`).
- `auth.ts:80-94` keeps a session when the answer is lost, so that a two-second drop does not end
  it. What the server did and what the tab heard are then two things: if the server had rotated the
  pair, keeping it means replaying it, which the server answers by ending every session of the user
  (`kelir-backend/src/modules/auth/service.rs:288-299`). A replay of a rotated pair happens exactly
  when the answer to its rotation was lost, or was heard by a tab and the session ended since, or
  without the lock is still awaited (`RotatedPairIsReplayedExactlyWhen`); the replay is never
  rotated (`ReplayIsNotRotated`), and its refusal ends the session nobody ended
  (`LostRotationEndsTheSession`).
- `auth.ts:302-304`: a refused refresh can clear a session another tab has just begun
  (`RefusalForgetsAnotherPairExactlyWhen`).
- `useQueryBackedList.ts:98-100` writes "no failure" as an empty message, so a failure without a
  message reads as an empty list (`EmptyExactlyWhen`, `SilentFailureLooksEmpty`).
- `cidr.rs:45-59`: an IPv6 network can parse and contain no address at all, exactly when every
  address in it carries an IPv4 one (`EmptyExactlyWhenAllCarryV4`); `::ffff:0:0/96` is one
  (`MappedNetworkIsEmpty`).

Two more conditions are exact too, but nothing in the repository breaks them today:

- `useListRoute.ts:102-116`: the URL `navigate` writes reads back as the query it wrote exactly
  when the changes set no excluded key (`NavigateReadsBack`, `ExcludedKeyIsNotReadBack`). No page
  passes `navigate` an excluded key.
- `useListRoute.ts:131-149`: once the watch has seen the URL, a list is in step with it exactly
  when the last query loaded is the one the watch last saw (`InStepExactlyWhenLoadedAsWatched`).
  A query seen on another route is not loaded and can leave it out of step
  (`UnseenReturnIsOutOfStep`), but only a host that keeps the list mounted while that route is open
  would show it. This application's router views keep nothing mounted, so
  leaving the route is the end of the list, and `UrlIsTheState` covers its life up to there.

## Model

| member | source | states |
|---|---|---|
| RateLimiter.RateLimiter.CheckAt | kelir-backend/src/middleware/rate_limit.rs:149-170 | answers from the key's entry alone, counts nothing, and clears a block that is over |
| RateLimiter.RateLimiter.RecordFailureAt | kelir-backend/src/middleware/rate_limit.rs:172-204 | the whole map after a failure: the sweep above ten thousand entries, the window reset, the count, the block |
| RateLimiter.RateLimiter.RecordSuccessAt | kelir-backend/src/middleware/rate_limit.rs:206-218 | the whole map after a success: one failure worked off, and nothing while blocked |
| RateLimiter.RateLimiter.RecordOutcome | kelir-backend/src/middleware/rate_limit.rs:84-91 | only a 4xx counts, only a 2xx decays, and every other status changes nothing |
| RateLimiter.OneKeyView | kelir-backend/src/middleware/rate_limit.rs:149-218 | a call on any key can only sweep another key's entry, and steps only its own |
| RateLimiterRuns.LimiterInvariant | kelir-backend/src/middleware/rate_limit.rs:149-204 | over every run on every key: the count never passes the limit, without a block it is below it, and a recorded block lies a whole block past the window start or is behind it; for a clock read before the lock is taken, up to fourteen minutes out of order |
| RateLimiterRuns.JitterBoundIsExact | kelir-backend/src/middleware/rate_limit.rs:130-145 | with one nanosecond more disorder there is a run whose count passes the limit |
| RateLimiterRuns.BlockedEntryIsUntouched | kelir-backend/src/middleware/rate_limit.rs:187-192 | until a block ends no call on any key, sweeps included, changes its entry |
| RateLimiterRuns.BlockHoldsForItsWholeDuration | kelir-backend/src/middleware/rate_limit.rs:156-204 | from the failure that starts a block, every check for the whole duration answers Block with 1 to 900 seconds |
| RateLimiterRuns.BlockLapses | kelir-backend/src/middleware/rate_limit.rs:156-167 | once over, a block that no later failure renews stays over |
| RateLimiterRuns.WaitingOneSecondMoreIsEnough | kelir-backend/src/middleware/rate_limit.rs:156-161 | a refused caller is let through one second after the seconds it was told, unless it failed again after the block |
| RateLimiterRuns.WaitingAsToldIsEnoughExactlyWhen | kelir-backend/src/middleware/rate_limit.rs:115-119 | waiting just the seconds told is enough if and only if the remainder was whole seconds or under one |
| RateLimiterRuns.WaitingAsToldCanBeTooShort | kelir-backend/src/middleware/rate_limit.rs:156-161 | a caller told one second, with one and a half to go, is refused again when it has waited it |
| RateLimiterRuns.FullAllowanceAfterABlock | kelir-backend/src/middleware/rate_limit.rs:149-204 | after a block a key is refused again only after the whole limit of further failures, whether a check or a failure comes first and whatever was swept |
| RateLimiterRuns.LimitFailuresBlock | kelir-backend/src/middleware/rate_limit.rs:194-203 | from any unblocked entry, failures the first one's window holds, at any times, end in a block in force or are all counted and below the limit, so the limit of them always blocks |
| RateLimiterRuns.DroppingSimulatesKeeping | kelir-backend/src/middleware/rate_limit.rs:175-179 | a limiter that drops stale entries without a block, at any calls, holds the same entries but for stale lost ones |
| RateLimiterRuns.SweepingBlocklessEntriesIsUnobservable | kelir-backend/src/middleware/rate_limit.rs:175-179 | every check of every run answers the same with and without such drops |
| RateLimiterRuns.RunIsDropping | kelir-backend/src/middleware/rate_limit.rs:175-179 | every run of the limiter is a run of the dropping limiter with the keys its own sweep takes |
| RateLimiterRuns.OwnSweepIsUnobservable | kelir-backend/src/middleware/rate_limit.rs:175-179 | while no entry the limiter's own sweep takes records a block, every check answers as if nothing were ever swept |
| RateLimiterRuns.SweepIsUnobservableExactlyWhenBlockless | kelir-backend/src/middleware/rate_limit.rs:238-243 | dropping one stale entry changes no later answer if and only if it records no block |
| RateLimiterRuns.CounterIsTheLargestSuffixBalance | kelir-backend/src/middleware/rate_limit.rs:199-217 | within a window the saturating counter is the largest failures-less-successes over a suffix, and a block has started exactly when some stretch reached the limit |
| RateLimiterRuns.WindowHoldsUnderTwiceTheLimit | kelir-backend/src/middleware/rate_limit.rs:102-107 | requests one at a time, successes included: in no interval as long as the window do counted failures outnumber those worked off in it by more than twice the limit less one; for a key that never succeeds that bounds the failures themselves |
| RateLimiterRuns.EveryKeyIsHeldUnderTwiceTheLimit | kelir-backend/src/middleware/rate_limit.rs:149-217 | the same of every key in every run of the whole limiter in which that key's requests run one at a time, sweeps and other keys included |
| RateLimiterRuns.SuccessesMakeRoom | kelir-backend/src/middleware/rate_limit.rs:206-218 | with successes in between, any number of failures is counted at one instant |
| RateLimiterRuns.OneKeyRunsAlone | kelir-backend/src/middleware/rate_limit.rs:149-218 | among any calls on other keys and sweeps of other entries, a key no sweep takes holds what its own calls alone leave |
| RateLimiterRuns.TwiceTheLimitLessOneIsReached | kelir-backend/src/middleware/rate_limit.rs:102-107 | a run that reaches that number |
| Search.LikeContains | kelir-backend/src/utils/search.rs:87-100 | the loop builds the escaped term between two wildcards |
| Search.PatternMeansContains | kelir-backend/src/utils/search.rs:77-100 | PostgreSQL accepts a text against the pattern exactly when the term is a contiguous part of it, and never raises its lone-escape error |
| Search.PatternMeansContainsUpToCase | kelir-backend/src/utils/search.rs:77-100 | the same of ILIKE, under any fold of characters to text of any length that leaves the wildcards and the escape alone |
| Search.PatternsAreDistinct | kelir-backend/src/utils/search.rs:87-100 | two terms have one pattern if and only if they are one term |
| Search.UnescapedEscaped | kelir-backend/src/utils/search.rs:91-96 | taking the escapes away gives the term back |
| Search.SearchRule | kelir-backend/src/utils/search.rs:57-105 | refused exactly when the raw value holds a NUL, no search exactly when it is all whitespace, else a pattern for exactly the rows that contain the trimmed term |
| Search.ContainsPattern | kelir-backend/src/utils/search.rs:103-105 | what a repository binds: a refusal exactly for a NUL, nothing exactly for no value or blank text, else a pattern that accepts exactly the rows that contain the trimmed term |
| Text.TrimSplits | kelir-backend/src/utils/search.rs:61 | trimming takes whitespace from the two ends, all of it, and nothing else |
| Text.SplitJoin | kelir-backend/src/middleware/client_address.rs:152 | splitting distributes over text joined by the separator |
| ApiClient.RequestConfig.AttachToken | kelir-frontend/src/api/client.ts:57-67 | the header carries the current token or is taken off |
| ApiClient.RequestConfig.OnResponseError | kelir-frontend/src/api/client.ts:81-93 | a refresh is asked for once per configuration, on a 401 on a refreshable path with a bridge, and otherwise the error goes on |
| ApiClient.RefreshPathIsExcluded | kelir-frontend/src/api/client.ts:46-52 | under any base and with any query the refresh call is never refreshable |
| ApiClient.RunKeepsInv | kelir-frontend/src/api/client.ts:46-102 | the invariant of requests, flights and tokens over every interleaving |
| ApiClient.AtMostOneRetryEach | kelir-frontend/src/api/client.ts:81-102 | a request is sent at most twice and asks for at most one refresh, and the refresh call itself never waits for one |
| ApiClient.AtMostOneRefreshInFlight | kelir-frontend/src/api/session.ts:13-20 | the store's latch keeps at most one refresh unresolved |
| ApiClient.SpentTokenIsNeverPresentedAgain | kelir-frontend/src/stores/auth.ts:271-308 | in every reachable state, a token value presented twice had only answers without a verdict before the last |
| ApiClient.RotationRepeatsATokenExactlyWhen | kelir-frontend/src/stores/auth.ts:287-307 | a rotation presents a token again if and only if an earlier presentation of it was inconclusive |
| ApiClient.LostAnswerRepeatsTheToken | kelir-frontend/src/stores/auth.ts:297-307 | a run in which that happens |
| ApiClient.RetryCarriesANewToken | kelir-frontend/src/api/client.ts:93-101 | a retry does not carry the token it failed with, unless the refresh it joined was already over |
| ApiClient.LateJoinRetriesWithTheSameToken | kelir-frontend/src/stores/auth.ts:271-277 | a run in which the latch outlives the refresh and a retry carries the same token |
| ApiClient.ProtocolStepDoesWork | kelir-frontend/src/api/client.ts:81-102 | every step of the protocol lowers what it still owes |
| ApiClient.UnansweredRequestCanProceed | kelir-frontend/src/api/client.ts:81-102 | while a request is unanswered some step is possible: nothing waits on itself |
| ApiClient.EveryRequestIsAnswered | kelir-frontend/src/api/client.ts:81-102 | every run of the protocol is bounded, and where it stops every request has been answered |
| CrossTab.AuthStore.AdoptPersistedSession | kelir-frontend/src/stores/auth.ts:317-328 | the stored pair is taken exactly when there is one and it is not the tab's own |
| CrossTab.AuthStore.BeginRotation | kelir-frontend/src/stores/auth.ts:279-292 | adopt, present or give up, with both copies after each |
| CrossTab.AuthStore.EndRotation | kelir-frontend/src/stores/auth.ts:294-307 | a new pair in both copies, both cleared on a 401 or a 403, both unchanged on anything else |
| CrossTab.AuthStore.OnExternalSessionChange | kelir-frontend/src/stores/auth.ts:371-389 | the tab follows storage |
| CrossTab.RunKeepsInv | kelir-frontend/src/stores/auth.ts:107-121 | the invariant of tabs, storage and presentations over every interleaving of tabs and server, answers lost and late included |
| CrossTab.PairGoesOutAgainExactlyWhen | kelir-frontend/src/stores/auth.ts:99-121 | the pair about to be presented has been out before, from any tab or from another, if and only if an earlier answer was no verdict, or was one and storage is empty, or without the lock is awaited |
| CrossTab.TabsPresentAPairAgainExactlyWhen | kelir-frontend/src/stores/auth.ts:99-121 | over whole runs under the lock, a presentation repeats a pair if and only if an earlier one of it got no verdict, or got one and the session was over by then |
| CrossTab.TabsPresentAPairOnce | kelir-frontend/src/stores/auth.ts:99-121 | under the lock one pair is never out twice at once, and while a session is stored none a tab has received a verdict on goes out again |
| CrossTab.StoredPairIsRotatedExactlyWhen | kelir-frontend/src/stores/auth.ts:310-328 | no tab has received a verdict on the pair in storage, and the server has rotated it if and only if the answer to that is awaited or lost |
| CrossTab.RotatedPairIsReplayedExactlyWhen | kelir-frontend/src/stores/auth.ts:279-307 | a rotation presents a pair the server has rotated if and only if the answer to that was lost, or heard and the session ended since, or without the lock is awaited |
| CrossTab.ReplayIsNotRotated | kelir-backend/src/modules/auth/service.rs:301-308 | of two presentations of one pair the server rotates at most one, and at most one is heard as a success |
| CrossTab.AcquireTakesTheStoredPair | kelir-frontend/src/stores/auth.ts:279-328 | while a session is stored, a tab that gets the lock ends with the stored pair, on which no tab has received a verdict |
| CrossTab.LostAnswerLetsTwoTabsPresent | kelir-frontend/src/stores/auth.ts:294-307 | a run in which a session is stored throughout and two tabs present one pair, the first answer being lost |
| CrossTab.LostRotationEndsTheSession | kelir-frontend/src/stores/auth.ts:294-307 | a run in which the answer to a rotation is lost, the kept pair is replayed and refused, and the session is gone |
| CrossTab.UnheardSignOutReplaysARotatedPair | kelir-frontend/src/stores/auth.ts:363-389 | a run in which a tab that has not heard of a sign-out presents a pair the server has rotated |
| CrossTab.WithoutTheLockTwoTabsCollide | kelir-frontend/src/stores/auth.ts:103-113 | without the lock, two tabs present one pair at once |
| CrossTab.RefusalForgetsAnotherPairExactlyWhen | kelir-frontend/src/stores/auth.ts:302-304 | a refusal empties storage, and forgets a pair other than the refused one exactly when that pair was never presented |
| CrossTab.SignInDuringARefresh | kelir-frontend/src/stores/auth.ts:302-304 | a run in which that happens |
| QueryBackedList.List.Begin | kelir-frontend/src/composables/useQueryBackedList.ts:105-114 | every field after the first half of a load, and its ticket |
| QueryBackedList.List.Finish | kelir-frontend/src/composables/useQueryBackedList.ts:117-147 | every field after the answer or the failure, and nothing for a superseded ticket |
| QueryBackedList.PageReadsBack | kelir-frontend/src/composables/useQueryBackedList.ts:67-76 | a page number written as text is read back as itself |
| QueryBackedList.LatestLoadDecides | kelir-frontend/src/composables/useQueryBackedList.ts:105-148 | whatever the order of answers, once the latest load has settled every field is what that load leaves alone |
| QueryBackedList.NeverMixesLoads | kelir-frontend/src/composables/useQueryBackedList.ts:112-146 | loading exactly while the latest load is unanswered, its filters shown, rows and total never from two loads |
| QueryBackedList.SupersededLoadIsIgnored | kelir-frontend/src/composables/useQueryBackedList.ts:119-135 | an answer to an older ticket changes nothing |
| QueryBackedList.EmptyExactlyWhen | kelir-frontend/src/composables/useQueryBackedList.ts:98-100 | empty exactly after a latest load that returned no rows, or failed with an empty message |
| QueryBackedList.SilentFailureLooksEmpty | kelir-frontend/src/composables/useQueryBackedList.ts:98-100 | a run of one load that fails with an empty message and reads as an empty list |
| ListRoute.QueryFromRoute | kelir-frontend/src/composables/useListRoute.ts:67-79 | keeps the first value of each key that has one and is not blank, in any order of keys |
| ListRoute.WriteQuery | kelir-frontend/src/composables/useListRoute.ts:102-113 | the loop leaves exactly the merged keys that are not blank and not the reset page |
| ListRoute.NavigateWrites | kelir-frontend/src/composables/useListRoute.ts:102-116 | key by key what a navigation leaves: changes win, blanks and a reset page go, the rest stays |
| ListRoute.NavigateReadsBack | kelir-frontend/src/composables/useListRoute.ts:90-116 | the written URL reads back as the written query, for the list exactly when no excluded key was set |
| ListRoute.ExcludedKeyIsNotReadBack | kelir-frontend/src/composables/useListRoute.ts:92-116 | an excluded key set by the changes reaches the URL and is not read back |
| ListRoute.GoToPageStaysInRange | kelir-frontend/src/composables/useListRoute.ts:118-120 | the page written lies between the first and the last, reads back as itself, and nothing else changes |
| ListRoute.UrlIsTheState | kelir-frontend/src/composables/useListRoute.ts:90-149 | after any run on the list's own route, navigations that move target and query at once included, once the watch has run the last query applied is the URL's, and the settled list shows what that query alone shows |
| ListRoute.InStepExactlyWhenLoadedAsWatched | kelir-frontend/src/composables/useListRoute.ts:131-149 | over every run, watch runs on other routes included: a list whose URL the watch has seen is in step with it if and only if the last query loaded, as the steps tell it, is the one the watch last saw |
| ListRoute.EveryLoadIsOfItsOwnRoute | kelir-frontend/src/composables/useListRoute.ts:134-146 | over every run in which the list is refreshed on its own route, each query it loads is the one the URL held at a moment on that route, never that of a page it was left for |
| ListRoute.UnseenReturnIsOutOfStep | kelir-frontend/src/composables/useListRoute.ts:139-148 | a run that leaves a list kept mounted out of step: away, seen there, and back with the query seen away |
| ListRoute.PagedIsLoaded | kelir-frontend/src/composables/useListRoute.ts:118-120 | a page turned to, once its navigation has finished and the watch has run, is the one the latest load asks for |
| ListRoute.RefreshStepsBackFromAnEmptiedPage | kelir-frontend/src/composables/useListRoute.ts:122-129 | after deleting the only row of a page, the latest load asks for the page before it, or for the last if that is earlier, and the empty page is not loaded again |
| JsonNul.LastOfEqualKeysIsKept | kelir-backend/src/extract.rs:290-293 | an object's members stay in key order and the last value of a repeated key is kept |
| JsonNul.NulInStringIsEscaped | kelir-backend/src/extract.rs:269-271 | a decoded string holds a NUL only if its bytes hold the escape |
| JsonNul.NulInValueIsEscaped | kelir-backend/src/extract.rs:269-280 | a NUL in any string or key of a decoded value, at any depth, was escaped in the bytes the value was read from |
| JsonNul.CollectNulPaths | kelir-backend/src/extract.rs:317-348 | the recursive visit and the retain yield the names found, each kept where first found |
| JsonNul.NulPathsNameEveryNul | kelir-backend/src/extract.rs:282-348 | a name is reported if and only if it is the path of a string or key that holds a NUL; each once, in first-found order |
| JsonNul.NothingNamedExactlyWithoutNul | kelir-backend/src/extract.rs:317-348 | no name exactly when no string and no key at any depth holds a NUL |
| JsonNul.RefuseNulInBody | kelir-backend/src/extract.rs:294-315 | passes without the escape, refuses what cannot be read, else answers as the walk does |
| JsonNul.FastScanNeverMisses | kelir-backend/src/extract.rs:273-315 | the scan never skips a body the walk would refuse for a NUL, and the two refusals agree exactly on the bodies that read or hold the escape |
| JsonNul.ScanIsNotTheDecision | kelir-backend/src/extract.rs:273-275 | a body the scan stops at and the walk passes |
| ClientAddress.Resolve | kelir-backend/src/middleware/client_address.rs:141-167 | the loop with its early return computes the chain, or falls back to the peer |
| ClientAddress.RelayedChain | kelir-backend/src/middleware/client_address.rs:129-140 | proxies that append the peer they saw extend the chain by exactly those addresses |
| ClientAddress.ResolvesToTheFirstPeerSeen | kelir-backend/src/middleware/client_address.rs:129-167 | for every header a caller sends, the address resolved is the one the first proxy saw, or the last proxy's when an entry is no address |
| Bits.AndHighOnes | kelir-backend/src/utils/cidr.rs:131-145 | bitwise and with ones above a bit clears the bits below it |
| Cidr.MaskClears | kelir-backend/src/utils/cidr.rs:131-145 | the mask of a prefix, the shift by the whole width included, clears the host bits |
| Cidr.ContainsExactlyItsInterval | kelir-backend/src/utils/cidr.rs:45-59 | a network contains exactly the addresses whose canonical form is of its family and in its interval |
| Cidr.CanonicalIsInvisible | kelir-backend/src/utils/cidr.rs:106-129 | containment does not tell an address from its canonical form, which is its own canonical form |
| Cidr.NestedOrDisjoint | kelir-backend/src/utils/cidr.rs:45-59 | two networks of one family are nested or apart |
| Cidr.EmptyExactlyWhenAllCarryV4 | kelir-backend/src/utils/cidr.rs:45-59 | an IPv6 network contains nothing if and only if it lies in the mapped block, or in the compatible block without the unspecified and loopback addresses |
| Cidr.MappedNetworkIsEmpty | kelir-backend/src/utils/cidr.rs:45-59 | the network of all IPv4-mapped addresses parses and contains none of them |
| Cidr.FromStrYieldsParsed | kelir-backend/src/utils/cidr.rs:65-87 | what parses is masked to its prefix, whatever host bits were written |
| Cidr.DisplayReadsBack | kelir-backend/src/utils/cidr.rs:72-94 | a parsed network written out and parsed is itself |
| Cidr.ParseListIsAllOrNothing | kelir-backend/src/utils/cidr.rs:96-104 | every entry that is not blank, in order, or the error of the first that does not parse |
| Storable.NextDayIsNextNumber | kelir-backend/src/utils/storable.rs:134-145 | the day number grows by one from each date to the next, over all years |
| Storable.DayNumberOrders | kelir-backend/src/utils/storable.rs:141-145 | dates are ordered exactly as their day numbers |
| Storable.TheBoundsAreTheseDays | kelir-backend/src/utils/storable.rs:59-72 | the two constants are midnight of 4714-11-24 BC and of 294277-01-01 |
| Storable.DateCheckMatchesInstantCheck | kelir-backend/src/utils/storable.rs:78-145 | a midnight passes the instant check exactly when its date passes the date check and its year is one a `timestamptz` reaches |
| Storable.AcceptedInstantsStayInRange | kelir-backend/src/utils/storable.rs:74-88 | in range before cutting to microseconds exactly when in range after, by floor; toward zero exactly 999 refused nanoseconds more would be taken in |
| Storable.EveryBadBoundIsNamed | kelir-backend/src/utils/storable.rs:90-116 | the refusal names each bound out of range, in its place, and no other |
| Storable.NoBadBoundNoRefusal | kelir-backend/src/utils/storable.rs:94-116 | no refusal exactly when every bound is absent or in range |
| Pagination.OffsetFits | kelir-backend/src/response.rs:140-148 | offset and limit are never negative and fit an `i64` for any two `u32`s |
| Pagination.EchoKeepsTheRows | kelir-backend/src/response.rs:129-152 | sending back the echoed page and size asks for the same rows |
| Pagination.PagesTile | kelir-backend/src/response.rs:129-148 | each row lies on exactly one page, and on one of the pages the browser counts |
| Pagination.LastPageIsNotEmpty | kelir-frontend/src/composables/useQueryBackedList.ts:90-92 | the last page counted holds a row |
| Pagination.TurnedPageStartsInsideTheRows | kelir-frontend/src/composables/useListRoute.ts:118-120 | whatever page is asked for, the one turned to starts inside the rows |

## Left out

- Aliasing in the limiter's map: Rust owns each entry, so an entry is a value and an update in place reassigns the map.
- The mutex, its poisoning and real clocks: each call is one atomic step with its time as an argument; the overflow of `Instant` is not modelled.
- The handlers behind the limiter: a request is its check and the status recorded after it.
- WindowHoldsUnderTwiceTheLimit: is about requests of one key that run one at a time; with requests that overlap, more than the limit can be checked before any of them is recorded.
- RefreshStepsBackFromAnEmptiedPage: asks that the page key is not one the list excludes; none does.
- RotationRepeatsATokenExactlyWhen: is about one tab, for which another tab's pair in storage is always a new one; what tabs do to each other is `CrossTab`.
- `CrossTab`'s server rotates a pair at most once and may refuse any pair for reasons of its own. Which of them revokes the family, what revocation does to other sessions, expiry and the reasons stored are not modelled.
- `CrossTab`: storage is always readable and writable. A failed write, a malformed stored pair, a restored tab's old page and the loading of the profile are not modelled, beyond the session they may end.
- Axios, Vue and the router: a configuration that survives a retry, a URL step, and a watch that runs in the microtask after a change, before another navigation can finish.
- UrlIsTheState: covers runs during which the watch never runs on another route; InStepExactlyWhenLoadedAsWatched covers the others. A list set up with `load: false` is not modelled.
- JavaScript numbers: integers are unbounded, so pages beyond 2^53 and digit runs that read as infinity are not modelled, and `goToPage` takes an integer.
- A failed load's error value: only the message it is shown as.
- `JsonNul`: the body is any bytes. That text must be UTF-8, and that a number past `f64` is refused, are not modelled, so more bodies read here than in the original. `\u0000` in a query string or a path capture is refused elsewhere and is not modelled.
- Reading and writing IP addresses as text is the standard library's: any functions that read back what they write, without a comma, a slash or outer whitespace.
- ResolvesToTheFirstPeerSeen: takes one forwarding header of readable text; how a request with several such headers, or with bytes outside ASCII, is reduced to it is not modelled.
- PatternMeansContainsUpToCase: the case folding takes each character to some text on its own, keeping the wildcards and the escape; a folding that looks at neighbouring characters is not modelled.
- TurnedPageStartsInsideTheRows: asks that the page fit a `u32`; one that does not is refused when the query is read.
- The refusal's message texts, and the body-date helpers of `storable.rs`, which carry the same check through serde.
- `usePaginatedList.ts` has no ticket, so the convergence proved for `QueryBackedList` is not claimed for it.
- Configuration, database, mail, health, routing and error-code modules: case tables, wiring and I/O.

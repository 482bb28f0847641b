# Copycat follower election timer and poll request, in Dafny

This project models two pieces of Copycat's Raft replica. Raft is the
consensus algorithm of Ongaro and Ousterhout; its leader election is in
section 5.2 of "In Search of an Understandable Consensus Algorithm".

- **The follower's election timer** (`FollowerController`). A follower keeps
  at most one one-shot timer pending. An effective reset does three things:
  it cancels that timer, it clears the context's `lastVotedFor`, and it
  schedules a new timer after `T - T/4 + round(random * (T/2))` milliseconds.
  When the timer fires, a follower that has not voted since the last reset
  becomes a candidate. One that has voted resets again. `ping` and `sync`
  reset the timer; `poll` does not. `destroy` cancels the timer and shuts the
  controller down, and after that resets do nothing.
- **The vote request** (`PollRequest`). This is an immutable record: request
  id, term, candidate, last log index and last log term. Its `equals`
  compares only the id, the term and the candidate. Its `hashCode` is a
  wrapping 32-bit polynomial over those same three fields.

Files:

- `wrappers.dfy`: `Option`, which stands for a Java reference that may be null.
- `java_int.dfy`: Java `int` and `long`. It covers two's-complement
  wrap-around, the truncating `/`, and a bit-by-bit `^`. It also defines the
  fold `(int)(t ^ (t >>> 32))` and proves that the fold equals the xor of the
  long's two 32-bit words.
- `poll_request.dfy`: the request record with its `equals` and `hashCode`.
- `follower_timer.dfy`: the follower's timer as a state record, with one pure
  step function per event.

Modelling choices:

- The timer strategy is modelled as a map from timer handle to delay. The map
  holds only pending timers. A cancelled or fired timer leaves the map, and
  every new timer gets a fresh handle. "At most one pending timer" is
  therefore a proved invariant (`Valid`), not a fact that follows from the
  field's type. A fire event names the timer that fires, and a timer that is
  no longer pending does not run.
- The random term `Math.round(Math.random() * (T/2))` is a parameter `r` of
  each step. `IsDraw` states the range `r` can take: 0 to `T/2`.
- The delay is computed the way Java computes it: `/` truncates and the
  `long` sum wraps. This assumes the configured election timeout is a `long`;
  the type of `getElectionTimeout()` is not shown in `FollowerController.java`.
  For `T = Long.MAX_VALUE`, any draw above `T/4` makes the sum overflow, and
  the delay comes out negative (`HugeTimeoutWraps`). The delay window is
  proved for every non-negative `T` whose delay cannot overflow (`InRange`).
- The move to Candidate is an output effect (`BecomeCandidate`). The
  surrounding state context carries it out.
- `lastVotedFor` belongs to the state context. The inherited poll handler
  writes it when it grants a vote. That write is the `VoteEvent` event.
- The request id is an arbitrary object. Its type is a parameter, and its
  `equals` and `hashCode` are passed in as functions. The candidate is a
  `String`. `String.equals` compares contents, so it is Dafny's `==`. The
  candidate's `hashCode` is also passed in.

Where the source's comments and its code differ, the model follows the code:

- The comment at `FollowerController.java:74-76` puts the delay "somewhere
  between .75 * election timeout and 1.25 * election timeout". Lines 77-78
  truncate `T/4` and `T/2` and round the random term to an integer. The
  proved window is therefore `[T - T/4, T - T/4 + T/2]` in integer arithmetic.
- `destroy` cancels the pending timer but does not clear `currentTimer`. A
  later `init` cancels that handle again, which has no effect.

## Model

| member | source | states |
|---|---|---|
| `FollowerTimer.Constructed` | core/src/main/java/net/kuujo/copycat/internal/state/FollowerController.java:39-40 | a newly constructed controller is shut down and has no timer, which satisfies the invariant |
| `FollowerTimer.ResetTimer` | core/src/main/java/net/kuujo/copycat/internal/state/FollowerController.java:63-92 | while shut down, a reset changes nothing; otherwise it cancels the current timer, leaves exactly one fresh timer pending, clears the vote and keeps the invariant |
| `FollowerTimer.Init` | core/src/main/java/net/kuujo/copycat/internal/state/FollowerController.java:53-58 | init always runs and clears the vote, and from any valid state it leaves exactly one pending timer, the current one |
| `FollowerTimer.Fire` | core/src/main/java/net/kuujo/copycat/internal/state/FollowerController.java:79-90 | a timer that is not pending does nothing; in a valid state, firing a pending timer always leaves no vote recorded; the follower becomes a candidate exactly when a pending timer fires with no vote recorded, and then the current timer is cleared; with a vote it resets instead, clearing the vote and scheduling a fresh timer |
| `FollowerTimer.Ping` | core/src/main/java/net/kuujo/copycat/internal/state/FollowerController.java:94-98 | ping resets the timer and then hands the request on |
| `FollowerTimer.Sync` | core/src/main/java/net/kuujo/copycat/internal/state/FollowerController.java:100-104 | sync resets the timer and then hands the request on |
| `FollowerTimer.Poll` | core/src/main/java/net/kuujo/copycat/internal/state/FollowerController.java:106-109 | poll hands the request on and leaves the timers, the current timer, the vote and the shutdown flag unchanged |
| `FollowerTimer.Destroy` | core/src/main/java/net/kuujo/copycat/internal/state/FollowerController.java:111-118 | destroy cancels the current timer and sets shutdown; the vote and the timer field are kept, and no timer is left pending |
| `FollowerTimer.RecordVote` | core/src/main/java/net/kuujo/copycat/internal/state/FollowerController.java:106-109 | a vote recorded by the inherited poll handler changes only `lastVotedFor` |
| `FollowerTimer.Step` | core/src/main/java/net/kuujo/copycat/internal/state/FollowerController.java:52-118 | every event keeps the invariant; an event makes the follower a candidate if and only if it is the firing of a pending timer while no vote is recorded |
| `FollowerTimer.Delay` | core/src/main/java/net/kuujo/copycat/internal/state/FollowerController.java:77-78 | the delay is `T - T/4 + r` with truncating division, reduced to a `long` (congruent modulo 2^64), and equal to that sum whenever the draw is proper and the timeout cannot overflow |
| `FollowerTimer.DelayWindow` | core/src/main/java/net/kuujo/copycat/internal/state/FollowerController.java:74-78 | for any draw and every non-negative timeout whose delay cannot overflow, the delay lies in `[T - T/4, T - T/4 + T/2]`, is between 3/4 and 5/4 of `T` (up to rounding) and is non-negative |
| `FollowerTimer.HugeTimeoutWraps` | core/src/main/java/net/kuujo/copycat/internal/state/FollowerController.java:77-78 | with `T = Long.MAX_VALUE` and a draw just above `T/4`, which `Math.round(Math.random() * (T/2))` can produce, the `long` delay wraps to a negative value |
| `FollowerTimer.AtMostOnePending` | core/src/main/java/net/kuujo/copycat/internal/state/FollowerController.java:66-69 | in a valid state at most one timer is pending, and it is the one `currentTimer` names |
| `FollowerTimer.StartedFollower` | core/src/main/java/net/kuujo/copycat/internal/state/FollowerController.java:40-57 | a newly constructed follower, once started, has exactly one pending timer with the drawn delay, no recorded vote, and is not shut down; for a proper draw and a timeout in range, that delay lies in the window |
| `FollowerTimer.RunKeepsValid` | core/src/main/java/net/kuujo/copycat/internal/state/FollowerController.java:63-118 | after any sequence of events at most one timer is pending |
| `FollowerTimer.ResetDisarmsOldTimer` | core/src/main/java/net/kuujo/copycat/internal/state/FollowerController.java:66-69 | after an effective reset, the timer pending before it cannot fire |
| `FollowerTimer.VotedFireThenSilentFireElects` | core/src/main/java/net/kuujo/copycat/internal/state/FollowerController.java:82-89 | a fire after a vote starts no election but resets; if the new timer then fires with no vote in between, the follower becomes a candidate |
| `FollowerTimer.DestroyedStaysQuiet` | core/src/main/java/net/kuujo/copycat/internal/state/FollowerController.java:111-118 | after destroy, no sequence of events without a new init schedules or cancels a timer, clears shutdown, or makes the follower a candidate |
| `FollowerTimer.VoteFreeKeepsNoVote` | core/src/main/java/net/kuujo/copycat/internal/state/FollowerController.java:63-118 | starting with no recorded vote, no sequence of events without a vote sets `lastVotedFor`: ping, sync, poll, init, fire and destroy never record one |
| `FollowerTimer.TwoFiresWithoutVoteElect` | core/src/main/java/net/kuujo/copycat/internal/state/FollowerController.java:82-89 | after a pending timer fires, any events that follow short of a vote, and then the firing of a pending timer, make the follower a candidate |
| `PollRequests.AccessorsReturnConstructorArguments` | core/src/main/java/net/kuujo/copycat/protocol/PollRequest.java:40-82 | each accessor returns the value its field got from the full constructor |
| `PollRequests.Equals` | core/src/main/java/net/kuujo/copycat/protocol/PollRequest.java:85-91 | an object that is not a poll request is never equal; a poll request is equal exactly when its id equals this one's and the term and candidate match |
| `PollRequests.EqualsIgnoresLog` | core/src/main/java/net/kuujo/copycat/protocol/PollRequest.java:88 | changing the last log index or last log term of either request does not change equality |
| `PollRequests.SameVoteDifferentLogEqual` | core/src/main/java/net/kuujo/copycat/protocol/PollRequest.java:88 | requests with the same id, term and candidate are equal both ways, whatever their log positions |
| `PollRequests.EqualsIsEquivalence` | core/src/main/java/net/kuujo/copycat/protocol/PollRequest.java:88 | if equality on ids is an equivalence relation, so is equality on requests |
| `PollRequests.HashCode` | core/src/main/java/net/kuujo/copycat/protocol/PollRequest.java:94-100 | the three wrapping `int` steps `h = 37 * h + v` from 23 equal `37^3*23 + 37^2*h(id) + 37*fold(term) + h(candidate)` wrapped once to 32 bits |
| `PollRequests.EqualRequestsHashAlike` | core/src/main/java/net/kuujo/copycat/protocol/PollRequest.java:85-100 | equal requests have equal hash codes, provided the id's hash agrees with the id's equality |
| `JavaInt.LongHash` | core/src/main/java/net/kuujo/copycat/protocol/PollRequest.java:97 | the 64-bit `t ^ (t >>> 32)` narrowed to `int` equals the xor of the long's low and high 32-bit words |
| `JavaInt.LongHashOfSmallNonNegative` | core/src/main/java/net/kuujo/copycat/protocol/PollRequest.java:97 | a term in `[0, 2^31)` folds to itself |
| `JavaInt.LongHashOfSmallNegative` | core/src/main/java/net/kuujo/copycat/protocol/PollRequest.java:97 | a term in `[-2^31, 0)` folds to its bitwise complement `-t - 1` |

## Left out

- Real timers and threads. `ScheduledFuture`, `TimerStrategy.schedule`, `cancel(true)` and `synchronized` become explicit events on a sequential state. How the timer thread interleaves with request handlers is not modelled. A callback already running when `cancel(true)` is called still runs, and the callback itself is not `synchronized`; neither race is modelled.
- `Math.random()` and `Math.round` use floating point. They become the integer parameter `r`, whose range is `IsDraw`.
- The inherited request handling of the controller base and the state context: `super.init`, `super.ping`, `super.sync`, `super.poll` and `context.transition`. That code is not part of this model. Steps report `Delegate(...)` or `BecomeCandidate` instead. The one effect of that code this model keeps is the vote write, `VoteEvent`.
- FollowerTimer.Fire: a firing callback does not itself destroy the follower. Tearing the follower down on the move to Candidate is done by the state context, which is not part of this model.
- Logging through SLF4J, `state()`, `logger()` and `toString()`. They have no behavioural effect.
- PollRequests.Equals: a null `id` or `candidate` passed to the full constructor is excluded, since the fields are an abstract `Id` and a `string`. With such a null, `hashCode` throws `NullPointerException`, and `equals` then depends on which side is null: `a.equals(b)` is false when only `a.candidate` is null, while `b.equals(a)` and `a.equals(a)` throw. `EqualsIsEquivalence` and `EqualRequestsHashAlike` hold for non-null fields only.
- The no-argument `PollRequest` constructor. It leaves the id and the candidate null, so `equals` and `hashCode` would throw `NullPointerException`. The `Request` base class is not part of this model, so the id is abstract.
- `String.hashCode` and the id's `hashCode` are abstract function parameters, not Java's concrete string hash.
- The rest of the repository: response types, services, test fixtures and integration tests.
- The candidate and leader roles, log replication and commit. Their code is not part of this model.
- The delay window is stated with integer bounds: `T - T/4` uses Java's truncating division, so the window is `[T - T/4, T - T/4 + T/2]`, not exactly `[0.75T, 1.25T]`.

/**
 * The follower's election timer (section 5.2 of "In Search of an
 * Understandable Consensus Algorithm", Ongaro and Ousterhout).
 *
 * A follower keeps at most one one-shot timer pending. Every effective reset
 * cancels it, clears the context's recorded vote and schedules a fresh timer
 * with a randomised delay. When the timer fires, the follower becomes a
 * candidate if it has not voted since the last reset, and resets again if it
 * has. Ping and sync requests are taken as a sign of a live leader and reset
 * the timer; poll requests do not. Once destroyed, the controller ignores
 * resets.
 *
 * The model is sequential: a timer firing is an explicit event naming the
 * timer that fired, the random draw is a parameter of every step that may
 * reset, and the move to candidate is an output effect for the surrounding
 * state context to carry out.
 */
module FollowerTimer {
  import opened Wrappers
  import opened JavaInt

  /** A handle the timer strategy returns for a scheduled timer. */
  type TimerId = nat

  /** A replica address, as the context records it for `lastVotedFor`. */
  type Address = string

  /** The one-shot timers this controller has scheduled that have neither
      fired nor been cancelled, with their delays, and the next fresh handle. */
  datatype Timers = Timers(pending: map<TimerId, Long>, next: TimerId)

  /** The controller's fields together with the context's `lastVotedFor`. */
  datatype Follower = Follower(
    shutdown: bool,
    currentTimer: Option<TimerId>,
    lastVotedFor: Option<Address>,
    timers: Timers)

  /** The request handlers of the shared controller base that a step hands on to. */
  datatype Rpc = PingRpc | SyncRpc | PollRpc

  /** What a step asks of its surroundings besides its new state. */
  datatype Effect = NoEffect | BecomeCandidate | Delegate(rpc: Rpc)

  datatype Outcome = Outcome(follower: Follower, effect: Effect)

  /** At most one timer is pending, and only the one `currentTimer` names;
      handles are issued fresh; a shut-down controller has nothing pending. */
  ghost predicate Valid(s: Follower)
  {
    && s.timers.pending.Keys <= Held(s.currentTimer)
    && (s.currentTimer.Some? ==> s.currentTimer.value < s.timers.next)
    && (s.shutdown ==> s.timers.pending == map[])
  }

  /** A freshly constructed controller: shut down, with no timer; the vote is
      whatever the context holds. */
  function Constructed(vote: Option<Address>): (s: Follower)
    ensures Valid(s) && s.shutdown
  {
    Follower(true, None, vote, Timers(map[], 0))
  }

  // ---- the timer strategy ---------------------------------------------------

  function Schedule(ts: Timers, delay: Long): (r: (Timers, TimerId))
    ensures r.1 == ts.next && r.0.next == ts.next + 1
    ensures r.0.pending == ts.pending[ts.next := delay]
  {
    (Timers(ts.pending[ts.next := delay], ts.next + 1), ts.next)
  }

  /** Drops a timer from the pending ones, whether it was cancelled or fired. */
  function Remove(ts: Timers, id: TimerId): (r: Timers)
    ensures id !in r.pending && r.pending.Keys == ts.pending.Keys - {id}
  {
    ts.(pending := ts.pending - {id})
  }

  // ---- the randomised delay ------------------------------------------------

  /** `T - T/4 + round(random * (T/2))` in Java `long` arithmetic, where `r`
      stands for the rounded random term. */
  function Delay(timeout: Long, r: Long): (d: Long)
    ensures (d - (timeout - Div(timeout, 4) + r)) % TWO_64 == 0
    ensures InRange(timeout) && IsDraw(timeout, r) ==> d == timeout - Div(timeout, 4) + r
  {
    Wrap64(timeout - Div(timeout, 4) + r)
  }

  /** The values `Math.round(Math.random() * (T/2))` can take: from 0 to T/2. */
  predicate IsDraw(timeout: Long, r: Long)
  {
    var half := Div(timeout, 2);
    if half >= 0 then 0 <= r <= half else half <= r <= 0
  }

  /** Timeouts for which no draw makes the delay overflow a `long`. */
  predicate InRange(timeout: Long)
  {
    0 <= timeout && timeout - Div(timeout, 4) + Div(timeout, 2) <= LONG_MAX
  }

  // ---- the controller ------------------------------------------------------

  /** `resetTimer`: a no-op once shut down; otherwise cancels the current
      timer, clears the vote and schedules a new timer. */
  function ResetTimer(s: Follower, timeout: Long, r: Long): (s': Follower)
    ensures s.shutdown ==> s' == s
    ensures !s.shutdown ==>
      && !s'.shutdown
      && s'.lastVotedFor == None
      && s'.currentTimer == Some(s.timers.next)
      && s'.timers.pending == (s.timers.pending - Held(s.currentTimer))[s.timers.next := Delay(timeout, r)]
      && s'.timers.next == s.timers.next + 1
    ensures Valid(s) ==> Valid(s')
    ensures Valid(s) && !s.shutdown ==> s'.timers.pending.Keys == {s.timers.next}
  {
    if s.shutdown then s
    else
      var cancelled := if s.currentTimer.Some? then Remove(s.timers, s.currentTimer.value) else s.timers;
      var (timers, id) := Schedule(cancelled, Delay(timeout, r));
      s.(currentTimer := Some(id), lastVotedFor := None, timers := timers)
  }

  /** `init`: clears the shutdown flag and resets. */
  function Init(s: Follower, timeout: Long, r: Long): (s': Follower)
    ensures !s'.shutdown && s'.lastVotedFor == None
    ensures s'.currentTimer == Some(s.timers.next)
    ensures s'.timers.pending.Keys == (s.timers.pending.Keys - Held(s.currentTimer)) + {s.timers.next}
    ensures Valid(s) ==> Valid(s') && s'.timers.pending.Keys == {s.timers.next}
  {
    ResetTimer(s.(shutdown := false), timeout, r)
  }

  /** The timer callback, run when timer `id` fires. A timer that is no longer
      pending was cancelled and does not run. */
  function Fire(s: Follower, id: TimerId, timeout: Long, r: Long): (o: Outcome)
    ensures id !in s.timers.pending ==> o == Outcome(s, NoEffect)
    ensures o.effect == BecomeCandidate <==> id in s.timers.pending && s.lastVotedFor.None?
    ensures o.effect == BecomeCandidate ==>
      && o.follower.currentTimer == None
      && o.follower.timers.pending.Keys == s.timers.pending.Keys - {id}
      && o.follower.lastVotedFor == s.lastVotedFor
    ensures id in s.timers.pending && s.lastVotedFor.Some? && !s.shutdown ==>
      && o.effect == NoEffect
      && o.follower.lastVotedFor == None
      && o.follower.currentTimer == Some(s.timers.next)
      && o.follower.timers.pending.Keys == (s.timers.pending.Keys - {id}) + {s.timers.next}
    ensures Valid(s) ==> Valid(o.follower)
    ensures Valid(s) && id in s.timers.pending ==> o.follower.lastVotedFor.None?
  {
    if id !in s.timers.pending then Outcome(s, NoEffect)
    else
      var fired := s.(currentTimer := None, timers := Remove(s.timers, id));
      if fired.lastVotedFor.None? then Outcome(fired, BecomeCandidate)
      else Outcome(ResetTimer(fired, timeout, r), NoEffect)
  }

  /** `ping`: a leader's heartbeat; resets, then hands the request on. */
  function Ping(s: Follower, timeout: Long, r: Long): (o: Outcome)
    ensures o.effect == Delegate(PingRpc)
    ensures o.follower == ResetTimer(s, timeout, r)
  {
    Outcome(ResetTimer(s, timeout, r), Delegate(PingRpc))
  }

  /** `sync`: a leader's log replication; resets, then hands the request on. */
  function Sync(s: Follower, timeout: Long, r: Long): (o: Outcome)
    ensures o.effect == Delegate(SyncRpc)
    ensures o.follower == ResetTimer(s, timeout, r)
  {
    Outcome(ResetTimer(s, timeout, r), Delegate(SyncRpc))
  }

  /** `poll`: a vote request; handed on without touching the timer or the vote. */
  function Poll(s: Follower): (o: Outcome)
    ensures o.effect == Delegate(PollRpc)
    ensures o.follower.timers == s.timers && o.follower.currentTimer == s.currentTimer
    ensures o.follower.lastVotedFor == s.lastVotedFor && o.follower.shutdown == s.shutdown
  {
    Outcome(s, Delegate(PollRpc))
  }

  /** `destroy`: cancels the current timer and shuts the controller down. */
  function Destroy(s: Follower): (s': Follower)
    ensures s'.shutdown
    ensures s'.lastVotedFor == s.lastVotedFor && s'.currentTimer == s.currentTimer
    ensures s'.timers.pending.Keys == s.timers.pending.Keys - Held(s.currentTimer)
    ensures Valid(s) ==> Valid(s') && s'.timers.pending == map[]
  {
    var timers := if s.currentTimer.Some? then Remove(s.timers, s.currentTimer.value) else s.timers;
    s.(timers := timers, shutdown := true)
  }

  /** The context records a vote; this is done by the inherited poll handler,
      which is not part of this model. */
  function RecordVote(s: Follower, c: Address): (s': Follower)
    ensures s'.lastVotedFor == Some(c)
    ensures s'.timers == s.timers && s'.currentTimer == s.currentTimer && s'.shutdown == s.shutdown
  {
    s.(lastVotedFor := Some(c))
  }

  // ---- event traces --------------------------------------------------------

  datatype Event =
    | Start
    | PingEvent
    | SyncEvent
    | PollEvent
    | FireEvent(timer: TimerId)
    | DestroyEvent
    | VoteEvent(candidate: Address)

  /** An event with the configured election timeout and the random draw in
      force when it happens. */
  datatype Input = Input(event: Event, timeout: Long, draw: Long)

  datatype Trace = Trace(last: Follower, effects: seq<Effect>)

  function Step(s: Follower, i: Input): (o: Outcome)
    ensures Valid(s) ==> Valid(o.follower)
    ensures o.effect == BecomeCandidate <==>
      i.event.FireEvent? && i.event.timer in s.timers.pending && s.lastVotedFor.None?
  {
    match i.event
    case Start => Outcome(Init(s, i.timeout, i.draw), NoEffect)
    case PingEvent => Ping(s, i.timeout, i.draw)
    case SyncEvent => Sync(s, i.timeout, i.draw)
    case PollEvent => Poll(s)
    case FireEvent(id) => Fire(s, id, i.timeout, i.draw)
    case DestroyEvent => Outcome(Destroy(s), NoEffect)
    case VoteEvent(c) => Outcome(RecordVote(s, c), NoEffect)
  }

  /** Runs the inputs in order, collecting one effect per input. */
  function Run(s: Follower, inputs: seq<Input>): (t: Trace)
    ensures |t.effects| == |inputs|
    decreases |inputs|
  {
    if inputs == [] then Trace(s, [])
    else
      var o := Step(s, inputs[0]);
      var rest := Run(o.follower, inputs[1..]);
      Trace(rest.last, [o.effect] + rest.effects)
  }

  // ---- lemmas --------------------------------------------------------------

  /** The delay lies between `T - T/4` and `T - T/4 + T/2`, which is between
      three and five quarters of `T`, and is never negative. */
  lemma DelayWindow(timeout: Long, r: Long)
    requires IsDraw(timeout, r) && InRange(timeout)
    ensures timeout - Div(timeout, 4) <= Delay(timeout, r) <= timeout - Div(timeout, 4) + Div(timeout, 2)
    ensures 3 * timeout <= 4 * Delay(timeout, r) <= 5 * timeout + 3
    ensures 0 <= Delay(timeout, r)
  {
  }

  /** For a timeout of `Long.MAX_VALUE` the `long` sum wraps and the delay
      comes out negative as soon as the draw exceeds a quarter of the timeout. */
  lemma HugeTimeoutWraps()
    ensures IsDraw(LONG_MAX, Div(LONG_MAX, 4) + 1) && Delay(LONG_MAX, Div(LONG_MAX, 4) + 1) < 0
  {
  }

  /** A valid follower has at most one pending timer, and any pending timer is
      the current one. */
  lemma AtMostOnePending(s: Follower)
    requires Valid(s)
    ensures |s.timers.pending| <= 1
    ensures forall id :: id in s.timers.pending ==> s.currentTimer == Some(id)
  {
    var keys := s.timers.pending.Keys;
    assert |s.timers.pending| == |keys|;
    if s.currentTimer.Some? {
      assert keys <= {s.currentTimer.value};
      SubsetSize(keys, {s.currentTimer.value});
    } else {
      assert keys == {};
    }
  }

  lemma SubsetSize<T>(a: set<T>, b: set<T>)
    requires a <= b
    ensures |a| <= |b|
  {
    assert b == a + (b - a);
  }

  /** A freshly constructed and started follower has exactly one pending timer
      and no recorded vote; with a proper draw, its delay lies in the window. */
  lemma StartedFollower(vote: Option<Address>, timeout: Long, r: Long)
    ensures var s := Init(Constructed(vote), timeout, r);
      && !s.shutdown && s.lastVotedFor == None && Valid(s)
      && s.currentTimer == Some(0) && s.timers.pending == map[0 := Delay(timeout, r)]
    ensures IsDraw(timeout, r) && InRange(timeout) ==>
      timeout - Div(timeout, 4) <= Delay(timeout, r) <= timeout - Div(timeout, 4) + Div(timeout, 2)
  {
    if IsDraw(timeout, r) && InRange(timeout) {
      DelayWindow(timeout, r);
    }
  }

  /** Any event sequence keeps the follower valid, so at most one timer is
      ever pending. */
  lemma {:induction false} RunKeepsValid(s: Follower, inputs: seq<Input>)
    requires Valid(s)
    ensures Valid(Run(s, inputs).last)
    ensures |Run(s, inputs).last.timers.pending| <= 1
    decreases |inputs|
  {
    if inputs == [] {
      AtMostOnePending(s);
    } else {
      RunKeepsValid(Step(s, inputs[0]).follower, inputs[1..]);
    }
  }

  /** After a reset, the timer that was pending before can no longer fire:
      a leader's ping or sync always postpones the election. */
  lemma ResetDisarmsOldTimer(s: Follower, id: TimerId, timeout: Long, r: Long, timeout': Long, r': Long)
    requires Valid(s) && !s.shutdown && id in s.timers.pending
    ensures var s' := ResetTimer(s, timeout, r);
      Fire(s', id, timeout', r') == Outcome(s', NoEffect)
  {
  }

  /** A timer that fires after a vote does not start an election but resets;
      if the new timer then fires with no vote cast in between, the follower
      becomes a candidate. */
  lemma VotedFireThenSilentFireElects(s: Follower, id: TimerId, timeout1: Long, r1: Long, timeout2: Long, r2: Long)
    requires Valid(s) && id in s.timers.pending && s.lastVotedFor.Some?
    ensures var o1 := Fire(s, id, timeout1, r1);
      && o1.effect == NoEffect
      && o1.follower.currentTimer.Some?
      && Fire(o1.follower, o1.follower.currentTimer.value, timeout2, r2).effect == BecomeCandidate
  {
    assert !s.shutdown;
  }

  /** Once destroyed, no sequence of events short of a new `init` schedules a
      timer, touches the current timer or makes the follower a candidate. */
  lemma {:induction false} DestroyedStaysQuiet(s: Follower, inputs: seq<Input>)
    requires Valid(s) && s.shutdown
    requires forall k :: 0 <= k < |inputs| ==> !inputs[k].event.Start?
    ensures var t := Run(s, inputs);
      && t.last.shutdown
      && t.last.timers == s.timers
      && t.last.currentTimer == s.currentTimer
      && BecomeCandidate !in t.effects
    decreases |inputs|
  {
    if inputs != [] {
      var o := Step(s, inputs[0]);
      assert o.follower.timers == s.timers;
      DestroyedStaysQuiet(o.follower, inputs[1..]);
    }
  }

  /** Only a recorded vote sets `lastVotedFor`: every other event leaves an
      empty vote empty. */
  lemma {:induction false} VoteFreeKeepsNoVote(s: Follower, inputs: seq<Input>)
    requires s.lastVotedFor.None?
    requires forall k :: 0 <= k < |inputs| ==> !inputs[k].event.VoteEvent?
    ensures Run(s, inputs).last.lastVotedFor.None?
    decreases |inputs|
  {
    if inputs != [] {
      var o := Step(s, inputs[0]);
      assert o.follower.lastVotedFor.None?;
      VoteFreeKeepsNoVote(o.follower, inputs[1..]);
    }
  }

  /** Two fires with no vote cast in between lead to a candidate: after a
      pending timer fires, whatever events follow, short of a vote, the next
      pending timer to fire makes the follower a candidate. */
  lemma TwoFiresWithoutVoteElect(s: Follower, id: TimerId, timeout1: Long, r1: Long,
                                 inputs: seq<Input>, id2: TimerId, timeout2: Long, r2: Long)
    requires Valid(s) && id in s.timers.pending
    requires forall k :: 0 <= k < |inputs| ==> !inputs[k].event.VoteEvent?
    ensures var last := Run(Fire(s, id, timeout1, r1).follower, inputs).last;
      id2 in last.timers.pending ==> Fire(last, id2, timeout2, r2).effect == BecomeCandidate
  {
    VoteFreeKeepsNoVote(Fire(s, id, timeout1, r1).follower, inputs);
  }

  /** Running two input sequences one after the other is running their
      concatenation. */
  lemma {:induction false} RunSplits(s: Follower, a: seq<Input>, b: seq<Input>)
    ensures Run(s, a + b).last == Run(Run(s, a).last, b).last
    ensures Run(s, a + b).effects == Run(s, a).effects + Run(Run(s, a).last, b).effects
    decreases |a|
  {
    if a != [] {
      assert (a + b)[1..] == a[1..] + b;
      RunSplits(Step(s, a[0]).follower, a[1..], b);
    } else {
      assert a + b == b;
    }
  }
}

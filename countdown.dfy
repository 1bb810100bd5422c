/**
 * The local expiry countdown of an inbox session, as values: the component state pair
 * (`timer` in seconds, `timerExpired` latch), its (re-)initialisation from the session's expiry
 * time, and the one-second tick of the repeating interval.
 */
module Countdown {
  import opened Wrappers

  /** Timestamps are integer milliseconds; the countdown runs in whole seconds. */
  const MillisPerSecond: int := 1000

  datatype TimerState = TimerState(timer: int, expired: bool)

  /** The state before any initialisation: `useState(0)` and `useState(false)`. */
  const Start: TimerState := TimerState(0, false)

  /** The hook flags the tick effect depends on. */
  datatype Session = Session(isAuthenticated: bool, isExpired: bool, isDeleting: bool)

  /** One second's outcome; `fired` means `deleteInbox()` and one expiry toast were issued. */
  datatype TickOutcome = TickOutcome(state: TimerState, fired: bool)

  /** `Math.max(0, Math.floor((expiresAt - now) / 1000))`: whole seconds left, never negative. */
  function SecondsLeft(expiresAt: int, now: int): (r: nat)
    ensures r == 0 <==> expiresAt - now < MillisPerSecond
    ensures r > 0 ==> r * MillisPerSecond <= expiresAt - now < (r + 1) * MillisPerSecond
  {
    // Dafny's division by a positive constant rounds toward negative infinity, as Math.floor does.
    var whole := (expiresAt - now) / MillisPerSecond;
    if whole < 0 then 0 else whole
  }

  /** The initialisation effect, re-run whenever `expiresAt`, `isAuthenticated` or `isExpired` changes. */
  function Initialized(expiresAt: Option<int>, now: int, isAuthenticated: bool, isExpired: bool): (s: TimerState)
    ensures s.timer >= 0
    ensures s.expired <==>
      expiresAt.Some? && isAuthenticated && !isExpired && expiresAt.value - now < MillisPerSecond
    ensures s.timer > 0 <==>
      expiresAt.Some? && isAuthenticated && !isExpired && expiresAt.value - now >= MillisPerSecond
    ensures expiresAt.Some? && isAuthenticated && !isExpired ==> s.timer == SecondsLeft(expiresAt.value, now)
    ensures !(expiresAt.Some? && isAuthenticated && !isExpired) ==> s == Start
  {
    if expiresAt.Some? && isAuthenticated && !isExpired then
      var timeLeft := SecondsLeft(expiresAt.value, now);
      TimerState(timeLeft, timeLeft <= 0)
    else
      Start
  }

  /** The countdown effect installs its interval only under this guard. */
  predicate TickEnabled(s: TimerState, env: Session) {
    !(!env.isAuthenticated || env.isExpired || env.isDeleting || s.expired || s.timer <= 0)
  }

  /** The interval callback's functional update of `timer`, run unguarded. */
  function OnInterval(s: TimerState): (o: TickOutcome)
    ensures o.fired <==> s.timer <= 1
    ensures o.state.timer >= 0
    ensures o.fired ==> o.state == TimerState(0, true)
    ensures !o.fired ==> o.state == TimerState(s.timer - 1, s.expired)
  {
    var newTimer := s.timer - 1;
    if newTimer <= 0 then TickOutcome(TimerState(0, true), true)
    else TickOutcome(TimerState(newTimer, s.expired), false)
  }

  /** One second: the callback runs exactly when the guard holds at the effect's last run. */
  function Step(s: TimerState, env: Session): (o: TickOutcome)
    ensures o.fired <==> TickEnabled(s, env) && s.timer == 1
    ensures s.timer >= 0 ==> o.state.timer >= 0
    ensures o.fired ==> o.state == TimerState(0, true) && forall env' :: !TickEnabled(o.state, env')
    ensures TickEnabled(s, env) && !o.fired ==> o.state == TimerState(s.timer - 1, false)
    ensures !TickEnabled(s, env) ==> o == TickOutcome(s, false)
  {
    if TickEnabled(s, env) then OnInterval(s) else TickOutcome(s, false)
  }

  /** What can happen to the countdown: a run of the initialisation effect, or one second passing. */
  datatype Event =
    | Arm(expiresAt: Option<int>, now: int, isAuthenticated: bool, isExpired: bool)
    | Second(env: Session)

  function Apply(s: TimerState, e: Event): TickOutcome {
    match e
    case Arm(expiresAt, now, isAuthenticated, isExpired) =>
      TickOutcome(Initialized(expiresAt, now, isAuthenticated, isExpired), false)
    case Second(env) => Step(s, env)
  }

  /** The state after a sequence of events. */
  function Run(s: TimerState, evs: seq<Event>): TimerState
    decreases |evs|
  {
    if evs == [] then s else Run(Apply(s, evs[0]).state, evs[1..])
  }

  /** How often the expiry actions fire during a sequence of events. */
  function Fired(s: TimerState, evs: seq<Event>): nat
    decreases |evs|
  {
    if evs == [] then 0
    else (if Apply(s, evs[0]).fired then 1 else 0) + Fired(Apply(s, evs[0]).state, evs[1..])
  }

  /** How many re-initialisations a sequence of events holds. */
  function Arms(evs: seq<Event>): nat
  {
    if evs == [] then 0 else (if evs[0].Arm? then 1 else 0) + Arms(evs[1..])
  }

  /** `n` seconds passing with the same hook flags. */
  function Seconds(n: nat, env: Session): (evs: seq<Event>)
    ensures |evs| == n && Arms(evs) == 0
  {
    if n == 0 then [] else [Second(env)] + Seconds(n - 1, env)
  }

  /** The flags of a live session: authenticated, not expired on the server, not being deleted. */
  predicate Live(env: Session) {
    env.isAuthenticated && !env.isExpired && !env.isDeleting
  }

  /** The timer never goes negative. */
  lemma {:induction false} NeverNegative(s: TimerState, evs: seq<Event>)
    requires s.timer >= 0
    ensures Run(s, evs).timer >= 0
    decreases |evs|
  {
    if evs != [] {
      NeverNegative(Apply(s, evs[0]).state, evs[1..]);
    }
  }

  /** A latched or exhausted countdown stays as it is and fires nothing until it is re-initialised. */
  lemma {:induction false} DormantStaysDormant(s: TimerState, evs: seq<Event>)
    requires s.expired || s.timer <= 0
    requires Arms(evs) == 0
    ensures Run(s, evs) == s && Fired(s, evs) == 0
    decreases |evs|
  {
    if evs != [] {
      assert evs[0].Second?;
      assert Apply(s, evs[0]) == TickOutcome(s, false);
      DormantStaysDormant(s, evs[1..]);
    }
  }

  /** The expiry actions fire at most once per initialisation (plus once for a countdown already running). */
  lemma {:induction false} FiresAtMostOncePerArm(s: TimerState, evs: seq<Event>)
    ensures Fired(s, evs) <= Arms(evs) + (if s.expired then 0 else 1)
    decreases |evs|
  {
    if evs != [] {
      var o := Apply(s, evs[0]);
      FiresAtMostOncePerArm(o.state, evs[1..]);
      if evs[0].Second? && o.fired {
        assert !s.expired && o.state.expired;
      }
    }
  }

  /** Between two initialisations the expiry actions fire at most once. */
  lemma FiresAtMostOnce(s: TimerState, evs: seq<Event>)
    requires Arms(evs) == 0
    ensures Fired(s, evs) <= 1
    ensures s.expired ==> Fired(s, evs) == 0
  {
    FiresAtMostOncePerArm(s, evs);
  }

  /**
   * A live countdown started at `t` seconds counts down one per second; after `t` seconds it has
   * latched at zero and has fired exactly once.
   */
  lemma {:induction false} CountdownRunsOut(t: int, k: nat, env: Session)
    requires t > 0 && Live(env)
    ensures k < t ==>
      Run(TimerState(t, false), Seconds(k, env)) == TimerState(t - k, false) &&
      Fired(TimerState(t, false), Seconds(k, env)) == 0
    ensures k >= t ==>
      Run(TimerState(t, false), Seconds(k, env)) == TimerState(0, true) &&
      Fired(TimerState(t, false), Seconds(k, env)) == 1
    decreases k
  {
    if k > 0 {
      var evs := Seconds(k, env);
      assert evs[0] == Second(env) && evs[1..] == Seconds(k - 1, env);
      var o := Apply(TimerState(t, false), evs[0]);
      if t == 1 {
        assert o == TickOutcome(TimerState(0, true), true);
        DormantStaysDormant(o.state, evs[1..]);
      } else {
        assert o == TickOutcome(TimerState(t - 1, false), false);
        CountdownRunsOut(t - 1, k - 1, env);
      }
    }
  }

  /**
   * Initialising with less than one second left latches the countdown at zero: it never ticks and
   * never issues the expiry deletion.
   */
  lemma PastExpiryNeverFires(expiresAt: int, now: int, evs: seq<Event>)
    requires expiresAt - now < MillisPerSecond
    requires Arms(evs) == 0
    ensures Initialized(Some(expiresAt), now, true, false) == TimerState(0, true)
    ensures Fired(Initialized(Some(expiresAt), now, true, false), evs) == 0
  {
    DormantStaysDormant(Initialized(Some(expiresAt), now, true, false), evs);
  }
}

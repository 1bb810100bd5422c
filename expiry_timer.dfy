/**
 * The countdown as the component holds it: two pieces of state that its effects update in place,
 * and a ghost log of the actions the interval callback issues to the inbox hook.
 */
module InboxTimer {
  import opened Wrappers
  import opened Countdown

  /** Calls into code this model does not contain: the hook's `deleteInbox()` and the expiry toast. */
  datatype Effect = DeleteInbox | ExpiryToast

  class ExpiryTimer {
    var timer: int
    var timerExpired: bool

    /** Every action issued so far, in order. */
    ghost var effects: seq<Effect>
    /** Expiry deletions issued since the last initialisation. */
    ghost var sessionDeletions: nat

    ghost predicate Valid()
      reads this
    {
      timer >= 0 && sessionDeletions <= 1 && (!timerExpired ==> sessionDeletions == 0)
    }

    function State(): TimerState
      reads this
    {
      TimerState(timer, timerExpired)
    }

    constructor ()
      ensures Valid()
      ensures State() == Start && effects == [] && sessionDeletions == 0
    {
      timer := 0;
      timerExpired := false;
      effects := [];
      sessionDeletions := 0;
    }

    /** The initialisation effect: arm the countdown from the session's expiry time, or reset it. */
    method Init(expiresAt: Option<int>, now: int, isAuthenticated: bool, isExpired: bool)
      modifies this
      ensures Valid()
      ensures State() == Initialized(expiresAt, now, isAuthenticated, isExpired)
      ensures effects == old(effects) && sessionDeletions == 0
    {
      if expiresAt.Some? && isAuthenticated && !isExpired {
        var timeLeft := (expiresAt.value - now) / MillisPerSecond;
        if timeLeft < 0 {
          timeLeft := 0;
        }
        timer := timeLeft;
        timerExpired := timeLeft <= 0;
      } else {
        timer := 0;
        timerExpired := false;
      }
      sessionDeletions := 0;
    }

    /**
     * One second of the countdown effect: when its guard holds, the interval callback decrements the
     * timer, and on reaching zero latches `timerExpired` and issues the deletion and the toast.
     */
    method Tick(env: Session) returns (fired: bool)
      requires Valid()
      modifies this
      ensures Valid()
      ensures TickOutcome(State(), fired) == Step(old(State()), env)
      ensures effects == old(effects) + (if fired then [DeleteInbox, ExpiryToast] else [])
      ensures fired ==> old(sessionDeletions) == 0 && sessionDeletions == 1
      ensures !fired ==> sessionDeletions == old(sessionDeletions)
    {
      fired := false;
      if !env.isAuthenticated || env.isExpired || env.isDeleting || timerExpired || timer <= 0 {
        return;
      }
      var newTimer := timer - 1;
      if newTimer <= 0 {
        timerExpired := true;
        effects := effects + [DeleteInbox, ExpiryToast];
        sessionDeletions := sessionDeletions + 1;
        fired := true;
        timer := 0;
      } else {
        timer := newTimer;
      }
    }
  }

  /** A session armed with two seconds left deletes the inbox on the second tick, and only then. */
  method TwoSecondSession(now: int) returns (t: ExpiryTimer, first: bool, second: bool, third: bool)
    ensures !first && second && !third
    ensures t.effects == [DeleteInbox, ExpiryToast] && t.State() == TimerState(0, true)
  {
    t := new ExpiryTimer();
    t.Init(Some(now + 2 * MillisPerSecond), now, true, false);
    assert t.State() == TimerState(2, false);
    var live := Session(true, false, false);
    first := t.Tick(live);
    assert t.timer == 1;
    second := t.Tick(live);
    assert t.timerExpired;
    third := t.Tick(live);
    assert t.effects == [DeleteInbox, ExpiryToast];
  }
}

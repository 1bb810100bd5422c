/** Concrete sessions: the one-hour and the 500-second inbox, a catalogue with nothing usable, a malformed payload. */
module Scenarios {
  import opened Wrappers
  import opened Domains
  import opened Provisioning
  import opened Countdown
  import opened Display
  import opened Render

  /** Arming with `seconds` whole seconds left gives a running countdown at `seconds`. */
  lemma ArmedWith(now: int, seconds: nat)
    requires seconds > 0
    ensures Initialized(Some(now + seconds * MillisPerSecond), now, true, false) == TimerState(seconds, false)
  {
    assert SecondsLeft(now + seconds * MillisPerSecond, now) == seconds;
  }

  lemma SixtyMinutesChars()
    ensures [DigitChar(6), DigitChar(0), ':', DigitChar(0), DigitChar(0)] == "60:00"
  {
  }

  lemma OneHourText()
    ensures FormatCountdown(3600) == "60:00"
  {
    ClockDigits(3600, 60, 0, 6, 0, 0, 0);
    SixtyMinutesChars();
  }

  lemma EightMinutesTwentyChars()
    ensures [DigitChar(0), DigitChar(8), ':', DigitChar(2), DigitChar(0)] == "08:20"
  {
  }

  lemma FiveHundredSecondText()
    ensures FormatCountdown(500) == "08:20"
  {
    ClockDigits(500, 8, 20, 0, 8, 2, 0);
    EightMinutesTwentyChars();
  }

  lemma OneHourBar()
    ensures TierOf(3600) == High && Progress(3600) == 100.0
  {
  }

  /** An inbox armed with an hour left shows `60:00`, a full bar and the high tier. */
  lemma OneHourSession(now: int)
    ensures Initialized(Some(now + 3600 * MillisPerSecond), now, true, false) == TimerState(3600, false)
    ensures FormatCountdown(3600) == "60:00"
    ensures TierOf(3600) == High && Progress(3600) == 100.0
  {
    ArmedWith(now, 3600);
    OneHourText();
    OneHourBar();
  }

  /**
   * An inbox armed with 500 seconds left is in the low tier, shows `08:20`, and after 500 live
   * seconds has latched at zero having issued the expiry deletion exactly once.
   */
  lemma FiveHundredSecondSession(now: int, env: Session)
    requires Live(env)
    ensures Initialized(Some(now + 500 * MillisPerSecond), now, true, false) == TimerState(500, false)
    ensures TierOf(500) == Low && FormatCountdown(500) == "08:20"
    ensures Run(TimerState(500, false), Seconds(500, env)) == TimerState(0, true)
    ensures Fired(TimerState(500, false), Seconds(500, env)) == 1
  {
    ArmedWith(now, 500);
    FiveHundredSecondText();
    CountdownRunsOut(500, 500, env);
  }

  /** With only inactive or private domains no inbox is requested and the page says no domains are available. */
  lemma NoUsableDomains(s: Snapshot, t: TimerState)
    requires s.domains == Some([Domain("a.test", false, false), Domain("b.test", true, true)])
    requires !s.domainsLoading && !s.domainsError && !s.isAuthenticated && !s.isCreating
    ensures !ShouldAutoCreate(s.isAuthenticated, s.isCreating, s.domainsLoading, s.domainsError, s.domains)
    ensures PageOf(s, t) == AwaitingInbox(NoDomainsAvailable, NoEligibleDomains)
  {
    var ds := s.domains.value;
    assert !IsEligible(ds[0]) && !IsEligible(ds[1]);
    assert !HasEligible(ds);
  }

  /** An object where the message array belongs gives the format-error state. */
  lemma ObjectPayload()
    ensures PanelOf(false, false, None, NonArray("object")) == FormatError("object")
  {
  }
}

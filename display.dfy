/**
 * How the countdown is presented: the `mm:ss` badge text, its three colour tiers, the progress
 * bar's percentage and the condition under which badge and bar are shown.
 */
module Display {
  import opened Wrappers
  import opened Countdown

  predicate IsDigit(c: char) {
    '0' <= c <= '9'
  }

  predicate IsDigits(s: string) {
    forall i :: 0 <= i < |s| ==> IsDigit(s[i])
  }

  function DigitChar(d: nat): (c: char)
    requires d < 10
    ensures IsDigit(c)
  {
    (48 + d) as char
  }

  /** The value of a digit character; other characters count as zero. */
  function DigitValue(c: char): (d: nat)
    ensures IsDigit(c) ==> d < 10 && DigitChar(d) == c
  {
    if IsDigit(c) then c as int - 48 else 0
  }

  /** `n.toString()` for a non-negative integer: its decimal digits, with no leading zero. */
  function Decimal(n: nat): (s: string)
    ensures |s| >= 1 && IsDigits(s)
    ensures |s| == 1 <==> n < 10
    ensures n < 100 ==> |s| <= 2
    ensures n > 0 ==> s[0] != '0'
    decreases n
  {
    if n < 10 then [DigitChar(n)] else Decimal(n / 10) + [DigitChar(n % 10)]
  }

  /** The number a string of decimal digits denotes. */
  function ValueOf(s: string): nat
    decreases |s|
  {
    if s == [] then 0 else ValueOf(s[..|s| - 1]) * 10 + DigitValue(s[|s| - 1])
  }

  /** Reading back the decimal digits gives the number. */
  lemma {:induction false} DecimalRoundTrip(n: nat)
    ensures ValueOf(Decimal(n)) == n
    decreases n
  {
    if n >= 10 {
      var s := Decimal(n);
      assert s[..|s| - 1] == Decimal(n / 10);
      DecimalRoundTrip(n / 10);
    }
  }

  function Zeros(k: nat): (z: string)
    ensures |z| == k && IsDigits(z)
    ensures forall i :: 0 <= i < k ==> z[i] == '0'
  {
    if k == 0 then [] else ['0'] + Zeros(k - 1)
  }

  /** Leading zeros do not change the value. */
  lemma {:induction false} LeadingZeros(k: nat, s: string)
    requires IsDigits(s)
    ensures IsDigits(Zeros(k) + s) && ValueOf(Zeros(k) + s) == ValueOf(s)
    decreases k + |s|
  {
    var t := Zeros(k) + s;
    assert IsDigits(t) by {
      forall i | 0 <= i < |t| ensures IsDigit(t[i]) {
        if i >= k { assert t[i] == s[i - k]; }
      }
    }
    if s == [] {
      assert t == Zeros(k);
      if k > 0 {
        assert t[..|t| - 1] == Zeros(k - 1) + s;
        LeadingZeros(k - 1, s);
      }
    } else {
      assert t[..|t| - 1] == Zeros(k) + s[..|s| - 1];
      assert t[|t| - 1] == s[|s| - 1];
      LeadingZeros(k, s[..|s| - 1]);
    }
  }

  /** `padStart(2, '0')`: left-pad with zeros to length two; a longer string is kept as it is. */
  function PadStart2(s: string): (r: string)
    ensures |r| == if |s| >= 2 then |s| else 2
    ensures r[|r| - |s|..] == s
    ensures forall i :: 0 <= i < |r| - |s| ==> r[i] == '0'
  {
    if |s| >= 2 then s else Zeros(2 - |s|) + s
  }

  /** Padding a digit string keeps it a digit string of the same value. */
  lemma PadStart2Value(s: string)
    requires IsDigits(s)
    ensures IsDigits(PadStart2(s)) && ValueOf(PadStart2(s)) == ValueOf(s)
  {
    if |s| < 2 {
      LeadingZeros(2 - |s|, s);
    }
  }

  /** A field of the badge: a number's decimal digits padded to two places. */
  function Field(n: nat): (f: string)
    ensures |f| >= 2 && IsDigits(f) && ValueOf(f) == n
    ensures n < 100 ==> |f| == 2
  {
    DecimalRoundTrip(n);
    PadStart2Value(Decimal(n));
    PadStart2(Decimal(n))
  }

  /** Reads a badge text back into seconds; `None` for anything not of the form `mm:ss`. */
  function ParseCountdown(text: string): (r: Option<nat>)
  {
    if |text| >= 5 && text[|text| - 3] == ':' then ParseFields(text[..|text| - 3], text[|text| - 2..])
    else None
  }

  /** Minutes and seconds fields: digits only, seconds below 60. */
  function ParseFields(mm: string, ss: string): Option<nat>
  {
    if IsDigits(mm) && IsDigits(ss) && ValueOf(ss) < 60 then Some(ValueOf(mm) * 60 + ValueOf(ss))
    else None
  }

  /** The fields of `mm + ":" + ss` are found again by position from the end. */
  lemma SplitClock(mm: string, ss: string)
    requires |mm| >= 2 && |ss| == 2
    ensures ParseCountdown(mm + ":" + ss) == ParseFields(mm, ss)
  {
    var text := mm + ":" + ss;
    assert text[..|text| - 3] == mm;
    assert text[|text| - 2..] == ss;
  }

  /** The padded whole minutes and remaining seconds parse back as the timer. */
  lemma FieldsOfTimer(timer: nat, mm: string, ss: string)
    requires mm == Field(timer / 60) && ss == Field(timer % 60)
    ensures |mm| >= 2 && |ss| == 2 && ParseFields(mm, ss) == Some(timer)
  {
    assert ValueOf(mm) == timer / 60 && ValueOf(ss) == timer % 60 < 60;
  }

  /** The badge text `mm:ss`: `Math.floor(timer / 60)` and `timer % 60`, each padded to two places. */
  function FormatCountdown(timer: nat): string
  {
    Field(timer / 60) + ":" + Field(timer % 60)
  }

  /** The badge text always parses back as the timer. */
  lemma CountdownRoundTrip(timer: nat)
    ensures ParseCountdown(FormatCountdown(timer)) == Some(timer)
  {
    var mm, ss := Field(timer / 60), Field(timer % 60);
    FieldsOfTimer(timer, mm, ss);
    SplitClock(mm, ss);
  }

  /**
   * The fields of the badge text: the seconds field is exactly two digits reading `timer % 60`,
   * below 60; the minutes field has at least two digits and reads `timer / 60`.
   */
  lemma CountdownFields(timer: nat)
    ensures var text := FormatCountdown(timer);
      |text| >= 5 && text[|text| - 3] == ':' &&
      IsDigits(text[..|text| - 3]) && ValueOf(text[..|text| - 3]) == timer / 60 &&
      IsDigits(text[|text| - 2..]) && ValueOf(text[|text| - 2..]) == timer % 60 < 60
  {
    CountdownRoundTrip(timer);
    ParsedFields(FormatCountdown(timer), timer);
  }

  /** Any text that parses as `timer` carries its whole minutes and its seconds in the two fields. */
  lemma ParsedFields(text: string, timer: nat)
    requires ParseCountdown(text) == Some(timer)
    ensures |text| >= 5 && text[|text| - 3] == ':'
    ensures IsDigits(text[..|text| - 3]) && ValueOf(text[..|text| - 3]) == timer / 60
    ensures IsDigits(text[|text| - 2..]) && ValueOf(text[|text| - 2..]) == timer % 60 < 60
  {
    DivModUnique(timer, ValueOf(text[..|text| - 3]), ValueOf(text[|text| - 2..]));
  }

  lemma DivModUnique(n: nat, q: nat, r: nat)
    requires q * 60 + r == n && r < 60
    ensures q == n / 60 && r == n % 60
  {
  }

  /** Different remaining times never show the same text. */
  lemma CountdownTextInjective(a: nat, b: nat)
    requires FormatCountdown(a) == FormatCountdown(b)
    ensures a == b
  {
    CountdownRoundTrip(a);
    CountdownRoundTrip(b);
  }

  /** A number below 100 is written with exactly its tens and units digit once padded. */
  lemma TwoPlaces(n: nat)
    requires n < 100
    ensures Field(n) == [DigitChar(n / 10), DigitChar(n % 10)]
  {
    if n < 10 {
      assert Decimal(n) == [DigitChar(n)];
      ZeroDigit();
    } else {
      TwoDigits(n);
    }
  }

  lemma ZeroDigit()
    ensures DigitChar(0) == '0'
  {
  }

  lemma TwoDigits(n: nat)
    requires 10 <= n < 100
    ensures Decimal(n) == [DigitChar(n / 10), DigitChar(n % 10)]
  {
    assert Decimal(n / 10) == [DigitChar(n / 10)];
  }

  /**
   * Below 100 minutes the badge text is five characters: the tens and units digit `a`, `b` of
   * the whole minutes `q`, a colon, and the tens and units digit `c`, `d` of the seconds `r`.
   */
  lemma ClockDigits(timer: nat, q: nat, r: nat, a: nat, b: nat, c: nat, d: nat)
    requires q == timer / 60 && r == timer % 60 && q < 100
    requires a == q / 10 && b == q % 10 && c == r / 10 && d == r % 10
    ensures FormatCountdown(timer) == [DigitChar(a), DigitChar(b), ':', DigitChar(c), DigitChar(d)]
  {
    TwoPlaces(q);
    assert Field(q) == [DigitChar(a), DigitChar(b)];
    TwoPlaces(r);
    assert Field(r) == [DigitChar(c), DigitChar(d)];
    assert FormatCountdown(timer) == Field(q) + ":" + Field(r);
  }

  /** The badge colour and the bar colour: green, yellow, red. */
  datatype Tier = High | Mid | Low

  const HighAbove: int := 1800  // 30 minutes
  const MidAbove: int := 600    // 10 minutes

  function TierOf(timer: int): (t: Tier)
    ensures t == High <==> timer > HighAbove
    ensures t == Mid <==> MidAbove < timer <= HighAbove
    ensures t == Low <==> timer <= MidAbove
  {
    if timer > HighAbove then High else if timer > MidAbove then Mid else Low
  }

  function Severity(t: Tier): nat {
    match t
    case High => 0
    case Mid => 1
    case Low => 2
  }

  /** Less time left is never a milder tier. */
  lemma TierMonotone(a: int, b: int)
    requires a <= b
    ensures Severity(TierOf(a)) >= Severity(TierOf(b))
  {
  }

  /** The fixed session lifetime the progress bar is measured against, in seconds. */
  const TotalDuration: int := 3600

  /** `Math.max(0, timer / 3600 * 100)`, in exact arithmetic; it is clamped below only. */
  function Progress(timer: int): (p: real)
    ensures p >= 0.0
    ensures timer >= 0 ==> p * (TotalDuration as real) == (timer as real) * 100.0
    ensures p > 100.0 <==> timer > TotalDuration
    ensures p == 0.0 <==> timer <= 0
  {
    var raw := (timer as real / TotalDuration as real) * 100.0;
    if raw < 0.0 then 0.0 else raw
  }

  /** Badge and progress bar are shown under the same condition. */
  predicate CountdownShown(isAuthenticated: bool, isExpired: bool, timerExpired: bool, timer: int) {
    isAuthenticated && !isExpired && !timerExpired && timer > 0
  }

  /** What the header shows while the countdown is visible. */
  datatype Badge = Badge(text: string, tier: Tier, progress: real)

  function BadgeFor(isAuthenticated: bool, isExpired: bool, s: TimerState): (b: Option<Badge>)
    ensures b.Some? <==> CountdownShown(isAuthenticated, isExpired, s.expired, s.timer)
    ensures b.Some? ==> ParseCountdown(b.value.text) == Some(s.timer as nat)
    ensures b.Some? ==> b.value.text == FormatCountdown(s.timer) && b.value.progress == Progress(s.timer)
    ensures b.Some? ==> b.value.tier == TierOf(s.timer) && 0.0 < b.value.progress
  {
    if CountdownShown(isAuthenticated, isExpired, s.expired, s.timer) then
      CountdownRoundTrip(s.timer);
      Some(Badge(FormatCountdown(s.timer), TierOf(s.timer), Progress(s.timer)))
    else None
  }

  /** The countdown is visible, and no deletion is in flight, exactly when it is ticking. */
  lemma ShownExactlyWhenTicking(s: TimerState, env: Session)
    ensures CountdownShown(env.isAuthenticated, env.isExpired, s.expired, s.timer) && !env.isDeleting
            <==> TickEnabled(s, env)
  {
  }
}

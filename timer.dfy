/** The countdown timer (src/lib/timer.svelte.ts).

    The closure variables of `createTimer` are the fields of a class. The
    interval callback is the method `Tick`, given the time elapsed since
    `start` (the clock is not modelled); the interval exists exactly while
    the timer runs, so `Tick` is only called then. The completion `$effect`
    is the method `CompletionEffect`, run after each assignment it depends
    on. The completion callback is not modelled as code; the field
    `completions` counts how often it has been called. */
module Timer {
  import opened JsBuiltins

  /** `Math.max(0, initialValue - elapsed)`: the value after a tick. */
  function TickValue(initialValue: int, elapsed: int): (v: int)
    ensures v >= 0
    ensures v == 0 || v == initialValue - elapsed
    ensures v >= initialValue - elapsed
    ensures v == 0 <==> initialValue - elapsed <= 0
    ensures elapsed >= 0 && initialValue >= 0 ==> v <= initialValue
  {
    if initialValue - elapsed > 0 then initialValue - elapsed else 0
  }

  /** As time goes on, the value does not go up. */
  lemma TickValueMonotone(initialValue: int, earlier: int, later: int)
    requires earlier <= later
    ensures TickValue(initialValue, later) <= TickValue(initialValue, earlier)
  {
  }

  /** JavaScript's `v % 1000`: the remainder takes the sign of `v` (unlike
      Dafny's `%`, which is never negative). */
  function JsRemainder1000(v: int): (r: int)
    ensures v >= 0 ==> 0 <= r < 1000
    ensures v < 0 ==> -1000 < r <= 0
    ensures (v - r) % 1000 == 0
  {
    if v >= 0 then v % 1000 else -((-v) % 1000)
  }

  /** `formatTime` for the value `v`: `Math.floor(v / 1000)`, a dot, and
      `v % 1000` padded to three characters with zeros. */
  function FormatMs(v: int): string {
    IntToString(v / 1000) + "." + PadStart(IntToString(JsRemainder1000(v)), 3, '0')
  }

  /** `s` shows `v` milliseconds as whole seconds without a leading zero, a
      dot, and exactly three digits of milliseconds. */
  predicate ShowsSeconds(s: string, v: int) {
    var k := |s| - 4;
    && k >= 1 && s[k] == '.'
    && AllDigits(s[..k]) && AllDigits(s[k + 1..])
    && ParseDigits(s[..k]) * 1000 + ParseDigits(s[k + 1..]) == v
    && (k > 1 ==> s[0] != '0')
  }

  /** For `v >= 0` the text is the whole seconds, with no leading zero, a
      dot and exactly three digits of milliseconds, and reading it back
      gives `v`. */
  lemma FormatMsRoundTrip(v: int)
    requires v >= 0
    ensures ShowsSeconds(FormatMs(v), v)
  {
    var q, m := v / 1000, v % 1000;
    var secs, frac := NatToString(q), PadStart(NatToString(m), 3, '0');
    assert FormatMs(v) == secs + "." + frac;
    PaddedMillis(m);
    ParseNatToString(q);
    SplitAtDot(FormatMs(v), secs, frac, q, m, v);
  }

  /** The padded millisecond part is three digits that read back as `m`. */
  lemma PaddedMillis(m: nat)
    requires m < 1000
    ensures var f := PadStart(NatToString(m), 3, '0');
            |f| == 3 && AllDigits(f) && ParseDigits(f) == m
  {
    var t := NatToString(m);
    NatToStringShort(m);
    assert PadStart(t, 3, '0') == Repeat('0', 3 - |t|) + t;
    ParseLeadingZeros(3 - |t|, t);
    ParseNatToString(m);
  }

  /** `secs + "." + frac` with a three-digit `frac` splits back into its
      two numbers. */
  lemma SplitAtDot(s: string, secs: string, frac: string, q: nat, m: nat, v: int)
    requires s == secs + "." + frac && v == q * 1000 + m
    requires |secs| >= 1 && |frac| == 3 && AllDigits(secs) && AllDigits(frac)
    requires ParseDigits(secs) == q && ParseDigits(frac) == m
    requires |secs| > 1 ==> secs[0] != '0'
    ensures ShowsSeconds(s, v)
  {
    assert s[..|secs|] == secs;
    assert s[|secs| + 1..] == frac;
  }

  /** A negative value, which `createTimer` or `reset` with a negative
      duration or the `valueMs` setter can store, prints a negative
      remainder: -1500 shows as "-2.-500". */
  lemma FormatMsNegative()
    ensures FormatMs(-1500) == "-2.-500"
  {
    assert -1500 / 1000 == -2;
    assert JsRemainder1000(-1500) == -500;
    var secs := IntToString(-2);
    var ms := IntToString(-500);
    assert secs == "-2" by {
      assert NatToString(2) == "2";
    }
    assert ms == "-500" by {
      assert NatToString(5) == "5";
      assert NatToString(50) == "50";
      assert NatToString(500) == "500";
    }
    assert PadStart(ms, 3, '0') == ms;
    assert FormatMs(-1500) == secs + "." + ms;
  }

  class Timer {
    /** The duration the timer was created with. */
    const milliseconds: int
    var valueMs: int
    var isRunning: bool
    /** `valueMs` when the timer was last started. */
    var initialValue: int
    /** How often the completion callback has been called. */
    var completions: nat

    /** The completion effect has nothing left to do, and a running timer
        was started from a positive value. */
    predicate Valid()
      reads this
    {
      !(valueMs <= 0 && isRunning) && (isRunning ==> initialValue > 0)
    }

    /** `createTimer(milliseconds)`: stopped, at the full duration. */
    constructor (milliseconds: int)
      ensures this.milliseconds == milliseconds && valueMs == milliseconds
      ensures !isRunning && completions == 0
      ensures Valid()
    {
      this.milliseconds := milliseconds;
      valueMs := milliseconds;
      isRunning := false;
      initialValue := milliseconds;
      completions := 0;
    }

    /** The completion `$effect`: a running timer whose value has reached
        0 stops and calls the completion callback once. */
    method CompletionEffect()
      requires isRunning ==> initialValue > 0
      modifies this`isRunning, this`completions
      ensures old(valueMs <= 0 && isRunning) ==> !isRunning && completions == old(completions) + 1
      ensures !old(valueMs <= 0 && isRunning) ==> isRunning == old(isRunning) && completions == old(completions)
      ensures Valid()
    {
      if valueMs <= 0 && isRunning {
        isRunning := false;
        completions := completions + 1;
      }
    }

    /** `start`: only a stopped timer with time left starts, remembering
        the value it starts from. */
    method Start()
      requires Valid()
      modifies this`isRunning, this`initialValue
      ensures old(!isRunning && valueMs > 0) ==> isRunning && initialValue == valueMs
      ensures !old(!isRunning && valueMs > 0) ==> isRunning == old(isRunning) && initialValue == old(initialValue)
      ensures Valid()
    {
      if !isRunning && valueMs > 0 {
        isRunning := true;
        initialValue := valueMs;
      }
    }

    /** One run of the interval callback, `elapsed` milliseconds after the
        start, followed by the completion effect. The value never rises
        above the start value, and the timer stops, with one completion,
        exactly when the value reaches 0. */
    method Tick(elapsed: int)
      requires Valid() && isRunning
      modifies this`valueMs, this`isRunning, this`completions
      ensures valueMs == TickValue(initialValue, elapsed)
      ensures elapsed >= 0 ==> 0 <= valueMs <= initialValue
      ensures !isRunning <==> valueMs == 0
      ensures completions == old(completions) + (if valueMs == 0 then 1 else 0)
      ensures valueMs > 0 ==> ElapsedMs() == milliseconds - initialValue + elapsed
      ensures Valid()
    {
      valueMs := TickValue(initialValue, elapsed);
      CompletionEffect();
    }

    /** The `valueMs` setter, followed by the completion effect: setting a
        running timer to 0 or below completes it; a stopped timer never
        completes. */
    method SetValueMs(value: int)
      requires Valid()
      modifies this`valueMs, this`isRunning, this`completions
      ensures valueMs == value
      ensures old(isRunning) && value <= 0 ==> !isRunning && completions == old(completions) + 1
      ensures !(old(isRunning) && value <= 0) ==> isRunning == old(isRunning) && completions == old(completions)
      ensures Valid()
    {
      valueMs := value;
      CompletionEffect();
    }

    /** `stop`: the timer is stopped and keeps its value. */
    method Stop()
      requires Valid()
      modifies this`isRunning
      ensures !isRunning
      ensures Valid()
    {
      if isRunning {
        isRunning := false;
      }
    }

    /** `reset`: stopped, at the full duration again. */
    method Reset()
      requires Valid()
      modifies this`isRunning, this`valueMs
      ensures !isRunning && valueMs == milliseconds
      ensures ElapsedMs() == 0
      ensures Valid()
    {
      isRunning := false;
      valueMs := milliseconds;
    }

    /** The `elapsedMs` getter: how much of the duration has gone. */
    function ElapsedMs(): (r: int)
      reads this
      ensures r + valueMs == milliseconds
    {
      milliseconds - valueMs
    }

    /** `formatTime` on the current value. */
    function FormatTime(): (r: string)
      reads this
      ensures valueMs >= 0 ==> ShowsSeconds(r, valueMs)
    {
      var r := FormatMs(valueMs);
      if valueMs >= 0 then
        FormatMsRoundTrip(valueMs);
        r
      else
        r
    }
  }

  /** A timer started at the full duration and ticked `elapsed`
      milliseconds later, before the end: it is still running, and
      `elapsedMs` reads back the time that has gone. */
  method ElapsedAfterTick(duration: int, elapsed: int) returns (t: Timer)
    requires 0 <= elapsed < duration
    ensures t.ElapsedMs() == elapsed
    ensures t.isRunning && t.valueMs == duration - elapsed && t.completions == 0
  {
    t := new Timer(duration);
    t.Start();
    t.Tick(elapsed);
  }

  /** A full countdown: started at the full duration, a tick at or after
      the duration completes the timer once, and it cannot start again
      before a reset or a new value. */
  method CountDown(duration: int, elapsed: int) returns (t: Timer)
    requires duration > 0 && elapsed >= duration
    ensures !t.isRunning && t.valueMs == 0 && t.completions == 1
  {
    t := new Timer(duration);
    t.Start();
    t.Tick(elapsed);
    t.Start();
  }
}

/** pomo.py: a terminal pomodoro timer. Each frame shows a bar of filled and
    empty blocks and the time left as MM:SS; the loop ends once the elapsed
    time passes the total, and a final line shows the full bar at 00:00.
    The clock is a parameter: the whole seconds elapsed at each pass of the
    loop, in order. Sleeping, flushing the terminal and the float division
    behind the bar are not modelled (see the README). */
module Pomo {
  import opened Strings

  const DefaultMinutes := 25
  const DefaultBarWidth := 30

  const FullBlock: char := '\U{2588}'
  const LightShade: char := '\U{2591}'

  // ----- format_time -----

  /** f"{n:02d}": at least two characters, zero padded; a negative number
      already has two characters with its sign. */
  function TwoDigits(n: int): (r: string)
    ensures |r| >= 2
  {
    if n < 0 then "-" + Decimal(-n)
    else if n < 10 then "0" + Decimal(n)
    else Decimal(n)
  }

  /** format_time: divmod by 60 rounds towards minus infinity, so the seconds
      field is always in 0..59. Dafny's / and % agree with that for the
      positive divisor 60. */
  function FormatTime(secondsLeft: int): string {
    TwoDigits(secondsLeft / 60) + ":" + TwoDigits(secondsLeft % 60)
  }

  /** For a non-negative count the text reads back as minutes and seconds:
      digits, a colon, two digits under 60, and minutes * 60 + seconds is the
      count. */
  lemma {:induction false} FormatTimeReadsBack(x: nat)
    ensures var r := FormatTime(x);
      |r| >= 5 && r[|r| - 3] == ':'
      && AllDigits(r[..|r| - 3]) && AllDigits(r[|r| - 2..])
      && DigitsValue(r[|r| - 2..]) < 60
      && DigitsValue(r[..|r| - 3]) * 60 + DigitsValue(r[|r| - 2..]) == x
  {
    var m, s := x / 60, x % 60;
    var r := FormatTime(x);
    TwoDigitsReadsBack(m);
    TwoDigitsReadsBack(s);
    assert r[..|r| - 3] == TwoDigits(m);
    assert r[|r| - 2..] == TwoDigits(s) by {
      assert |TwoDigits(s)| == 2;
    }
  }

  lemma {:induction false} TwoDigitsReadsBack(n: nat)
    ensures AllDigits(TwoDigits(n)) && DigitsValue(TwoDigits(n)) == n
  {
    DecimalRoundTrip(n);
    if n < 10 {
      LeadingZero(Decimal(n));
    }
  }

  /** Below 100 minutes the text is exactly MM:SS. */
  lemma {:induction false} FormatTimeIsFiveCharacters(x: nat)
    requires x < 6000
    ensures |FormatTime(x)| == 5
  {
    assert x / 60 < 100;
  }

  // ----- the bar -----

  /** "█" * filled + "░" * (width - filled) */
  function Bar(filled: int, width: int): (r: string)
    ensures |r| == (if filled <= 0 then 0 else filled) + (if width - filled <= 0 then 0 else width - filled)
    ensures forall i :: 0 <= i < |r| ==> r[i] == (if i < filled then FullBlock else LightShade)
  {
    Repeat(FullBlock, filled) + Repeat(LightShade, width - filled)
  }

  /** With 0 <= filled <= width the bar is exactly width blocks. */
  lemma {:induction false} BarHasWidth(filled: int, width: int)
    requires 0 <= filled <= width
    ensures |Bar(filled, width)| == width
    ensures forall i :: 0 <= i < width ==> (Bar(filled, width)[i] == FullBlock <==> i < filled)
  {
    assert FullBlock != LightShade;
  }

  function Abs(n: int): nat {
    if n < 0 then -n else n
  }

  /** int(a / b) truncates the quotient towards zero. */
  function Truncate(a: int, b: int): int
    requires b != 0
  {
    var q := Abs(a) / Abs(b);
    if (a < 0) == (b < 0) then q else -q
  }

  /** filled = int(bar_width * progress), where progress is elapsed / total,
      or 1 for a timer of length zero. The float division is taken exact. */
  function Filled(barWidth: int, totalSeconds: int, elapsed: int): int {
    if totalSeconds == 0 then barWidth else Truncate(barWidth * elapsed, totalSeconds)
  }

  /** While the timer runs, the bar fills from none to all of its width. */
  lemma {:induction false} FilledInRange(barWidth: nat, totalSeconds: nat, elapsed: nat)
    requires elapsed <= totalSeconds
    ensures 0 <= Filled(barWidth, totalSeconds, elapsed) <= barWidth
    ensures elapsed == totalSeconds ==> Filled(barWidth, totalSeconds, elapsed) == barWidth
    ensures elapsed == 0 ==> Filled(barWidth, totalSeconds, elapsed) == (if totalSeconds == 0 then barWidth else 0)
  {
    if totalSeconds > 0 {
      var x := barWidth * elapsed;
      MultiplyMonotone(barWidth, elapsed, totalSeconds);
      QuotientBound(x, totalSeconds, barWidth);
      if elapsed == totalSeconds {
        TruncateExact(barWidth, totalSeconds);
      }
    }
  }

  lemma {:induction false} MultiplyMonotone(a: nat, b: nat, c: nat)
    requires b <= c
    ensures a * b <= a * c
  {
    var d := c - b;
    assert a * c == a * b + a * d;
  }

  /** x <= n * t gives x / t <= n. */
  lemma {:induction false} QuotientBound(x: nat, t: nat, n: nat)
    requires t > 0 && x <= n * t
    ensures 0 <= x / t <= n
  {
    var q := x / t;
    assert q * t <= x by {
      assert x == q * t + x % t;
    }
    if q > n {
      MultiplyMonotone(t, n + 1, q);
      assert false;
    }
  }

  // ----- pomodoro -----

  /** f"\r[{bar}] {timer_str}" */
  function Line(bar: string, timer: string): string {
    "\r[" + bar + "] " + timer
  }

  /** The frame printed for one reading of the clock. */
  function Frame(barWidth: int, totalSeconds: int, elapsed: int): string {
    Line(Bar(Filled(barWidth, totalSeconds, elapsed), barWidth), FormatTime(totalSeconds - elapsed))
  }

  const DoneMark := "  \U{2705} Done!"

  function DoneLine(barWidth: int): string {
    Line(Repeat(FullBlock, barWidth), "00:00") + DoneMark
  }

  const CancelLine := "\nTimer cancelled."

  /** What a session prints for the remaining clock readings: a frame per
      reading up to the total, the done line at the first reading past it,
      and the cancel line if the readings stop first (the user pressed
      Ctrl-C). */
  function Session(barWidth: int, totalSeconds: int, clock: seq<int>): seq<string> {
    if clock == [] then [CancelLine]
    else if clock[0] > totalSeconds then [DoneLine(barWidth)]
    else [Frame(barWidth, totalSeconds, clock[0])] + Session(barWidth, totalSeconds, clock[1..])
  }

  /** pomodoro(minutes, bar_width), with the clock readings as a parameter. */
  method Pomodoro(minutes: int, barWidth: int, clock: seq<int>) returns (out: seq<string>)
    ensures out == Session(barWidth, minutes * 60, clock)
  {
    var totalSeconds := minutes * 60;
    out := [];
    var i := 0;
    while i < |clock|
      invariant 0 <= i <= |clock|
      invariant out + Session(barWidth, totalSeconds, clock[i..]) == Session(barWidth, totalSeconds, clock)
    {
      var elapsed := clock[i];
      SessionStep(barWidth, totalSeconds, clock, i);
      if elapsed > totalSeconds {
        out := out + [DoneLine(barWidth)];
        return;
      }
      var remaining := totalSeconds - elapsed;
      var filled := Filled(barWidth, totalSeconds, elapsed);
      var bar := Bar(filled, barWidth);
      var timerStr := FormatTime(remaining);
      out := out + [Line(bar, timerStr)];
      i := i + 1;
    }
    out := out + [CancelLine];
  }

  /** One reading of the clock, as the loop takes it. */
  lemma {:induction false} SessionStep(barWidth: int, totalSeconds: int, clock: seq<int>, i: nat)
    requires i < |clock|
    ensures clock[i] > totalSeconds ==> Session(barWidth, totalSeconds, clock[i..]) == [DoneLine(barWidth)]
    ensures clock[i] <= totalSeconds ==>
      Session(barWidth, totalSeconds, clock[i..]) == [Frame(barWidth, totalSeconds, clock[i])] + Session(barWidth, totalSeconds, clock[i + 1..])
  {
    assert clock[i..][0] == clock[i];
    assert clock[i..][1..] == clock[i + 1..];
  }

  // ----- properties of a session -----

  /** The frames are those of the readings before the first one past the
      total, in order, and each shows a time left that is not negative. */
  lemma {:induction false} FramesBeforeTheEnd(barWidth: int, totalSeconds: int, clock: seq<int>, k: nat)
    requires k < |Session(barWidth, totalSeconds, clock)| - 1
    ensures k < |clock| && clock[k] <= totalSeconds
    ensures Session(barWidth, totalSeconds, clock)[k] == Frame(barWidth, totalSeconds, clock[k])
    ensures totalSeconds - clock[k] >= 0
    decreases k
  {
    if k > 0 {
      FramesBeforeTheEnd(barWidth, totalSeconds, clock[1..], k - 1);
    }
  }

  /** The session ends with the done line exactly when some reading passes
      the total; otherwise it was cancelled. */
  lemma {:induction false} SessionEnding(barWidth: int, totalSeconds: int, clock: seq<int>)
    ensures var s := Session(barWidth, totalSeconds, clock);
      s != []
      && (s[|s| - 1] == DoneLine(barWidth) <==> exists k :: 0 <= k < |clock| && clock[k] > totalSeconds)
      && (s[|s| - 1] == CancelLine <==> forall k :: 0 <= k < |clock| ==> clock[k] <= totalSeconds)
  {
    SessionLast(barWidth, totalSeconds, clock);
    assert DoneLine(barWidth) != CancelLine by {
      assert DoneLine(barWidth)[0] != CancelLine[0];
    }
  }

  /** Some reading is past the total. */
  ghost predicate Passes(totalSeconds: int, clock: seq<int>) {
    exists k :: 0 <= k < |clock| && clock[k] > totalSeconds
  }

  lemma PassesTail(totalSeconds: int, clock: seq<int>)
    requires clock != [] && clock[0] <= totalSeconds
    ensures Passes(totalSeconds, clock) <==> Passes(totalSeconds, clock[1..])
  {
    if Passes(totalSeconds, clock[1..]) {
      var k :| 0 <= k < |clock[1..]| && clock[1..][k] > totalSeconds;
      assert clock[k + 1] > totalSeconds;
    }
    if Passes(totalSeconds, clock) {
      var k :| 0 <= k < |clock| && clock[k] > totalSeconds;
      assert clock[1..][k - 1] > totalSeconds;
    }
  }

  /** The last line is the done line when some reading passes the total and
      the cancel line otherwise. */
  lemma {:induction false} SessionLast(barWidth: int, totalSeconds: int, clock: seq<int>)
    ensures Session(barWidth, totalSeconds, clock) != []
    ensures var s := Session(barWidth, totalSeconds, clock);
      s[|s| - 1] == if Passes(totalSeconds, clock) then DoneLine(barWidth) else CancelLine
    decreases |clock|
  {
    if clock != [] {
      if clock[0] > totalSeconds {
        assert Passes(totalSeconds, clock) by {
          assert 0 < |clock| && clock[0] > totalSeconds;
        }
      } else {
        SessionLast(barWidth, totalSeconds, clock[1..]);
        PassesTail(totalSeconds, clock);
      }
    }
  }

  /** The done line is the frame of a finished timer, full bar and 00:00,
      followed by the tick and "Done!". */
  lemma {:induction false} DoneLineIsFinalFrame(barWidth: int, totalSeconds: nat)
    ensures DoneLine(barWidth) == Frame(barWidth, totalSeconds, totalSeconds) + DoneMark
  {
    FilledWhenDone(barWidth, totalSeconds);
    assert Bar(barWidth, barWidth) == Repeat(FullBlock, barWidth) by {
      assert Repeat(LightShade, 0) == [];
    }
    assert FormatTime(0) == "00:00";
  }

  /** At the end the bar is full, whatever its width. */
  lemma {:induction false} FilledWhenDone(barWidth: int, totalSeconds: nat)
    ensures Filled(barWidth, totalSeconds, totalSeconds) == barWidth
  {
    if totalSeconds > 0 {
      TruncateExact(barWidth, totalSeconds);
    }
  }

  lemma {:induction false} TruncateExact(a: int, b: int)
    requires b > 0
    ensures Truncate(a * b, b) == a
  {
    if a >= 0 {
      ExactQuotient(a, b);
    } else {
      assert Abs(a * b) == (-a) * b;
      ExactQuotient(-a, b);
    }
  }

  lemma {:induction false} ExactQuotient(n: nat, b: nat)
    requires b > 0
    ensures (n * b) / b == n
  {
    var q, r := (n * b) / b, (n * b) % b;
    assert n * b == q * b + r && 0 <= r < b;
    if q < n {
      MultiplyMonotone(b, q + 1, n);
      assert false;
    } else if q > n {
      MultiplyMonotone(b, n + 1, q);
      assert false;
    }
  }
}

/**
 * The two `formatTime` helpers: the service's notification text and the
 * activity's timer text. Both split milliseconds into hours, minutes and
 * seconds with truncating JVM arithmetic and print them with `%02d`.
 */
module TimeFormat {
  import opened Numbers

  /** The fields `%s%02d:%02d:%02d` is applied to. */
  datatype Hms = Hms(negative: bool, hours: int, minutes: int, seconds: int)

  /**
   * `TimerService.formatTime(timeMs, isNegative)` before printing:
   * whole seconds, then hours, minutes within the hour, seconds within the
   * minute. The fields recompose the whole seconds for every input.
   */
  function ServiceClock(timeMs: int, isNegative: bool): (h: Hms)
    ensures h.negative == isNegative
    ensures h.hours * 3600 + h.minutes * 60 + h.seconds == Quot(timeMs, 1000)
    ensures -60 < h.minutes < 60 && -60 < h.seconds < 60
    ensures timeMs >= 0 ==> h.hours >= 0 && h.minutes >= 0 && h.seconds >= 0
    ensures timeMs <= 0 ==> h.hours <= 0 && h.minutes <= 0 && h.seconds <= 0
  {
    var total := Quot(timeMs, 1000);
    var h := Hms(isNegative, Quot(total, 3600), Quot(Rem(total, 3600), 60), Rem(total, 60));
    SecondsSplit(total);
    h
  }

  /** Splitting whole seconds through the hour first lands on the same seconds field. */
  lemma SecondsSplit(total: int)
    ensures Quot(total, 3600) * 3600 + Quot(Rem(total, 3600), 60) * 60 + Rem(total, 60) == total
    ensures -60 < Quot(Rem(total, 3600), 60) < 60
    ensures total >= 0 ==> Quot(Rem(total, 3600), 60) >= 0
    ensures total <= 0 ==> Quot(Rem(total, 3600), 60) <= 0
  {
    if total >= 0 {
      SecondsSplitNat(total);
    } else {
      SecondsSplitNat(-total);
      QuotOdd(total, 3600);
      QuotOdd(total, 60);
      QuotOdd(Rem(total, 3600), 60);
    }
  }

  lemma SecondsSplitNat(t: nat)
    ensures Quot(t, 3600) * 3600 + Quot(Rem(t, 3600), 60) * 60 + Rem(t, 60) == t
    ensures 0 <= Quot(Rem(t, 3600), 60) < 60
  {
    var hours, within := t / 3600, t % 3600;
    assert Quot(t, 3600) == hours && Rem(t, 3600) == within;
    var minutes, seconds := within / 60, within % 60;
    assert t == hours * 3600 + minutes * 60 + seconds;
    assert t / 60 == hours * 60 + minutes;
    assert Rem(t, 60) == seconds;
  }

  /**
   * `MainActivity.formatTime(millis)` before printing: `toHours`,
   * `toMinutes % 60` and `toSeconds % 60`, all truncating.
   */
  function ActivityClock(millis: int): (h: Hms)
    ensures !h.negative
    ensures -60 < h.minutes < 60 && -60 < h.seconds < 60
    ensures millis >= 0 ==> h.hours >= 0 && h.minutes >= 0 && h.seconds >= 0
    ensures millis <= 0 ==> h.hours <= 0 && h.minutes <= 0 && h.seconds <= 0
  {
    Hms(false, Quot(millis, 3_600_000), Rem(Quot(millis, 60_000), 60), Rem(Quot(millis, 1000), 60))
  }

  /**
   * The activity's split agrees with the service's split without the
   * sign flag, for every input including negative ones.
   */
  lemma {:induction false} ClocksAgree(millis: int)
    ensures ActivityClock(millis) == ServiceClock(millis, false)
  {
    if millis >= 0 {
      ClocksAgreeNat(millis);
    } else {
      ClocksAgreeNat(-millis);
      QuotOdd(millis, 1000);
      QuotOdd(millis, 60_000);
      QuotOdd(millis, 3_600_000);
      var s := Quot(-millis, 1000);
      QuotOdd(s, 3600);
      QuotOdd(s, 60);
      QuotOdd(Rem(s, 3600), 60);
      QuotOdd(Quot(-millis, 60_000), 60);
    }
  }

  lemma ClocksAgreeNat(m: nat)
    ensures ActivityClock(m) == ServiceClock(m, false)
  {
    var s := m / 1000;
    assert Quot(m, 1000) == s;
    NestedDiv(m, s, m % 1000, 1000, 60);
    NestedDiv(m, s, m % 1000, 1000, 3600);
    WithinHour(s);
  }

  /** Dividing by `b` and then by `c` is dividing by `b * c`. */
  lemma NestedDiv(m: nat, s: nat, r: nat, b: nat, c: nat)
    requires 0 < b && 0 < c && m == b * s + r && r < b
    ensures m / (b * c) == s / c
  {
    var q, r2 := s / c, s % c;
    assert s == c * q + r2;
    assert m == (b * c) * q + (b * r2 + r) by {
      assert b * s == b * (c * q) + b * r2;
    }
    assert b * r2 + r < b * c by {
      assert b * r2 <= b * (c - 1);
    }
    DivUnique(m, b * c, q, b * r2 + r);
  }

  lemma DivUnique(m: nat, d: nat, q: nat, r: nat)
    requires 0 < d && m == d * q + r && r < d
    ensures m / d == q
  {
    var q', r' := m / d, m % d;
    assert m == d * q' + r';
    if q' < q {
      MulLeft(q' + 1, q, d);
    } else if q' > q {
      MulLeft(q + 1, q', d);
    }
  }

  /** Minutes within the hour equal whole minutes modulo 60. */
  lemma WithinHour(s: nat)
    ensures (s % 3600) / 60 == (s / 60) % 60
  {
    var h, w := s / 3600, s % 3600;
    var mm, ss := w / 60, w % 60;
    assert s == 60 * (60 * h + mm) + ss;
    DivUnique(s, 60, 60 * h + mm, ss);
    DivUnique(60 * h + mm, 60, h, mm);
    assert (60 * h + mm) % 60 == mm;
  }

  /** `%02d`: at least two characters, zero-padded; a negative value keeps its sign. */
  function Pad2(n: int): (s: string)
    ensures |s| >= 2
    ensures 0 <= n < 100 ==> |s| == 2 && IsDigits(s) && DigitsValue(s) == n
    ensures n >= 0 ==> IsDigit(s[0])
    ensures n < 0 ==> s[0] == '-'
  {
    if 0 <= n < 10 then
      var s := ['0', DigitChar(n)];
      assert s[..1] == ['0'];
      s
    else
      assert 10 <= n < 100 ==> NatString(n) == NatString(n / 10) + [DigitChar(n % 10)];
      assert n >= 10 ==> |NatString(n)| >= 2 by {
        assert Pow10(1) == 10;
      }
      DecimalString(n)
  }

  /**
   * The `%s%02d:%02d:%02d` text, with ASCII digits: at least eight
   * characters after the optional sign, starting with '-' exactly when
   * the sign flag is set or the hours are negative.
   */
  function Render(h: Hms): (s: string)
    ensures |s| >= (if h.negative then 9 else 8)
    ensures s[0] == '-' <==> h.negative || h.hours < 0
  {
    var sign := if h.negative then "-" else "";
    var body := Pad2(h.hours) + ":" + Pad2(h.minutes) + ":" + Pad2(h.seconds);
    assert body[0] == Pad2(h.hours)[0];
    assert h.negative ==> (sign + body)[0] == '-';
    assert !h.negative ==> sign + body == body;
    sign + body
  }

  /**
   * The notification text built by `TimerService.formatTime`: for a
   * non-negative time it starts with '-' exactly when the flag is set.
   */
  function ServiceFormatTime(timeMs: int, isNegative: bool): (s: string)
    ensures |s| >= 8
    ensures timeMs >= 0 ==> (s[0] == '-' <==> isNegative)
  {
    Render(ServiceClock(timeMs, isNegative))
  }

  /**
   * The timer text built by `MainActivity.formatTime`: the service's text
   * for the same time without the sign flag.
   */
  function ActivityFormatTime(millis: int): (s: string)
    ensures s == ServiceFormatTime(millis, false)
  {
    ClocksAgree(millis);
    Render(ActivityClock(millis))
  }

  /**
   * Below 100 hours the text is `HH:MM:SS` (after the optional sign) and
   * each two-digit field reads back as the value it prints.
   */
  lemma RenderReadsBack(h: Hms)
    requires 0 <= h.hours < 100 && 0 <= h.minutes < 60 && 0 <= h.seconds < 60
    ensures var s := Render(h); var k := if h.negative then 1 else 0;
      && |s| == k + 8 && s[k + 2] == ':' && s[k + 5] == ':'
      && IsDigits(s[k..k + 2]) && DigitsValue(s[k..k + 2]) == h.hours
      && IsDigits(s[k + 3..k + 5]) && DigitsValue(s[k + 3..k + 5]) == h.minutes
      && IsDigits(s[k + 6..k + 8]) && DigitsValue(s[k + 6..k + 8]) == h.seconds
  {
    var sign := if h.negative then "-" else "";
    var hh, mm, ss := Pad2(h.hours), Pad2(h.minutes), Pad2(h.seconds);
    var s := Render(h);
    assert s == sign + hh + ":" + mm + ":" + ss;
    SliceOfConcat(sign, hh, ":" + mm + ":" + ss);
    SliceOfConcat(sign + hh + ":", mm, ":" + ss);
    SliceOfConcat(sign + hh + ":" + mm + ":", ss, []);
  }

  lemma SliceOfConcat(a: string, b: string, c: string)
    ensures (a + b + c)[|a|..|a| + |b|] == b
  {
  }
}

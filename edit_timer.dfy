/**
 * The "Set Timer (MMSS)" dialog's parser: the last two characters are
 * seconds, anything before them minutes; seconds of 60 or more are
 * refused; a text that does not parse is refused; an empty text does
 * nothing.
 */
module EditTimer {
  import opened Wrappers
  import opened Numbers

  /** Why the dialog produced no duration (the first one shows no message). */
  datatype InputError = EmptyInput | InvalidFormat | SecondsTooLarge

  /** `TimeUnit.MINUTES.toMillis`: saturates at the ends of the `Long` range. */
  function MinutesToMillis(minutes: int): (ms: int)
    ensures InLong(ms)
    ensures -(LongMax / 60_000) <= minutes <= LongMax / 60_000 <==> ms == minutes * 60_000
    ensures minutes > LongMax / 60_000 ==> ms == LongMax
    ensures minutes < -(LongMax / 60_000) ==> ms == LongMin
  {
    if minutes > LongMax / 60_000 then LongMax
    else if minutes < -(LongMax / 60_000) then LongMin
    else minutes * 60_000
  }

  /** `TimeUnit.SECONDS.toMillis`: saturates at the ends of the `Long` range. */
  function SecondsToMillis(seconds: int): (ms: int)
    ensures InLong(ms)
    ensures -(LongMax / 1000) <= seconds <= LongMax / 1000 <==> ms == seconds * 1000
    ensures seconds > LongMax / 1000 ==> ms == LongMax
    ensures seconds < -(LongMax / 1000) ==> ms == LongMin
  {
    if seconds > LongMax / 1000 then LongMax
    else if seconds < -(LongMax / 1000) then LongMin
    else seconds * 1000
  }

  /** The characters before the last two; empty when there are at most two. */
  function MinutesText(s: string): string {
    if |s| > 2 then s[..|s| - 2] else ""
  }

  /** The last two characters, or the whole text when it is shorter. */
  function SecondsText(s: string): string {
    if |s| >= 2 then s[|s| - 2..] else s
  }

  /** The minutes value: `toLong` of the prefix, or 0 when there is none. */
  function MinutesField(s: string): (r: Option<int>)
    ensures |s| <= 2 ==> r == Some(0)
    ensures |s| > 2 && IsDigits(s) ==> r == Bounded(DigitsValue(s[..|s| - 2]))
    ensures r.Some? ==> InLong(r.value)
  {
    if |s| > 2 then
      var t := MinutesText(s);
      if IsDigits(t) then ParseDigits(t); ParseLong(t) else ParseLong(t)
    else
      Some(0)
  }

  /** The seconds value: `toLong` of the last two characters (or of the whole text). */
  function SecondsField(s: string): (r: Option<int>)
    ensures s != [] && IsDigits(s) ==> r == Some(DigitsValue(SecondsText(s))) && 0 <= r.value < 100
    ensures r.Some? ==> InLong(r.value)
  {
    var t := SecondsText(s);
    if s != [] && IsDigits(s) then
      ParseDigits(t);
      Pow10Monotone(|t|, 2);
      ParseLong(t)
    else
      ParseLong(t)
  }

  /**
   * The dialog's Set handler as written: JVM `Long` addition of two
   * saturated products, so a large enough minutes field wraps around.
   */
  function ParseMmssAsWritten(s: string): (r: Result<int, InputError>)
    ensures r.Ok? ==> InLong(r.value)
  {
    if s == [] then Err(EmptyInput)
    else match (MinutesField(s), SecondsField(s))
      case (Some(minutes), Some(seconds)) =>
        if seconds >= 60 then Err(SecondsTooLarge)
        else Ok(WrapLong(MinutesToMillis(minutes) + SecondsToMillis(seconds)))
      case _ => Err(InvalidFormat)
  }

  /**
   * The intended parser: the duration is exactly `minutes * 60000 +
   * seconds * 1000`, and a duration outside the `Long` range is refused
   * like any other unparsable text.
   */
  function ParseMmss(s: string): (r: Result<int, InputError>)
    ensures r == Err(EmptyInput) <==> s == []
    ensures r.Ok? ==> InLong(r.value)
  {
    if s == [] then Err(EmptyInput)
    else match (MinutesField(s), SecondsField(s))
      case (Some(minutes), Some(seconds)) =>
        if seconds >= 60 then Err(SecondsTooLarge)
        else if !InLong(minutes * 60_000 + seconds * 1000) then Err(InvalidFormat)
        else Ok(minutes * 60_000 + seconds * 1000)
      case _ => Err(InvalidFormat)
  }

  lemma {:induction false} Pow10Monotone(j: nat, k: nat)
    requires j <= k
    ensures Pow10(j) <= Pow10(k)
    decreases k
  {
    if j < k {
      Pow10Monotone(j, k - 1);
    }
  }

  /**
   * On a non-empty digit string: the seconds are the last two digits (or
   * the single digit), the minutes the digits before them (or 0); the
   * result is the duration they denote, refused exactly when the seconds
   * reach 60 or the duration leaves the `Long` range.
   */
  lemma ParseMmssDigits(s: string)
    requires s != [] && IsDigits(s)
    ensures IsDigits(MinutesText(s)) && IsDigits(SecondsText(s))
    ensures var minutes, seconds := DigitsValue(MinutesText(s)), DigitsValue(SecondsText(s));
      && (ParseMmss(s).Ok? <==> seconds < 60 && minutes * 60_000 + seconds * 1000 <= LongMax)
      && (ParseMmss(s).Ok? ==> ParseMmss(s).value == minutes * 60_000 + seconds * 1000)
      && (seconds >= 60 && minutes <= LongMax ==> ParseMmss(s) == Err(SecondsTooLarge))
  {
    var mt, st := MinutesText(s), SecondsText(s);
    var minutes, seconds := DigitsValue(mt), DigitsValue(st);
    ParseDigits(st);
    assert seconds < 100 by { Pow10Monotone(|st|, 2); }
    if |s| > 2 {
      ParseDigits(mt);
      if minutes > LongMax {
        assert minutes * 60_000 + seconds * 1000 > LongMax;
      }
    } else {
      assert mt == [];
    }
  }

  /** The dialog's own hint: "4500" sets 45:00. */
  lemma ParseMmssHintExample()
    ensures ParseMmss("4500") == Ok(2_700_000)
  {
    var s := "4500";
    assert MinutesText(s) == "45" && SecondsText(s) == "00";
    assert DigitsValue("45") == 45 by {
      assert NatString(4) == "4";
      assert NatString(45) == "45";
    }
    ZeroZero();
    ParseMmssDigits(s);
  }

  /** "0" is a duration of zero, which the timer treats as already finished. */
  lemma ZeroEntryExample()
    ensures ParseMmssAsWritten("0") == Ok(0) && ParseMmss("0") == Ok(0)
  {
    assert NatString(0) == "0";
    assert SecondsText("0") == "0" && MinutesText("0") == "";
    ParseMmssDigits("0");
    CorrectionOnlyRejectsOverflow("0");
  }

  lemma ZeroZero()
    ensures IsDigits("00") && DigitsValue("00") == 0
  {
    DigitsValueSnoc([], '0');
    assert [] + ['0'] == "0";
    DigitsValueSnoc("0", '0');
    assert "0" + ['0'] == "00";
  }

  /** A single digit is seconds. */
  lemma SingleDigitExample()
    ensures ParseMmss("7") == Ok(7000)
  {
    assert NatString(7) == "7";
    assert SecondsText("7") == "7" && MinutesText("7") == "";
    ParseMmssDigits("7");
  }

  /** Two digits of 60 or more are refused. */
  lemma SecondsTooLargeExample()
    ensures ParseMmss("75") == Err(SecondsTooLarge)
  {
    assert NatString(75) == "75";
    assert SecondsText("75") == "75" && MinutesText("75") == "";
    ParseMmssDigits("75");
  }

  /** A colon is not a digit, so "1:30" does not parse. */
  lemma ColonExample()
    ensures ParseMmss("1:30") == Err(InvalidFormat)
  {
    assert MinutesText("1:30") == "1:";
    assert !IsDigit(MinutesText("1:30")[1]);
  }

  /**
   * Where the intended parser gives a duration, the code as written gives
   * the same one; on digit strings the two differ only when the duration
   * overflows a `Long`.
   */
  lemma CorrectionOnlyRejectsOverflow(s: string)
    requires IsDigits(s)
    ensures ParseMmss(s).Ok? ==> ParseMmssAsWritten(s) == ParseMmss(s)
    ensures ParseMmss(s) != ParseMmssAsWritten(s) ==>
      && ParseMmss(s) == Err(InvalidFormat)
      && MinutesField(s).Some? && SecondsField(s).Some?
      && MinutesField(s).value * 60_000 + SecondsField(s).value * 1000 > LongMax
  {
    if s != [] {
      ParseMmssDigits(s);
      var minutes, seconds := DigitsValue(MinutesText(s)), DigitsValue(SecondsText(s));
      if |s| > 2 {
        ParseDigits(MinutesText(s));
      }
      ParseDigits(SecondsText(s));
    }
  }

  /** Digit strings of up to 16 characters never overflow, so both parsers agree on them. */
  lemma ShortInputsAgree(s: string)
    requires IsDigits(s) && |s| <= 16
    ensures ParseMmssAsWritten(s) == ParseMmss(s)
  {
    if s != [] {
      ParseMmssDigits(s);
      CorrectionOnlyRejectsOverflow(s);
      var minutes := DigitsValue(MinutesText(s));
      assert minutes < 100_000_000_000_000 by {
        Pow10Monotone(|MinutesText(s)|, 14);
        assert Pow10(14) == 100_000_000_000_000;
      }
      if |s| > 2 {
        ParseDigits(MinutesText(s));
      }
      ParseDigits(SecondsText(s));
    }
  }

  /**
   * A 17-digit entry whose minutes sit at the saturation bound: the code
   * as written wraps past `Long.MAX_VALUE` and sets a negative duration,
   * where the intended parser refuses the text.
   */
  lemma AsWrittenOverflowWitness()
    ensures ParseMmssAsWritten("15372286728091259") == Ok(-9_223_372_036_854_772_616)
    ensures ParseMmss("15372286728091259") == Err(InvalidFormat)
  {
    var s := "15372286728091259";
    assert MinutesText(s) == "153722867280912" && SecondsText(s) == "59";
    WitnessFields();
    ParseMmssDigits(s);
    ParseDigits(MinutesText(s));
    ParseDigits(SecondsText(s));
    assert MinutesField(s) == Some(153_722_867_280_912);
    assert SecondsField(s) == Some(59);
  }

  /** The two fields of the witness: 153722867280912 minutes (`Long.MAX_VALUE / 60000`) and 59 seconds. */
  lemma WitnessFields()
    ensures IsDigits("153722867280912") && DigitsValue("153722867280912") == LongMax / 60_000
    ensures IsDigits("59") && DigitsValue("59") == 59
  {
    WitnessMinutesText();
    assert LongMax / 60_000 == 153_722_867_280_912;
    assert NatString(5) == "5" && NatString(59) == "59";
  }

  lemma WitnessMinutesText()
    ensures NatString(153_722_867_280_912) == "153722867280912"
  {
    assert NatString(1) == "1";
    assert NatString(15) == "15";
    assert NatString(153) == "153";
    assert NatString(1537) == "1537";
    assert NatString(15372) == "15372";
    assert NatString(153722) == "153722";
    assert NatString(1537228) == "1537228";
    assert NatString(15372286) == "15372286";
    assert NatString(153722867) == "153722867";
    assert NatString(1537228672) == "1537228672";
    assert NatString(15372286728) == "15372286728";
    assert NatString(153722867280) == "153722867280";
    assert NatString(1537228672809) == "1537228672809";
    assert NatString(15372286728091) == "15372286728091";
    assert NatString(153722867280912) == "153722867280912";
  }
}

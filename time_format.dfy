/**
 * The countdown text the timer shows: whole minutes and the remaining
 * seconds, each rendered in decimal and left-padded with '0' to at least
 * two characters, joined by ':'.
 */
module TimeFormat {
  import opened Wrappers
  import opened Text

  /**
   * `String(num).padStart(2, '0')`: the decimal text of `num` behind as many
   * '0's as bring it to two characters; a longer text is kept whole.
   */
  function ZeroPad(num: int): (r: string)
    ensures |r| == if |IntToString(num)| < 2 then 2 else |IntToString(num)|
    ensures r[|r| - |IntToString(num)|..] == IntToString(num)
    ensures forall i :: 0 <= i < |r| - |IntToString(num)| ==> r[i] == '0'
  {
    PadStart(IntToString(num), 2, '0')
  }

  /**
   * For a non-negative number the padded text is all digits, reads back as
   * the number, is exactly two characters below 100, and is the unpadded
   * decimal text (never truncated) from 100 on.
   */
  lemma {:induction false} ZeroPadNat(n: nat)
    ensures var r := ZeroPad(n);
      && AllDigits(r) && ParseNat(r) == n
      && (n < 100 ==> |r| == 2)
      && (n >= 100 ==> |r| >= 3 && r == NatToString(n))
  {
    var s := NatToString(n);
    var r := ZeroPad(n);
    ParseNatToString(n);
    if |s| < 2 {
      assert r == "0" + s;
      ParseLeadingZero(s);
    } else {
      assert r == s;
    }
  }

  /** JavaScript's `%` on integers: it truncates, so the result takes the dividend's sign. */
  function JsRemainder(a: int, b: int): (r: int)
    requires b > 0
    ensures a >= 0 ==> 0 <= r < b
    ensures a < 0 ==> -b < r <= 0
    ensures a >= 0 ==> r == a % b
    ensures a < 0 ==> a - r == -(b * ((-a) / b))
  {
    if a >= 0 then a % b else -((-a) % b)
  }

  /**
   * `formatTime(time)` for a whole number of seconds. `Math.floor(time / 60)`
   * is Dafny's `time / 60`, which rounds down for a positive divisor;
   * `Math.floor(time % 60)` leaves JavaScript's truncating remainder as it is.
   */
  function FormatTime(time: int): string {
    ZeroPad(time / 60) + ":" + ZeroPad(JsRemainder(time, 60))
  }

  /**
   * Reads a countdown text back as its minutes and seconds fields: the
   * digits before the first ':' and the digits after it.
   */
  function ParseCountdown(s: string): (r: Option<(nat, nat)>)
    ensures r.Some? ==> exists k :: 0 < k < |s| - 1 && s[k] == ':'
  {
    var i := FirstIndexOf(s, ':');
    if i == |s| then None
    else
      var minutes, seconds := s[..i], s[i + 1..];
      if minutes == [] || seconds == [] || !AllDigits(minutes) || !AllDigits(seconds) then None
      else Some((ParseNat(minutes), ParseNat(seconds)))
  }

  /**
   * For a non-negative time the text is the padded minutes, ':', and the
   * padded seconds; the seconds field is exactly two digits worth 0 to 59,
   * and the minutes field grows past two digits from 100 minutes on.
   */
  lemma FormatTimeFields(time: nat)
    ensures FormatTime(time) == ZeroPad(time / 60) + ":" + ZeroPad(time % 60)
    ensures var s := FormatTime(time);
      && |s| >= 5 && s[|s| - 3] == ':'
      && s[..|s| - 3] == ZeroPad(time / 60)
      && AllDigits(s[|s| - 2..]) && ParseNat(s[|s| - 2..]) == time % 60 < 60
      && (time < 6000 <==> |s| == 5)
  {
    var m, sec := ZeroPad(time / 60), ZeroPad(time % 60);
    assert JsRemainder(time, 60) == time % 60;
    ZeroPadNat(time / 60);
    ZeroPadNat(time % 60);
    JoinedFields(m, sec);
    assert time / 60 < 100 <==> time < 6000;
  }

  /**
   * Round trip: reading the fields of the text for a non-negative time gives
   * its minutes and seconds, and `minutes * 60 + seconds` is the time again.
   */
  lemma FormatTimeRoundTrip(time: nat)
    ensures ParseCountdown(FormatTime(time)) == Some((time / 60, time % 60))
    ensures var f := ParseCountdown(FormatTime(time)).value; f.0 * 60 + f.1 == time && f.1 < 60
  {
    var m, sec := ZeroPad(time / 60), ZeroPad(time % 60);
    assert FormatTime(time) == m + ":" + sec;
    ZeroPadNat(time / 60);
    ZeroPadNat(time % 60);
    ParseJoinedFields(m, sec);
    assert (time / 60) * 60 + time % 60 == time;
  }

  /** Reading back `minutes:seconds` for digit-only fields gives their values. */
  lemma ParseJoinedFields(minutes: string, seconds: string)
    requires AllDigits(minutes) && AllDigits(seconds) && |minutes| >= 2 && |seconds| == 2
    ensures ParseCountdown(minutes + ":" + seconds) == Some((ParseNat(minutes), ParseNat(seconds)))
  {
    JoinedFields(minutes, seconds);
  }

  /** Where the fields of `minutes:seconds` sit, for digit-only fields. */
  lemma JoinedFields(minutes: string, seconds: string)
    requires AllDigits(minutes) && AllDigits(seconds) && |minutes| >= 2 && |seconds| == 2
    ensures var s := minutes + ":" + seconds;
      && |s| >= 5 && s[|s| - 3] == ':'
      && s[..|s| - 3] == minutes && s[|s| - 2..] == seconds
      && FirstIndexOf(s, ':') == |minutes|
      && s[..|minutes|] == minutes && s[|minutes| + 1..] == seconds
  {
    var s := minutes + ":" + seconds;
    assert Lacks(minutes, ':');
    assert s == minutes + (":" + seconds);
    FirstIndexOfAfter(minutes, ":" + seconds, ':');
    assert s[..|minutes|] == minutes && s[|minutes| + 1..] == seconds;
  }

  /** The worked examples: 65 s, 0 s, 5 s, 100 s, 99 s and 100 minutes. */
  lemma FormatTimeExamples()
    ensures FormatTime(65) == "01:05" && FormatTime(0) == "00:00" && FormatTime(5) == "00:05"
    ensures FormatTime(100) == "01:40" && FormatTime(99) == "01:39"
    ensures FormatTime(6000) == "100:00"
  {
    SixtyFiveSeconds();
    ZeroSeconds();
    FiveSeconds();
    HundredSeconds();
    NinetyNineSeconds();
    HundredMinutes();
  }

  lemma SixtyFiveSeconds()
    ensures FormatTime(65) == "01:05"
  {
    assert 65 / 60 == 1 && JsRemainder(65, 60) == 5;
    assert 1 / 10 == 0 && 1 % 10 == 1;
    assert IntToString(1) == "1";
    assert 5 / 10 == 0 && 5 % 10 == 5;
    assert IntToString(5) == "5";
  }

  lemma ZeroSeconds()
    ensures FormatTime(0) == "00:00"
  {
    assert 0 / 60 == 0 && JsRemainder(0, 60) == 0;
    assert IntToString(0) == "0";
  }

  lemma FiveSeconds()
    ensures FormatTime(5) == "00:05"
  {
    assert 5 / 60 == 0 && JsRemainder(5, 60) == 5;
    assert IntToString(0) == "0";
    assert 5 / 10 == 0 && 5 % 10 == 5;
    assert IntToString(5) == "5";
  }

  lemma HundredSeconds()
    ensures FormatTime(100) == "01:40"
  {
    assert 100 / 60 == 1 && JsRemainder(100, 60) == 40;
    assert 1 / 10 == 0 && 1 % 10 == 1;
    assert IntToString(1) == "1";
    assert 40 / 10 == 4 && 40 % 10 == 0;
    assert IntToString(40) == "40";
  }

  lemma NinetyNineSeconds()
    ensures FormatTime(99) == "01:39"
  {
    assert 99 / 60 == 1 && JsRemainder(99, 60) == 39;
    assert 1 / 10 == 0 && 1 % 10 == 1;
    assert IntToString(1) == "1";
    assert 39 / 10 == 3 && 39 % 10 == 9;
    assert IntToString(39) == "39";
  }

  lemma HundredMinutes()
    ensures FormatTime(6000) == "100:00"
  {
    assert 6000 / 60 == 100 && JsRemainder(6000, 60) == 0;
    assert 100 / 10 == 10 && 100 % 10 == 0 && 10 / 10 == 1 && 10 % 10 == 0;
    assert IntToString(100) == "100";
    assert IntToString(0) == "0";
  }

  /**
   * A negative time (an arrival already past) is rendered with rounded-down
   * minutes and a truncated, negative seconds field.
   */
  lemma NegativeTimeExamples()
    ensures FormatTime(-5) == "-1:-5" && FormatTime(-65) == "-2:-5"
  {
    NegativeFiveSeconds();
    NegativeSixtyFiveSeconds();
  }

  lemma NegativeFiveSeconds()
    ensures FormatTime(-5) == "-1:-5"
  {
    assert -5 / 60 == -1 && JsRemainder(-5, 60) == -5;
    assert IntToString(-1) == "-1" && IntToString(-5) == "-5";
    assert ZeroPad(-1) == "-1";
    assert ZeroPad(-5) == "-5";
  }

  lemma NegativeSixtyFiveSeconds()
    ensures FormatTime(-65) == "-2:-5"
  {
    assert -65 / 60 == -2 && JsRemainder(-65, 60) == -5;
    assert IntToString(-2) == "-2" && IntToString(-5) == "-5";
    assert ZeroPad(-2) == "-2";
    assert ZeroPad(-5) == "-5";
  }
}

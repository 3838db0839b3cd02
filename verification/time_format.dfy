/**
 * `msToTime`: the `m:ss` labels of the timeline (elapsed time and track
 * length), written with JavaScript's number-to-string and padStart.
 */
module TimeFormat {
  import opened Wrappers
  import opened JsBuiltins

  /** The milliseconds actually formatted: non-finite and negative input
      count as 0. */
  function Clamp(ms: Number): (r: real)
    ensures r >= 0.0
    ensures ms.Finite? && ms.value >= 0.0 ==> r == ms.value
    ensures ms.NonFinite? || ms.value < 0.0 ==> r == 0.0
  {
    if ms.NonFinite? || ms.value < 0.0 then 0.0 else ms.value
  }

  /** `Math.floor(ms / 1000)` of the clamped input. */
  function TotalSeconds(ms: Number): nat {
    (Clamp(ms) / 1000.0).Floor
  }

  /** Whole minutes in the clamped input. */
  function Minutes(ms: Number): nat {
    (Clamp(ms) / 60000.0).Floor
  }

  /** Whole seconds within the current minute. */
  function SecondsOfMinute(ms: Number): nat {
    (Clamp(ms) / 1000.0).Floor % 60
  }

  /** The seconds field: two decimal digits. */
  function SecondsField(seconds: nat): (r: string)
    requires seconds < 60
    ensures |r| == 2 && '0' <= r[0] <= '5' && '0' <= r[1] <= '9'
  {
    [Digit(seconds / 10), Digit(seconds % 10)]
  }

  /** `SecondsField` is what `seconds.toString().padStart(2, "0")` writes. */
  lemma SecondsFieldIsPaddedToString(seconds: nat)
    requires seconds < 60
    ensures SecondsField(seconds) == PadStart(ToStringRadix(seconds, 10), 2, '0')
  {
    PaddedTwoDigits(seconds, 10);
  }

  /** The template literal `${minutes}:${seconds padded to two digits}`. */
  function Label(minutes: nat, seconds: nat): (r: string)
    requires seconds < 60
    ensures |r| >= 4 && r[|r| - 3] == ':'
    ensures '0' <= r[|r| - 2] <= '5' && '0' <= r[|r| - 1] <= '9'
  {
    ToStringRadix(minutes, 10) + [':'] + SecondsField(seconds)
  }

  /** `msToTime(ms)`. */
  function MsToTime(ms: Number): (r: string)
    ensures |r| >= 4 && r[|r| - 3] == ':'
    ensures '0' <= r[|r| - 2] <= '5' && '0' <= r[|r| - 1] <= '9'
  {
    Label(TotalSeconds(ms) / 60, TotalSeconds(ms) % 60)
  }

  /** Reads an `m:ss` label back into minutes and seconds. */
  function ParseTime(s: string): (r: Option<(nat, nat)>)
    ensures r.Some? ==> r.value.1 < 60
  {
    if |s| < 4 || s[|s| - 3] != ':' || !('0' <= s[|s| - 2] <= '5') || !('0' <= s[|s| - 1] <= '9') then None
    else
      match ParseRadix(s[..|s| - 3], 10)
      case None => None
      case Some(m) =>
        Some((m, 10 * (s[|s| - 2] as int - '0' as int) + (s[|s| - 1] as int - '0' as int)))
  }

  /** Truncating to whole seconds and then to whole minutes gives the whole
      minutes of the input. */
  lemma MinutesOfSeconds(x: real)
    requires x >= 0.0
    ensures (x / 1000.0).Floor / 60 == (x / 60000.0).Floor
  {
    var t := (x / 1000.0).Floor;
    var m := t / 60;
    assert t >= 0;
    assert 60 * m <= t < 60 * m + 60;
    assert t as real <= x / 1000.0 < t as real + 1.0;
    assert (60000 * m) as real <= x by {
      assert (60 * m) as real <= t as real;
      assert 1000.0 * (t as real) <= x;
    }
    assert x < (60000 * m + 60000) as real by {
      assert t as real + 1.0 <= (60 * m + 60) as real;
      assert x < 1000.0 * (t as real + 1.0);
    }
    assert m as real <= x / 60000.0 < m as real + 1.0;
  }

  /** A label reads back as the minutes and seconds it was made from. */
  lemma {:induction false} LabelReadsBack(minutes: nat, seconds: nat)
    requires seconds < 60
    ensures ParseTime(Label(minutes, seconds)) == Some((minutes, seconds))
  {
    var m := ToStringRadix(minutes, 10);
    var r := Label(minutes, seconds);
    assert r[..|r| - 3] == m;
    ParseToStringRadix(minutes, 10);
  }

  /** The label says exactly the whole minutes and the seconds within the
      minute of the (clamped) input. */
  lemma {:induction false} MsToTimeReadsBack(ms: Number)
    ensures ParseTime(MsToTime(ms)) == Some((Minutes(ms), SecondsOfMinute(ms)))
  {
    var t := TotalSeconds(ms);
    assert Minutes(ms) == t / 60 by {
      MinutesOfSeconds(Clamp(ms));
    }
    LabelReadsBack(t / 60, t % 60);
  }

  /** Anything that is not a non-negative finite number shows as `0:00`. */
  lemma {:induction false} InvalidShowsZero(ms: Number)
    requires ms.NonFinite? || ms.value < 0.0
    ensures MsToTime(ms) == "0:00"
  {
    assert TotalSeconds(ms) == 0;
    assert ToStringRadix(0, 10) == "0";
    assert PadStart("0", 2, '0') == "00";
  }
}

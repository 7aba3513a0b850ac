/** The countdown shown on the suspended-account screen: the time left until
    the ban's expiry, split into hours, minutes and seconds. */
module BanScreen {
  import opened Wrappers
  import Text
  import opened Time

  const ExpiredText: string := "El baneo ha expirado"

  /** What the screen shows. */
  datatype Remaining = Expired | Left(hours: nat, minutes: nat, seconds: nat)

  /** The milliseconds an h/m/s triple stands for. */
  function Millis(hours: nat, minutes: nat, seconds: nat): int {
    hours * HourMs + minutes * MinuteMs + seconds * SecondMs
  }

  /** Splits a positive duration the way the screen does, by whole hours,
      then minutes, then seconds, each rounded down. */
  lemma Decompose(diff: int)
    requires diff > 0
    ensures var h := diff / HourMs;
            var m := (diff % HourMs) / MinuteMs;
            var s := (diff % MinuteMs) / SecondMs;
            m < 60 && s < 60 && Millis(h, m, s) <= diff < Millis(h, m, s) + SecondMs
  {
    var h := diff / HourMs;
    var r := diff % HourMs;
    var m := r / MinuteMs;
    assert diff == h * HourMs + r;
    assert r == m * MinuteMs + r % MinuteMs;
    assert diff == (h * 60 + m) * MinuteMs + r % MinuteMs;
    assert diff % MinuteMs == r % MinuteMs;
  }

  /** `updateTimer` of the screen, at time `now`, for a ban ending at `until`. */
  function TimeRemaining(until: int, now: int): (r: Remaining)
    ensures r.Expired? <==> until - now <= 0
    ensures r.Left? ==> r.minutes < 60 && r.seconds < 60
    ensures r.Left? ==> Millis(r.hours, r.minutes, r.seconds) <= until - now
                        < Millis(r.hours, r.minutes, r.seconds) + SecondMs
  {
    var diff := until - now;
    if diff <= 0 then Expired
    else
      Decompose(diff);
      Left(diff / HourMs, (diff % HourMs) / MinuteMs, (diff % MinuteMs) / SecondMs)
  }

  /** Only one h/m/s triple with minutes and seconds below 60 fits a duration
      to the second, so the screen's split is the only sensible one. */
  lemma {:induction false} DecompositionUnique(diff: int, h: nat, m: nat, s: nat)
    requires diff > 0 && m < 60 && s < 60
    requires Millis(h, m, s) <= diff < Millis(h, m, s) + SecondMs
    ensures TimeRemaining(diff, 0) == Left(h, m, s)
  {
    var r := TimeRemaining(diff, 0);
    var secs := diff / SecondMs;
    assert secs == h * 3600 + m * 60 + s by {
      assert h * 3600 + m * 60 + s <= secs;
      assert secs < h * 3600 + m * 60 + s + 1;
    }
    assert secs == r.hours * 3600 + r.minutes * 60 + r.seconds by {
      assert r.hours * 3600 + r.minutes * 60 + r.seconds <= secs;
      assert secs < r.hours * 3600 + r.minutes * 60 + r.seconds + 1;
    }
    assert h == r.hours by {
      assert h * 3600 <= secs < h * 3600 + 3600;
      assert r.hours * 3600 <= secs < r.hours * 3600 + 3600;
    }
    assert m * 60 + s == r.minutes * 60 + r.seconds;
  }

  /** The text on the screen: the expiry sentence exactly when the ban is
      over, otherwise a count starting with a digit and ending in "s". */
  function RemainingText(r: Remaining): (t: string)
    ensures t == ExpiredText <==> r.Expired?
    ensures r.Left? ==> |t| > 0 && Text.IsDigit(t[0]) && t[|t| - 1] == 's'
  {
    assert ExpiredText[0] == 'E';
    match r
    case Expired => ExpiredText
    case Left(h, m, s) =>
      Text.NatToString(h) + "h " + Text.NatToString(m) + "m " + Text.NatToString(s) + "s"
  }

  /** Reads the screen's text back. */
  function ParseRemainingText(t: string): Option<Remaining> {
    if t == ExpiredText then Some(Expired)
    else
      match Text.ReadNumber(t, "h ")
      case None => None
      case Some((h, t2)) =>
        match Text.ReadNumber(t2, "m ")
        case None => None
        case Some((m, t3)) =>
          match Text.ReadNumber(t3, "s")
          case None => None
          case Some((s, rest)) => if rest == [] then Some(Left(h, m, s)) else None
  }

  /** The text of a remaining time as the three numbers with their units,
      grouped as the reading side takes them apart. */
  lemma LeftTextShape(h: nat, m: nat, s: nat)
    ensures RemainingText(Left(h, m, s))
            == Text.NatToString(h) + ("h " + (Text.NatToString(m) + ("m " + (Text.NatToString(s) + ("s" + "")))))
  {
  }

  /** The text "{h}h {m}m {s}s" (or the expiry sentence) determines what was shown. */
  lemma RemainingTextRoundTrip(r: Remaining)
    ensures ParseRemainingText(RemainingText(r)) == Some(r)
  {
    if r.Left? {
      var t := RemainingText(r);
      assert t != ExpiredText;
      var c := Text.NatToString(r.seconds);
      var t3 := c + ("s" + "");
      var t2 := Text.NatToString(r.minutes) + ("m " + t3);
      LeftTextShape(r.hours, r.minutes, r.seconds);
      Text.ReadNumberRoundTrip(r.hours, "h ", t2);
      Text.ReadNumberRoundTrip(r.minutes, "m ", t3);
      Text.ReadNumberRoundTrip(r.seconds, "s", "");
    }
  }
}

/** The global chat page: the half-hourly reset clock with its warnings and
    final countdown, the send guard, the emoji picker, and the rules that
    decide how consecutive messages and equipped banners are shown.
    Times are integer milliseconds; the wall-clock minute, second and
    millisecond of `now` are inputs. */
module Chat {
  import opened Wrappers
  import Text
  import opened Time

  const HalfHourMs: int := 30 * MinuteMs
  const ResettingText: string := "Reiniciando..."

  // ---------------------------------------------------------------------------
  // The reset clock
  // ---------------------------------------------------------------------------

  /** The wall-clock reading of an instant within its hour. */
  predicate ValidClock(minute: int, second: int, milli: int) {
    0 <= minute < 60 && 0 <= second < 60 && 0 <= milli < 1000
  }

  /** The start of the hour `now` falls in. */
  function HourStart(now: int, minute: int, second: int, milli: int): int {
    now - (minute * MinuteMs + second * 1000 + milli)
  }

  /** The next reset: minute 30 of this hour if the minute is below 30,
      otherwise minute 0 of the next hour, with seconds and milliseconds zeroed. */
  function NextReset(now: int, minute: int, second: int, milli: int): (reset: int)
    requires ValidClock(minute, second, milli)
    ensures now < reset <= now + HalfHourMs
    ensures (reset - HourStart(now, minute, second, milli)) % HalfHourMs == 0
  {
    var next := if minute < 30 then 30 else 60;
    HourStart(now, minute, second, milli) + next * MinuteMs
  }

  /** No half-hour boundary lies strictly between `now` and the next reset. */
  lemma NextResetIsEarliest(now: int, minute: int, second: int, milli: int, k: int)
    requires ValidClock(minute, second, milli)
    requires HourStart(now, minute, second, milli) + k * HalfHourMs > now
    ensures NextReset(now, minute, second, milli) <= HourStart(now, minute, second, milli) + k * HalfHourMs
  {
    var offset := minute * MinuteMs + second * 1000 + milli;
    assert k * HalfHourMs > offset;
    if minute < 30 {
      assert k >= 1;
    } else {
      assert offset >= HalfHourMs;
      assert k >= 2;
    }
  }

  /** The toasts the tick can raise, in the order it raises them. */
  datatype Toast = FiveMinuteWarning | ThreeMinuteWarning | OneMinuteWarning | FinalCountdownStart

  /** The clock's visible state: the "m:ss" text and the final countdown. */
  datatype ClockState = ClockState(timeLeft: string, countdown: Option<nat>)

  /** One tick: the new state, whether `clearAllMessages` was called, and the toasts. */
  datatype TickResult = TickResult(state: ClockState, cleared: bool, toasts: seq<Toast>)

  /** "m:ss", the seconds padded to two digits. */
  function ClockText(minutes: nat, seconds: nat): string {
    Text.NatToString(minutes) + ":" + Text.PadTwo(Text.NatToString(seconds))
  }

  /** A warning `t` milliseconds ahead fires on the one-second window just before it. */
  predicate InWindow(diff: int, t: int) {
    t - 1000 < diff <= t
  }

  /** `Math.ceil(diff / 1000)` for a positive `diff`. */
  function CeilSeconds(diff: int): (c: int)
    requires diff > 0
    ensures (c - 1) * 1000 < diff <= c * 1000
  {
    (diff + 999) / 1000
  }

  /** The "m:ss" text for a positive difference: whole minutes and the
      seconds below 60 that remain. */
  function RemainingText(diff: int): (t: string)
    requires diff > 0
    ensures exists m: nat, sec: nat ::
              sec < 60 && m * MinuteMs + sec * 1000 <= diff < m * MinuteMs + sec * 1000 + 1000
              && t == ClockText(m, sec)
  {
    var minutes := diff / MinuteMs;
    var seconds := (diff % MinuteMs) / 1000;
    assert minutes * MinuteMs + seconds * 1000 <= diff < minutes * MinuteMs + seconds * 1000 + 1000;
    ClockText(minutes, seconds)
  }

  /** The final countdown: whole seconds rounded up over the last 30 seconds. */
  function Countdown(diff: int): (c: Option<nat>)
    requires diff > 0
    ensures c.Some? <==> diff <= 30000
    ensures c.Some? ==> 1 <= c.value <= 30 && (c.value - 1) * 1000 < diff <= c.value * 1000
  {
    if diff <= 30000 then Some(CeilSeconds(diff)) else None
  }

  /** The toasts of one tick; the last fires when the countdown first reads 30. */
  function Toasts(diff: int): (ts: seq<Toast>)
    requires diff > 0
    ensures FiveMinuteWarning in ts <==> InWindow(diff, 5 * MinuteMs)
    ensures ThreeMinuteWarning in ts <==> InWindow(diff, 3 * MinuteMs)
    ensures OneMinuteWarning in ts <==> InWindow(diff, MinuteMs)
    ensures FinalCountdownStart in ts <==> InWindow(diff, 30000)
  {
    (if InWindow(diff, 5 * MinuteMs) then [FiveMinuteWarning] else [])
    + (if InWindow(diff, 3 * MinuteMs) then [ThreeMinuteWarning] else [])
    + (if InWindow(diff, MinuteMs) then [OneMinuteWarning] else [])
    + (if Countdown(diff) == Some(30) then [FinalCountdownStart] else [])
  }

  /** `updateTimer` of the reset clock. */
  function Tick(s: ClockState, reset: int, now: int): (r: TickResult)
    // The reset branch alone clears the messages; it leaves the countdown as it was.
    ensures r.cleared <==> reset - now <= 0
    ensures r.cleared ==> r.state == ClockState(ResettingText, s.countdown) && r.toasts == []
    // Otherwise the text shows whole minutes and the seconds below 60 that remain.
    ensures !r.cleared ==> exists m: nat, sec: nat ::
              sec < 60 && m * MinuteMs + sec * 1000 <= reset - now < m * MinuteMs + sec * 1000 + 1000
              && r.state.timeLeft == ClockText(m, sec)
    // Each warning fires exactly on its window.
    ensures FiveMinuteWarning in r.toasts <==> !r.cleared && InWindow(reset - now, 5 * MinuteMs)
    ensures ThreeMinuteWarning in r.toasts <==> !r.cleared && InWindow(reset - now, 3 * MinuteMs)
    ensures OneMinuteWarning in r.toasts <==> !r.cleared && InWindow(reset - now, MinuteMs)
    ensures FinalCountdownStart in r.toasts <==> !r.cleared && InWindow(reset - now, 30000)
    // The countdown runs over the last 30 seconds, as whole seconds rounded up.
    ensures !r.cleared ==> (r.state.countdown.Some? <==> reset - now <= 30000)
    ensures !r.cleared && r.state.countdown.Some? ==>
              var c := r.state.countdown.value;
              1 <= c <= 30 && (c - 1) * 1000 < reset - now <= c * 1000
  {
    var diff := reset - now;
    if diff <= 0 then TickResult(ClockState(ResettingText, s.countdown), true, [])
    else TickResult(ClockState(RemainingText(diff), Countdown(diff)), false, Toasts(diff))
  }

  /** The remaining-time difference on the `k`-th tick after one at difference `d0`. */
  function DiffAfter(d0: int, k: nat): int {
    d0 - 1000 * k
  }

  /** Ticking once a second from any difference that has not yet passed a
      warning's window lands in that window exactly once, so each warning is
      raised once per reset cycle. */
  lemma {:induction false} WindowHitOnce(d0: int, t: int)
    requires d0 > t - 1000
    ensures var k0 := (d0 - t + 999) / 1000;
            && k0 >= 0 && InWindow(DiffAfter(d0, k0), t)
            && forall k: nat :: InWindow(DiffAfter(d0, k), t) ==> k == k0
  {
    var k0 := (d0 - t + 999) / 1000;
    assert k0 * 1000 <= d0 - t + 999 < k0 * 1000 + 1000;
    forall k: nat | InWindow(DiffAfter(d0, k), t)
      ensures k == k0
    {
      assert d0 - t <= 1000 * k < d0 - t + 1000;
      assert d0 - t <= 1000 * k0 < d0 - t + 1000;
    }
  }

  /** Reads "m:ss" back. */
  function ParseClockText(t: string): Option<(nat, nat)> {
    match Text.ReadNumber(t, ":")
    case None => None
    case Some((m, rest)) =>
      if |rest| == 2 && Text.AllDigits(rest) then Some((m, Text.DecimalValue(rest))) else None
  }

  /** The clock text determines the minutes and seconds it shows. */
  lemma ClockTextRoundTrip(m: nat, s: nat)
    requires s < 60
    ensures ParseClockText(ClockText(m, s)) == Some((m, s))
  {
    var pad := Text.PadTwo(Text.NatToString(s));
    Text.PadTwoOfSmall(s);
    assert ClockText(m, s) == Text.NatToString(m) + (":" + pad);
    Text.ReadNumberRoundTrip(m, ":", pad);
  }

  // ---------------------------------------------------------------------------
  // Composing and sending
  // ---------------------------------------------------------------------------

  /** `handleSendMessage`: the draft is sent as typed, and then cleared, unless
      it trims to nothing, in which case nothing happens. */
  datatype SendResult = SendResult(sent: Option<string>, draft: string)

  function HandleSend(draft: string): (r: SendResult)
    ensures r.sent.None? <==> Text.AllSpace(draft)
    ensures r.sent.Some? ==> r.sent.value == draft && r.draft == []
    ensures r.sent.None? ==> r.draft == draft
  {
    Text.TrimEmptyIffAllSpace(draft);
    if Text.Trim(draft) == [] then SendResult(None, draft) else SendResult(Some(draft), [])
  }

  /** The composer: the draft and whether the emoji picker is open. */
  datatype Composer = Composer(draft: string, pickerOpen: bool)

  /** `addEmoji`: appends the emoji to the draft and closes the picker. */
  function AddEmoji(c: Composer, emoji: string): (r: Composer)
    ensures |r.draft| == |c.draft| + |emoji|
    ensures r.draft[..|c.draft|] == c.draft && r.draft[|c.draft|..] == emoji
    ensures !r.pickerOpen
  {
    Composer(c.draft + emoji, false)
  }

  // ---------------------------------------------------------------------------
  // Showing the message list
  // ---------------------------------------------------------------------------

  /** A banner a user has equipped, in the slot `position`. */
  datatype EquippedBadge = EquippedBadge(position: int, bannerId: string)

  datatype ChatMessage = ChatMessage(userId: string, badges: seq<EquippedBadge>)

  /** A message continues its predecessor's group exactly when there is a
      predecessor and it has the same author. */
  function IsConsecutive(msgs: seq<ChatMessage>, i: nat): (b: bool)
    requires i < |msgs|
    ensures i == 0 ==> !b
    ensures b <==> i > 0 && msgs[i - 1].userId == msgs[i].userId
  {
    i > 0 && msgs[i - 1].userId == msgs[i].userId
  }

  /** The header (name, avatar, banner) is shown on the first message of each
      run by the same author: a run of `n` messages shows it once. */
  lemma {:induction false} HeadersPerRun(msgs: seq<ChatMessage>, u: string)
    requires |msgs| > 0 && forall i :: 0 <= i < |msgs| ==> msgs[i].userId == u
    ensures !IsConsecutive(msgs, 0)
    ensures forall i :: 0 < i < |msgs| ==> IsConsecutive(msgs, i)
  {
    forall i | 0 < i < |msgs|
      ensures IsConsecutive(msgs, i)
    {
      assert msgs[i - 1].userId == u;
    }
  }

  /** The banner shown next to the author's name: after a stable sort by
      position, the first one, that is the earliest badge with the lowest
      position; `None` when nothing is equipped. */
  method ShownBadge(badges: seq<EquippedBadge>) returns (r: Option<nat>)
    ensures r.None? <==> |badges| == 0
    ensures r.Some? ==> r.value < |badges|
    ensures r.Some? ==> forall j :: 0 <= j < |badges| ==> badges[r.value].position <= badges[j].position
    ensures r.Some? ==> forall j :: 0 <= j < r.value ==> badges[j].position > badges[r.value].position
  {
    if |badges| == 0 {
      return None;
    }
    var best := 0;
    var i := 1;
    while i < |badges|
      invariant 1 <= i <= |badges|
      invariant best < i
      invariant forall j :: 0 <= j < i ==> badges[best].position <= badges[j].position
      invariant forall j :: 0 <= j < best ==> badges[j].position > badges[best].position
    {
      if badges[i].position < badges[best].position {
        best := i;
      }
      i := i + 1;
    }
    return Some(best);
  }
}

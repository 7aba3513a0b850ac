/** The `moderate-message` serverless function: request validation, the
    classifier adapter (code-fence stripping and the parse fallback), and the
    three-step penalty ladder applied to the user's moderation record.

    The classifier call and `JSON.parse` are outside the model: the
    classifier's reply is an input (`ClassifierReply`) and parsing is a
    function-valued parameter `parse`. Timestamps are integer milliseconds. */
module Moderation {
  import opened Wrappers
  import Text
  import Time

  /** Length of a ban: 24 hours in milliseconds. */
  const BanDurationMs: int := Time.DayMs

  const SecondWarningHeartsLost: int := 20
  const BanHeartsLost: int := 50

  const WarningType: string := "toxic_message"
  const BanReasonPrefix: string := "Tercera advertencia por contenido t\U{F3}xico: "
  const FallbackReason: string := "Error en an\U{E1}lisis"

  /** A user's moderation record (the profile columns the function reads and
      writes). The two counters are nullable columns. */
  datatype Ledger = Ledger(
    warningCount: Option<int>,
    heartsCount: Option<int>,
    isBanned: bool,
    bannedUntil: Option<int>)

  /** One row of the append-only warning log. */
  datatype WarningRow = WarningRow(
    userId: string,
    warningType: string,
    messageContent: string,
    severity: int,
    reason: string)

  /** One row of the append-only ban log. */
  datatype BanRow = BanRow(userId: string, bannedUntil: int, reason: string, isActive: bool)

  /** What the function sees of the database for the requesting user:
      the profile row (`None` when the `.single()` read fails) and the two logs. */
  datatype Store = Store(profile: Option<Ledger>, warnings: seq<WarningRow>, bans: seq<BanRow>)

  /** Whether each of the three writes of the toxic path succeeds. The source
      only logs a failed warning insert or profile update and does not look at
      the result of the ban insert, so none of them changes the response. */
  datatype WriteResults = WriteResults(warningInsertOk: bool, banInsertOk: bool, updateOk: bool)

  /** The classifier's verdict after parsing. */
  datatype Verdict = Verdict(isToxic: bool, severity: int, reason: string)

  /** What came back from the AI gateway. */
  datatype ClassifierReply =
      /** A 2xx reply whose envelope parsed; `content` is the text of the first
          choice, `None` when that path is missing or is not a string. */
    | Answer(content: Option<string>)
      /** A 2xx reply whose body is not JSON. */
    | UnreadableEnvelope
      /** A non-2xx status. */
    | HttpError(status: int)

  /** The JSON body of the request; each field `None` when absent or not a string. */
  datatype Request = Request(message: Option<string>, userId: Option<string>)

  /** The `action` of a blocked message; `NoAction` is the empty string the
      source leaves when the new count is below 1. */
  datatype Action = NoAction | Warning1 | Warning2 | Banned

  /** Why the function answered with status 500. */
  datatype Failure = BadRequestBody | MissingApiKey | GatewayStatus(status: int) | GatewayBody | ProfileReadFailed

  /** The function's HTTP response. */
  datatype Response =
    | MissingParameters
    | RateLimited
    | ServerError(cause: Failure)
    | Approved
    | Blocked(action: Action, warningCount: int, heartsLost: int, bannedUntil: Option<int>, reason: string)
  {
    function Status(): int {
      match this
      case MissingParameters => 400
      case RateLimited => 429
      case ServerError(_) => 500
      case _ => 200
    }

    /** The `allowed` field of a 200 response. */
    predicate Allowed() {
      Approved?
    }
  }

  /** A run of the function: the store afterwards, the response, and whether
      the classifier was called. */
  datatype Outcome = Outcome(store: Store, response: Response, classified: bool)

  /** JavaScript truthiness of an optional string field. */
  predicate Present(s: Option<string>) {
    s.Some? && s.value != []
  }

  predicate NoBacktick(s: string) {
    forall i :: 0 <= i < |s| ==> s[i] != '`'
  }

  /** The length of the fence the pattern `/```json\n?|\n?```/` matches at the
      start of `s`, 0 when it matches none: the first alternative is tried
      before the second and each optional newline is taken when present. */
  function FenceLength(s: string): (k: nat)
    ensures k <= |s|
    ensures k > 0 ==> s[0] == '`' || (|s| > 1 && s[0] == '\n' && s[1] == '`')
  {
    if |s| >= 3 && s[0] == '`' && s[1] == '`' && s[2] == '`' then
      if |s| >= 7 && s[3] == 'j' && s[4] == 's' && s[5] == 'o' && s[6] == 'n' then
        if |s| >= 8 && s[7] == '\n' then 8 else 7
      else 3
    else if |s| >= 4 && s[0] == '\n' && s[1] == '`' && s[2] == '`' && s[3] == '`' then 4
    else 0
  }

  /** `FenceLength` measures the match of the first alternative of the pattern
      that matches at the start of `s`, the optional newline included when
      present, and is 0 exactly when neither alternative matches there. */
  lemma FenceAlternatives(s: string)
    ensures FenceLength(s) == 8 <==> Text.OccursAt(s, "```json\n", 0)
    ensures FenceLength(s) == 7 <==> Text.OccursAt(s, "```json", 0) && !Text.OccursAt(s, "```json\n", 0)
    ensures FenceLength(s) == 3 <==> Text.OccursAt(s, "```", 0) && !Text.OccursAt(s, "```json", 0)
    ensures FenceLength(s) == 4 <==> Text.OccursAt(s, "\n```", 0)
    ensures FenceLength(s) == 0 <==> !Text.OccursAt(s, "```", 0) && !Text.OccursAt(s, "\n```", 0)
  {
  }

  /** `replace(/```json\n?|\n?```/g, '')`: scanning left to right, every
      fence found is dropped and every other character kept. */
  function StripFences(s: string): (r: string)
    ensures |r| <= |s|
    ensures NoBacktick(s) ==> r == s
    decreases |s|
  {
    if s == [] then []
    else
      var k := FenceLength(s);
      if k > 0 then StripFences(s[k..]) else [s[0]] + StripFences(s[1..])
  }

  /** The text handed to `JSON.parse`. */
  function CleanContent(content: string): string {
    Text.Trim(StripFences(content))
  }

  /** The verdict assumed when the classifier's answer cannot be read. */
  const FallbackVerdict: Verdict := Verdict(false, 0, FallbackReason)

  /** The parsing step of the handler: a missing content or a parse failure
      both become the non-toxic fallback verdict. */
  function Interpret(content: Option<string>, parse: string -> Option<Verdict>): (v: Verdict)
    ensures content.None? ==> v == FallbackVerdict
    ensures content.Some? && parse(CleanContent(content.value)).None? ==> v == FallbackVerdict
    ensures content.Some? && parse(CleanContent(content.value)).Some? ==> v == parse(CleanContent(content.value)).value
  {
    match content
    case None => FallbackVerdict
    case Some(c) =>
      match parse(CleanContent(c))
      case None => FallbackVerdict
      case Some(v) => v
  }

  /** The ladder, keyed on the count after the increment. */
  function TierOf(newCount: int): (a: Action)
    ensures a == Warning1 <==> newCount == 1
    ensures a == Warning2 <==> newCount == 2
    ensures a == Banned <==> newCount >= 3
    ensures a == NoAction <==> newCount <= 0
  {
    if newCount == 1 then Warning1
    else if newCount == 2 then Warning2
    else if newCount >= 3 then Banned
    else NoAction
  }

  function HeartsLostFor(a: Action): int {
    match a
    case Warning2 => SecondWarningHeartsLost
    case Banned => BanHeartsLost
    case _ => 0
  }

  function Max(a: int, b: int): int {
    if a >= b then a else b
  }

  /** The toxic path once the profile has been read: the count goes up by one
      from the stored value, the tier of the new count fixes the hearts lost
      and the ban, and the three writes are applied as far as they succeed.
      The response reports the penalty whatever the writes did. */
  function Penalize(userId: string, message: string, v: Verdict, ledger: Ledger, store: Store,
                    writes: WriteResults, now: int): (out: Outcome)
    ensures out.classified && out.response.Blocked?
    ensures var r := out.response;
            && r.warningCount == OrZero(ledger.warningCount) + 1 && r.reason == v.reason
            && r.action == TierOf(r.warningCount) && r.heartsLost == HeartsLostFor(r.action)
            && (r.bannedUntil.Some? <==> r.action == Banned)
            && (r.bannedUntil.Some? ==> r.bannedUntil.value == now + BanDurationMs)
    // The record takes the reported values only when the update succeeds.
    ensures var r := out.response;
            out.store.profile == Some(if writes.updateOk
                                      then Ledger(Some(r.warningCount), Some(Max(0, OrZero(ledger.heartsCount) - r.heartsLost)),
                                                  r.action == Banned, r.bannedUntil)
                                      else ledger)
    // One warning row per call, one ban row per banning call, each only when its insert succeeds.
    ensures out.store.warnings == (if writes.warningInsertOk
                                   then store.warnings + [WarningRow(userId, WarningType, message, v.severity, v.reason)]
                                   else store.warnings)
    ensures out.store.bans == (if out.response.action == Banned && writes.banInsertOk
                               then store.bans + [BanRow(userId, now + BanDurationMs, BanReasonPrefix + v.reason, true)]
                               else store.bans)
  {
    var newCount := OrZero(ledger.warningCount) + 1;
    var action := TierOf(newCount);
    var heartsLost := HeartsLostFor(action);
    var banned := action == Banned;
    var until := if banned then Some(now + BanDurationMs) else None;
    var warnings :=
      if writes.warningInsertOk then store.warnings + [WarningRow(userId, WarningType, message, v.severity, v.reason)]
      else store.warnings;
    var bans :=
      if banned && writes.banInsertOk then store.bans + [BanRow(userId, now + BanDurationMs, BanReasonPrefix + v.reason, true)]
      else store.bans;
    var newHearts := Max(0, OrZero(ledger.heartsCount) - heartsLost);
    var ledger' := if writes.updateOk then Ledger(Some(newCount), Some(newHearts), banned, until) else ledger;
    Outcome(Store(Some(ledger'), warnings, bans), Blocked(action, newCount, heartsLost, until, v.reason), true)
  }

  /** The whole handler for a POST request. `body` is `None` when the request
      body is not JSON; `apiKeySet` tells whether the gateway key is configured. */
  function Evaluate(body: Option<Request>, apiKeySet: bool, reply: ClassifierReply,
                    parse: string -> Option<Verdict>, store: Store, writes: WriteResults, now: int): (out: Outcome)
    // Only a blocked message touches the store.
    ensures !out.response.Blocked? ==> out.store == store
    // The classifier is consulted before any penalty.
    ensures out.response.Blocked? ==> out.classified
    // The logs are append-only and grow by at most one row each.
    ensures store.warnings <= out.store.warnings && |out.store.warnings| <= |store.warnings| + 1
    ensures store.bans <= out.store.bans && |out.store.bans| <= |store.bans| + 1
    // A blocked message echoes the incremented count of the record it read.
    ensures out.response.Blocked? ==>
              store.profile.Some? && out.response.warningCount == OrZero(store.profile.value.warningCount) + 1
    // Each failure before the penalty has its own answer and writes nothing.
    ensures body.None? ==> out == Outcome(store, ServerError(BadRequestBody), false)
    ensures body.Some? && Present(body.value.message) && Present(body.value.userId) && !apiKeySet ==>
              out == Outcome(store, ServerError(MissingApiKey), false)
    ensures body.Some? && Valid(body.value, apiKeySet) && reply.HttpError? ==>
              out == Outcome(store, if reply.status == 429 then RateLimited else ServerError(GatewayStatus(reply.status)), true)
    ensures body.Some? && Valid(body.value, apiKeySet) && reply.UnreadableEnvelope? ==>
              out == Outcome(store, ServerError(GatewayBody), true)
    ensures body.Some? && Valid(body.value, apiKeySet) && reply.Answer? && out.response.ServerError? ==>
              out == Outcome(store, ServerError(ProfileReadFailed), true) && store.profile.None?
    ensures (body.Some? && Valid(body.value, apiKeySet) && reply.Answer? && store.profile.None?
             && Interpret(reply.content, parse).isToxic) ==>
              out == Outcome(store, ServerError(ProfileReadFailed), true)
  {
    match body
    case None => Outcome(store, ServerError(BadRequestBody), false)
    case Some(req) =>
      if !Present(req.message) || !Present(req.userId) then Outcome(store, MissingParameters, false)
      else if !apiKeySet then Outcome(store, ServerError(MissingApiKey), false)
      else
        match reply
        case HttpError(status) =>
          if status == 429 then Outcome(store, RateLimited, true)
          else Outcome(store, ServerError(GatewayStatus(status)), true)
        case UnreadableEnvelope => Outcome(store, ServerError(GatewayBody), true)
        case Answer(content) =>
          var v := Interpret(content, parse);
          if !v.isToxic then Outcome(store, Approved, true)
          else
            match store.profile
            case None => Outcome(store, ServerError(ProfileReadFailed), true)
            case Some(ledger) => Penalize(req.userId.value, req.message.value, v, ledger, store, writes, now)
  }

  /** A well-formed request: both fields present, key configured. */
  predicate Valid(req: Request, apiKeySet: bool) {
    Present(req.message) && Present(req.userId) && apiKeySet
  }

  // ---------------------------------------------------------------------------
  // Properties of the handler
  // ---------------------------------------------------------------------------

  /** A missing or empty `message` or `userId` is answered with 400 before the
      classifier is called, and nothing is written. */
  lemma MissingParametersRejected(req: Request, apiKeySet: bool, reply: ClassifierReply,
                                  parse: string -> Option<Verdict>, store: Store, writes: WriteResults, now: int)
    requires !Present(req.message) || !Present(req.userId)
    ensures var out := Evaluate(Some(req), apiKeySet, reply, parse, store, writes, now);
            out.response.Status() == 400 && !out.classified && out.store == store
  {
  }

  /** Stripping leaves a fence-free payload followed by a closing fence as the payload. */
  lemma {:induction false} StripBeforeClosingFence(p: string)
    requires NoBacktick(p)
    ensures StripFences(p + "\n```") == p
    decreases |p|
  {
    var s := p + "\n```";
    if p == [] {
      assert s == "\n```";
      assert FenceLength(s) == 4 && s[4..] == [];
    } else {
      assert s[0] == p[0] && p[0] != '`';
      assert s[1] == (if |p| > 1 then p[1] else '\n') && s[1] != '`';
      assert FenceLength(s) == 0;
      assert s[1..] == p[1..] + "\n```";
      StripBeforeClosingFence(p[1..]);
      assert p == [p[0]] + p[1..];
    }
  }

  /** The "```json\n" wrapping the classifier usually adds. */
  function JsonFenced(p: string): string {
    "```json\n" + p + "\n```"
  }

  /** A bare "```" wrapping with newlines. */
  function PlainFenced(p: string): string {
    "```\n" + p + "\n```"
  }

  lemma JsonFenceStripped(p: string)
    requires NoBacktick(p)
    ensures StripFences(JsonFenced(p)) == p
  {
    var j := JsonFenced(p);
    assert j[..8] == "```json\n";
    assert FenceLength(j) == 8 && j[8..] == p + "\n```";
    StripBeforeClosingFence(p);
  }

  lemma PlainFenceStripped(p: string)
    requires NoBacktick(p)
    ensures StripFences(PlainFenced(p)) == "\n" + p
  {
    var tail := p + "\n```";
    var f := PlainFenced(p);
    assert f[..4] == "```\n";
    assert FenceLength(f) == 3 && f[3..] == "\n" + tail;
    var g := "\n" + tail;
    assert g[0] == '\n' && g[1] != '`';
    assert FenceLength(g) == 0;
    assert g[1..] == tail;
    StripBeforeClosingFence(p);
  }

  /** A fenced payload is cleaned to the same text as the bare payload, so it
      parses the same. */
  lemma FencedParsesAsBare(p: string, parse: string -> Option<Verdict>)
    requires NoBacktick(p)
    ensures CleanContent(JsonFenced(p)) == CleanContent(p)
    ensures CleanContent(PlainFenced(p)) == CleanContent(p)
    ensures Interpret(Some(JsonFenced(p)), parse) == Interpret(Some(p), parse)
  {
    JsonFenceStripped(p);
    PlainFenceStripped(p);
    Text.TrimIgnoresLeadingSpace("\n", p);
  }

  /** An answer that cannot be parsed (or has no content) lets the message
      through and changes nothing. */
  lemma UnparseableAnswerAllowed(req: Request, content: Option<string>, parse: string -> Option<Verdict>,
                                 store: Store, writes: WriteResults, now: int)
    requires Valid(req, true)
    requires content.None? || parse(CleanContent(content.value)).None?
    ensures var out := Evaluate(Some(req), true, Answer(content), parse, store, writes, now);
            out.response == Approved && out.store == store
  {
  }

  /** A non-toxic verdict is approved without reading or writing the record or the logs. */
  lemma NonToxicAllowed(req: Request, content: string, parse: string -> Option<Verdict>,
                        store: Store, writes: WriteResults, now: int)
    requires Valid(req, true)
    requires parse(CleanContent(content)).Some? && !parse(CleanContent(content)).value.isToxic
    ensures var out := Evaluate(Some(req), true, Answer(Some(content)), parse, store, writes, now);
            out.response.Allowed() && out.store == store
  {
  }

  /** The outcome of a toxic verdict for a request whose profile could be read. */
  function ToxicRun(req: Request, v: Verdict, ledger: Ledger, store: Store, writes: WriteResults, now: int): Outcome
    requires Valid(req, true) && v.isToxic && store.profile == Some(ledger)
  {
    Evaluate(Some(req), true, Answer(Some(req.message.value)), _ => Some(v), store, writes, now)
  }

  /** A toxic run is the penalty step on the record read. */
  lemma ToxicRunPenalizes(req: Request, v: Verdict, ledger: Ledger, store: Store, writes: WriteResults, now: int)
    requires Valid(req, true) && v.isToxic && store.profile == Some(ledger)
    ensures ToxicRun(req, v, ledger, store, writes, now)
            == Penalize(req.userId.value, req.message.value, v, ledger, store, writes, now)
  {
    assert Interpret(Some(req.message.value), _ => Some(v)) == v;
  }

  /** The ladder: the count goes up by one from the stored value (null read as
      0); count 1 is `warning_1` with nothing lost, count 2 is `warning_2`
      with 20 hearts, any count from 3 up is `banned` with 50 hearts and a ban
      ending 24 hours from now. */
  lemma ToxicLadder(req: Request, v: Verdict, ledger: Ledger, store: Store, writes: WriteResults, now: int)
    requires Valid(req, true) && v.isToxic && store.profile == Some(ledger)
    ensures var out := ToxicRun(req, v, ledger, store, writes, now);
            var n := OrZero(ledger.warningCount) + 1;
            && out.response.Blocked?
            && out.response.warningCount == n
            && (n == 1 ==> out.response.action == Warning1 && out.response.heartsLost == 0
                           && out.response.bannedUntil == None)
            && (n == 2 ==> out.response.action == Warning2 && out.response.heartsLost == 20
                           && out.response.bannedUntil == None)
            && (n >= 3 ==> out.response.action == Banned && out.response.heartsLost == 50
                           && out.response.bannedUntil == Some(now + 86_400_000))
  {
  }

  /** Hearts are reduced by the tier's loss and clamped at zero. */
  lemma HeartsClamped(req: Request, v: Verdict, ledger: Ledger, store: Store, writes: WriteResults, now: int)
    requires Valid(req, true) && v.isToxic && store.profile == Some(ledger) && writes.updateOk
    ensures var out := ToxicRun(req, v, ledger, store, writes, now);
            var hearts := out.store.profile.value.heartsCount.value;
            && hearts >= 0
            && hearts >= OrZero(ledger.heartsCount) - out.response.heartsLost
            && (hearts == 0 || hearts == OrZero(ledger.heartsCount) - out.response.heartsLost)
  {
  }

  /** The profile update writes exactly the four ladder fields: the new count,
      the clamped hearts, and the ban flag and expiry of the tier (no ban and no
      expiry below tier 3, whatever was stored before). */
  lemma UpdateWritesFourFields(req: Request, v: Verdict, ledger: Ledger, store: Store, writes: WriteResults, now: int)
    requires Valid(req, true) && v.isToxic && store.profile == Some(ledger) && writes.updateOk
    ensures var out := ToxicRun(req, v, ledger, store, writes, now);
            var r := out.response;
            out.store.profile == Some(Ledger(Some(r.warningCount),
                                             Some(Max(0, OrZero(ledger.heartsCount) - r.heartsLost)),
                                             r.action == Banned, r.bannedUntil))
    ensures var out := ToxicRun(req, v, ledger, store, writes, now);
            out.response.warningCount < 3 ==> !out.store.profile.value.isBanned && out.store.profile.value.bannedUntil.None?
  {
    ToxicRunPenalizes(req, v, ledger, store, writes, now);
    PenalizedRecord(req.userId.value, req.message.value, v, ledger, store, writes, now);
  }

  /** The record the penalty step writes, stated on the step itself. */
  lemma PenalizedRecord(userId: string, message: string, v: Verdict, ledger: Ledger, store: Store,
                        writes: WriteResults, now: int)
    requires writes.updateOk
    ensures var out := Penalize(userId, message, v, ledger, store, writes, now);
            var r := out.response;
            && r.Blocked?
            && out.store.profile == Some(Ledger(Some(r.warningCount),
                                                Some(Max(0, OrZero(ledger.heartsCount) - r.heartsLost)),
                                                r.action == Banned, r.bannedUntil))
            && (r.warningCount < 3 ==> r.action != Banned && r.bannedUntil.None?)
  {
  }

  /** A failed profile update leaves the record as it was, yet the response
      still reports the penalty. */
  lemma FailedUpdateStillReported(req: Request, v: Verdict, ledger: Ledger, store: Store, writes: WriteResults, now: int)
    requires Valid(req, true) && v.isToxic && store.profile == Some(ledger) && !writes.updateOk
    ensures var out := ToxicRun(req, v, ledger, store, writes, now);
            out.store.profile == Some(ledger) && out.response.Blocked?
            && out.response.warningCount == OrZero(ledger.warningCount) + 1
  {
  }

  /** Every toxic call appends one warning row carrying the message and the
      verdict, and a ban row on every call whose new count is 3 or more, also
      when the user is already banned. */
  lemma LogAppends(req: Request, v: Verdict, ledger: Ledger, store: Store, now: int)
    requires Valid(req, true) && v.isToxic && store.profile == Some(ledger)
    ensures var out := ToxicRun(req, v, ledger, store, WriteResults(true, true, true), now);
            var n := OrZero(ledger.warningCount) + 1;
            && out.store.warnings == store.warnings
                 + [WarningRow(req.userId.value, "toxic_message", req.message.value, v.severity, v.reason)]
            && (n >= 3 ==>
                  out.store.bans == store.bans + [BanRow(req.userId.value, now + BanDurationMs, BanReasonPrefix + v.reason, true)])
            && (n < 3 ==> out.store.bans == store.bans)
  {
  }

  /** The response of a toxic call is `allowed: false` and carries the count,
      the hearts lost, the expiry and the classifier's reason. */
  lemma ToxicResponseEchoes(req: Request, v: Verdict, ledger: Ledger, store: Store, writes: WriteResults, now: int)
    requires Valid(req, true) && v.isToxic && store.profile == Some(ledger)
    ensures var out := ToxicRun(req, v, ledger, store, writes, now);
            && !out.response.Allowed() && out.response.Status() == 200
            && out.response.reason == v.reason
            && out.response.heartsLost == HeartsLostFor(out.response.action)
            && (out.response.bannedUntil.Some? <==> out.response.action == Banned)
  {
  }

  /** A record the application can produce (no negative counters) never
      yields the empty action. */
  lemma NoEmptyActionForSaneRecord(req: Request, v: Verdict, ledger: Ledger, store: Store, writes: WriteResults, now: int)
    requires Valid(req, true) && v.isToxic && store.profile == Some(ledger)
    requires OrZero(ledger.warningCount) >= 0
    ensures ToxicRun(req, v, ledger, store, writes, now).response.action != NoAction
  {
  }

  /** The state after one toxic call with every write succeeding. */
  function Strike(userId: string, message: string, v: Verdict, store: Store, now: int): Store
    requires store.profile.Some?
  {
    Penalize(userId, message, v, store.profile.value, store, WriteResults(true, true, true), now).store
  }

  /** Three toxic messages in a row take a clean record through `warning_1`,
      `warning_2` and a 24-hour ban, losing 70 hearts in all (or every heart
      the user had, if fewer); two warning rows precede the one ban row. */
  lemma {:induction false} ThreeStrikes(userId: string, m1: string, m2: string, m3: string, v: Verdict,
                                        hearts: nat, t1: int, t2: int, t3: int)
    requires v.isToxic
    ensures var s0 := Store(Some(Ledger(Some(0), Some(hearts), false, None)), [], []);
            var s1 := Strike(userId, m1, v, s0, t1);
            var s2 := Strike(userId, m2, v, s1, t2);
            var s3 := Strike(userId, m3, v, s2, t3);
            && s3.profile == Some(Ledger(Some(3), Some(Max(0, hearts - 70)), true, Some(t3 + BanDurationMs)))
            && |s3.warnings| == 3 && |s3.bans| == 1
            && s3.bans[0].bannedUntil == t3 + BanDurationMs
  {
    var s0 := Store(Some(Ledger(Some(0), Some(hearts), false, None)), [], []);
    var s1 := Strike(userId, m1, v, s0, t1);
    assert s1.profile == Some(Ledger(Some(1), Some(hearts), false, None));
    var s2 := Strike(userId, m2, v, s1, t2);
    assert s2.profile == Some(Ledger(Some(2), Some(Max(0, hearts - 20)), false, None));
    assert |s2.bans| == 0;
  }

  /** A user who is already banned and sends another toxic message is banned
      again with a fresh 24-hour window and another ban row. */
  lemma BannedUserRebanned(userId: string, message: string, v: Verdict, store: Store, now: int)
    requires v.isToxic && store.profile.Some?
    requires store.profile.value.isBanned && OrZero(store.profile.value.warningCount) >= 3
    ensures var s := Strike(userId, message, v, store, now);
            && s.profile.value.isBanned && s.profile.value.bannedUntil == Some(now + BanDurationMs)
            && OrZero(s.profile.value.warningCount) == OrZero(store.profile.value.warningCount) + 1
            && |s.bans| == |store.bans| + 1
  {
  }
}

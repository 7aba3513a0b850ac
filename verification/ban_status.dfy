/** The client-side moderation hook: `checkBanStatus`, which lazily expires a
    ban and is the only place the warning count returns to 0, and
    `checkMessage`, which calls the moderation function and fails open. */
module BanStatus {
  import opened Wrappers
  import M = Moderation

  /** What a ban-status query reports. */
  datatype Status = NotBanned | BannedUntil(until: int)

  /** A ban-status check: the profile row afterwards, the answer, and whether
      the expiry update was issued. */
  datatype Checked = Checked(profile: Option<M.Ledger>, status: Status, wrote: bool)

  /** The record after the expiry update: not banned, no expiry, no warnings;
      the hearts are not part of the update. */
  function Expired(l: M.Ledger): (e: M.Ledger)
    ensures !e.isBanned && e.bannedUntil.None? && e.warningCount == Some(0)
    ensures e.heartsCount == l.heartsCount
  {
    l.(isBanned := false, bannedUntil := None, warningCount := Some(0))
  }

  /** `checkBanStatus`. A failed read yields no row, as the client library
      reports it; `updateOk` is whether the expiry update succeeds (its error
      is not looked at, so the answer does not depend on it). */
  function CheckBanStatus(profile: Option<M.Ledger>, readOk: bool, now: int, updateOk: bool): (c: Checked)
    // Banned exactly while a stored ban has not yet passed, with its stored expiry.
    ensures c.status.BannedUntil? <==>
              readOk && profile.Some? && profile.value.isBanned && profile.value.bannedUntil.Some?
              && now <= profile.value.bannedUntil.value
    ensures c.status.BannedUntil? ==> c.status.until == profile.value.bannedUntil.value
    // A write happens only for a ban whose expiry is strictly in the past, and it is the reset.
    ensures c.wrote <==>
              readOk && profile.Some? && profile.value.isBanned && profile.value.bannedUntil.Some?
              && now > profile.value.bannedUntil.value
    ensures c.profile != profile ==> c.wrote && updateOk && c.profile == Some(Expired(profile.value))
    ensures c.wrote && updateOk ==> c.profile == Some(Expired(profile.value))
  {
    if !readOk then Checked(profile, NotBanned, false)
    else
      match profile
      case None => Checked(profile, NotBanned, false)
      case Some(l) =>
        if l.isBanned && l.bannedUntil.Some? then
          if now > l.bannedUntil.value then
            Checked(if updateOk then Some(Expired(l)) else profile, NotBanned, true)
          else Checked(profile, BannedUntil(l.bannedUntil.value), false)
        else Checked(profile, NotBanned, false)
  }

  /** No row, a read error, no ban flag, or no expiry: not banned, nothing written. */
  lemma NotBannedWithoutStoredBan(profile: Option<M.Ledger>, readOk: bool, now: int, updateOk: bool)
    requires !readOk || profile.None? || !profile.value.isBanned || profile.value.bannedUntil.None?
    ensures CheckBanStatus(profile, readOk, now, updateOk) == Checked(profile, NotBanned, false)
  {
  }

  /** Repeating the check is harmless: once a check has answered not-banned
      (after an expiry reset or otherwise), every later check answers the same
      and writes nothing; a second check at the same instant answers as the
      first and writes nothing. */
  lemma {:induction false} CheckIdempotent(profile: Option<M.Ledger>, now: int, later: int, updateOk: bool)
    ensures var first := CheckBanStatus(profile, true, now, true);
            var second := CheckBanStatus(first.profile, true, later, updateOk);
            first.status.NotBanned? ==> second == Checked(first.profile, NotBanned, false)
    ensures var first := CheckBanStatus(profile, true, now, true);
            var second := CheckBanStatus(first.profile, true, now, updateOk);
            second == Checked(first.profile, first.status, false)
  {
    var first := CheckBanStatus(profile, true, now, true);
    if first.wrote {
      assert first.profile == Some(Expired(profile.value));
    } else {
      assert first.profile == profile;
    }
  }

  // ---------------------------------------------------------------------------
  // checkMessage
  // ---------------------------------------------------------------------------

  /** The result of `supabase.functions.invoke`: a transport failure, or the
      function's response. A non-2xx response is reported as an error. */
  datatype Invocation = InvokeFailed | Delivered(response: M.Response)

  /** The toast shown to the sender. */
  datatype Notice =
    | NoNotice
    | FirstWarningNotice(reason: string)
    | SecondWarningNotice(heartsLost: int, reason: string)
    | SuspensionNotice(reason: string, heartsLost: int)
    | CheckFailedNotice

  /** What `checkMessage` returns: `{allowed: true}` on any error, otherwise
      the function's decision as received. */
  datatype ClientResult = FailOpen | ServerDecision(decision: M.Response) {
    predicate Allowed() {
      match this
      case FailOpen => true
      case ServerDecision(d) => d.Allowed()
    }
  }

  datatype MessageCheck = MessageCheck(result: ClientResult, notice: Notice)

  /** The toast for a decision that blocked the message, chosen by its action. */
  function NoticeFor(d: M.Response): (n: Notice)
    requires d.Blocked?
    ensures n.NoNotice? <==> d.action == M.NoAction
    ensures d.action == M.Warning1 ==> n == FirstWarningNotice(d.reason)
    ensures d.action == M.Warning2 ==> n == SecondWarningNotice(d.heartsLost, d.reason)
    ensures d.action == M.Banned ==> n == SuspensionNotice(d.reason, d.heartsLost)
    ensures !n.CheckFailedNotice?
  {
    match d.action
    case Warning1 => FirstWarningNotice(d.reason)
    case Warning2 => SecondWarningNotice(d.heartsLost, d.reason)
    case Banned => SuspensionNotice(d.reason, d.heartsLost)
    case NoAction => NoNotice
  }

  /** `checkMessage`: fails open on any invocation error, otherwise passes the
      decision through and picks a toast only for a blocked message. */
  function CheckMessage(inv: Invocation): (c: MessageCheck)
    ensures !c.result.Allowed() <==> inv.Delivered? && inv.response.Blocked?
    ensures c.result.FailOpen? <==> inv.InvokeFailed? || inv.response.Status() != 200
    ensures c.result.ServerDecision? ==> inv.Delivered? && c.result.decision == inv.response
    ensures c.notice.CheckFailedNotice? <==> c.result.FailOpen?
    ensures c.result.ServerDecision? && c.result.decision.Approved? ==> c.notice.NoNotice?
    ensures inv.Delivered? && inv.response.Blocked? ==> c.notice == NoticeFor(inv.response)
  {
    match inv
    case InvokeFailed => MessageCheck(FailOpen, CheckFailedNotice)
    case Delivered(r) =>
      if r.Status() != 200 then MessageCheck(FailOpen, CheckFailedNotice)
      else if !r.Allowed() && r.Blocked? then MessageCheck(ServerDecision(r), NoticeFor(r))
      else MessageCheck(ServerDecision(r), NoNotice)
  }

  // ---------------------------------------------------------------------------
  // The function and the hook together
  // ---------------------------------------------------------------------------

  /** The client refuses a message exactly when the function penalised it:
      every error of the function, a rate limit included, lets it through. */
  lemma ClientBlocksOnlyPenalized(body: Option<M.Request>, apiKeySet: bool, reply: M.ClassifierReply,
                                  parse: string -> Option<M.Verdict>, store: M.Store, writes: M.WriteResults, now: int)
    ensures var out := M.Evaluate(body, apiKeySet, reply, parse, store, writes, now);
            !CheckMessage(Delivered(out.response)).result.Allowed() <==> out.response.Blocked?
    ensures var out := M.Evaluate(body, apiKeySet, reply, parse, store, writes, now);
            !out.response.Blocked? ==> out.store == store
  {
  }

  /** The toast the sender sees follows the ladder: the first toxic message
      warns, the second reports 20 hearts lost, and every later one reports
      the suspension and 50 hearts lost, each quoting the classifier's reason. */
  lemma NoticeFollowsLadder(userId: string, message: string, v: M.Verdict, ledger: M.Ledger, store: M.Store,
                            writes: M.WriteResults, now: int)
    ensures var out := M.Penalize(userId, message, v, ledger, store, writes, now);
            var n := OrZero(ledger.warningCount) + 1;
            var notice := CheckMessage(Delivered(out.response)).notice;
            && (n == 1 ==> notice == FirstWarningNotice(v.reason))
            && (n == 2 ==> notice == SecondWarningNotice(20, v.reason))
            && (n >= 3 ==> notice == SuspensionNotice(v.reason, 50))
            && (n <= 0 ==> notice == NoNotice)
  {
  }

  /** A ban written by the function at time `t` holds through `t` + 24 h
      (the boundary included) and is lifted by the first check after that,
      which also resets the warning count. */
  lemma {:induction false} BanLastsOneDay(userId: string, message: string, v: M.Verdict, store: M.Store,
                                          t: int, later: int)
    requires v.isToxic && store.profile.Some? && OrZero(store.profile.value.warningCount) >= 2
    ensures var s := M.Strike(userId, message, v, store, t);
            var c := CheckBanStatus(s.profile, true, later, true);
            && (t <= later <= t + M.BanDurationMs ==> c.status == BannedUntil(t + M.BanDurationMs) && !c.wrote)
            && (later > t + M.BanDurationMs ==>
                  c.status.NotBanned? && c.profile.value.warningCount == Some(0) && !c.profile.value.isBanned)
  {
    var s := M.Strike(userId, message, v, store, t);
    assert s.profile.value.isBanned && s.profile.value.bannedUntil == Some(t + M.BanDurationMs);
  }

  /** After an expiry reset the ladder starts again: the next toxic message is
      a first warning with no hearts lost. */
  lemma {:induction false} LadderRestartsAfterExpiry(userId: string, message: string, v: M.Verdict,
                                                     store: M.Store, now: int, later: int)
    requires v.isToxic && store.profile.Some? && store.profile.value.isBanned
    requires store.profile.value.bannedUntil.Some? && now > store.profile.value.bannedUntil.value
    ensures var c := CheckBanStatus(store.profile, true, now, true);
            var out := M.Penalize(userId, message, v, c.profile.value, store.(profile := c.profile),
                                  M.WriteResults(true, true, true), later);
            out.response == M.Blocked(M.Warning1, 1, 0, None, v.reason)
  {
    var c := CheckBanStatus(store.profile, true, now, true);
    assert c.profile == Some(Expired(store.profile.value));
  }
}

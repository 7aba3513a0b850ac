# heartweave-chat: moderation ladder and client rules in Dafny

This project models the parts of heartweave-chat that hold decisions rather than plumbing. heartweave-chat is a university social app with a global chat, hearts, banners and communities.

- **`moderate-message` serverless function.** It asks an external model whether a chat message is toxic. If so, it applies an escalating penalty ladder to the sender's profile:
  - first a warning;
  - then a second warning that costs 20 hearts;
  - then a 24-hour ban costing 50 hearts.

  It also appends rows to a warning log and a ban log (`moderation.dfy`).
- **Client moderation hook** (`ban_status.dfy`):
  - `checkBanStatus` lazily lifts an expired ban and resets the warning count;
  - `checkMessage` calls the function and lets the message through on any error.
- **Suspension screen's countdown** (`ban_screen.dfy`).
- **Warning dialog's texts** (`warning_dialog.dfy`).
- **Chat page** (`chat.dfy`):
  - the half-hourly reset clock, with its warnings and final countdown;
  - the send guard and the emoji picker;
  - which message shows its author's header;
  - which banner is shown.
- **Banner rewards hook** (`banners.dfy`):
  - which banners the user's hearts unlock;
  - the statistics;
  - which display slot an auto-equipped banner takes;
  - the unlock upsert.
- **Onboarding step machine** (`onboarding.dfy`).
- **Communities page and hook** (`communities.dfy`):
  - the case-insensitive search;
  - the listing with membership flags;
  - creating with trimmed text, joining (the unique-violation code), leaving, and soft deletion.

Times are integer milliseconds since the epoch. Everything the source obtains from the outside world becomes a parameter:

- the clock;
- the classifier's reply;
- `JSON.parse`, a function from text to an optional verdict;
- the success of each database write;
- the rows a query returns.

The units of time are defined once, in the module `Time`. Nullable columns are `Option`s. A JavaScript `x || 0` on them is `OrZero`.

The shared module `Text` models the JavaScript built-ins the rules rely on:

- `trim`;
- ASCII `toLowerCase`;
- `includes`;
- `Number.prototype.toString` for naturals;
- `padStart(2, '0')`.

## Behaviours kept as written

These behaviours of the program are easy to mistake for bugs; the model keeps each one as the code has it:

- **Parse failures.** An answer from the classifier that cannot be parsed is treated as non-toxic and the message is approved (`Interpret`, `UnparseableAnswerAllowed`). It is not reported as a distinct failure.
- **Repeated bans.** Every toxic message at a count of 3 or more bans again. It appends another ban row and restarts the 24 hours, also for a user who is already banned (`BannedUserRebanned`).
- **Failed writes.** Failures of the warning insert and the profile update are logged and otherwise ignored. The result of the ban insert is not looked at at all. The response reports the penalty even when the profile was not updated (`FailedUpdateStillReported`).
- **Negative counts.** A stored warning count below 0 yields the empty action (`NoAction`) with no hearts lost. The dialog shows its suspension text for every count other than 1 and 2.

## Model

| member | source | states |
|---|---|---|
| Moderation.StripFences | supabase/functions/moderate-message/index.ts:86 | Removing the code fences never lengthens the answer and leaves text without backticks untouched |
| Moderation.FenceAlternatives | supabase/functions/moderate-message/index.ts:86 | The fence measured at the start of the text is "```json\n" when present, else "```json", else "```", else "\n```", and none exactly when neither alternative of the pattern matches there |
| Moderation.StripBeforeClosingFence | supabase/functions/moderate-message/index.ts:86 | A payload without backticks followed by a newline and closing fence is stripped back to the payload |
| Moderation.JsonFenceStripped | supabase/functions/moderate-message/index.ts:86 | A payload wrapped in a json fence comes back exactly |
| Moderation.PlainFenceStripped | supabase/functions/moderate-message/index.ts:86 | A payload wrapped in a bare fence comes back with only a leading newline, since the bare opening fence does not consume it |
| Moderation.FencedParsesAsBare | supabase/functions/moderate-message/index.ts:86-87 | After trimming, fenced and bare payloads give the same text, so they parse to the same verdict |
| Moderation.Interpret | supabase/functions/moderate-message/index.ts:83-92 | A missing content or a parse failure gives the non-toxic fallback verdict with reason "Error en análisis"; otherwise the parsed verdict |
| Moderation.TierOf | supabase/functions/moderate-message/index.ts:152-174 | New count 1 is warning_1, 2 is warning_2, 3 or more is banned, and 0 or less is the empty action, each as an if-and-only-if |
| Moderation.Penalize | supabase/functions/moderate-message/index.ts:127-205 | The response is blocked with the stored count plus one, the tier of that count, its hearts, an expiry 24 h ahead exactly when banned, and the verdict's reason; the record takes those values only when the update succeeds; a warning row and, when banning, a ban row are appended when their inserts succeed |
| Moderation.Evaluate | supabase/functions/moderate-message/index.ts:14-213 | Only a blocked message changes the store, and only after classification; the logs only grow, by at most one row each; the echoed count is the stored count plus one; a body that is not JSON, a missing key, a gateway error (429 as rate limited, any other status or an unreadable body as 500) and a failed profile read for a toxic verdict each get their own answer and write nothing |
| Moderation.MissingParametersRejected | supabase/functions/moderate-message/index.ts:18-23 | A missing or empty message or user id gets 400 before the classifier is called, and nothing is written |
| Moderation.UnparseableAnswerAllowed | supabase/functions/moderate-message/index.ts:83-106 | An answer with no content, or one that does not parse, approves the message and writes nothing |
| Moderation.NonToxicAllowed | supabase/functions/moderate-message/index.ts:96-106 | A non-toxic verdict allows the message and leaves the profile and logs untouched |
| Moderation.ToxicLadder | supabase/functions/moderate-message/index.ts:127-165 | The count rises by one from the stored value (null as 0); tiers give 0, 20 or 50 hearts lost, and only tier 3 has a ban ending 24 h later |
| Moderation.HeartsClamped | supabase/functions/moderate-message/index.ts:177 | The stored hearts are the old hearts minus the tier's loss, clamped at zero |
| Moderation.UpdateWritesFourFields | supabase/functions/moderate-message/index.ts:176-187 | The profile update writes exactly the count, the hearts, the ban flag and the expiry; below tier 3 it clears any previous ban |
| Moderation.FailedUpdateStillReported | supabase/functions/moderate-message/index.ts:189-205 | A failed profile update leaves the record unchanged, yet the penalty is still returned |
| Moderation.LogAppends | supabase/functions/moderate-message/index.ts:132-173 | Each toxic call appends one warning row with the message, severity and reason; a ban row with the prefixed reason is appended exactly when the count reaches 3 or more |
| Moderation.ToxicResponseEchoes | supabase/functions/moderate-message/index.ts:195-205 | The toxic response is not allowed, has status 200, carries the reason, the tier's hearts, and an expiry exactly when banned |
| Moderation.NoEmptyActionForSaneRecord | supabase/functions/moderate-message/index.ts:147-174 | For a non-negative stored count the action is never empty |
| Moderation.ThreeStrikes | supabase/functions/moderate-message/index.ts:127-187 | Three toxic messages take a clean record to count 3, banned for 24 h from the third, with 70 hearts lost (clamped) and three warning rows and one ban row |
| Moderation.BannedUserRebanned | supabase/functions/moderate-message/index.ts:160-187 | A banned user sending another toxic message gets a fresh 24 h ban and another ban row |
| BanStatus.Expired | src/hooks/useModeration.tsx:77-84 | The expiry update clears the ban and its expiry and zeroes the warning count, keeping the hearts |
| BanStatus.CheckBanStatus | src/hooks/useModeration.tsx:60-100 | Banned exactly while a stored ban's expiry is not yet past, with that expiry; the reset is written exactly when the expiry is strictly past; read failures answer not banned |
| BanStatus.NotBannedWithoutStoredBan | src/hooks/useModeration.tsx:62-68 | No row, no ban flag or no expiry answers not banned and writes nothing |
| BanStatus.CheckIdempotent | src/hooks/useModeration.tsx:70-93 | After a check whose reset write (if it made one) succeeded and which answered not banned, every later check answers the same and writes nothing; repeating that check at the same instant changes nothing |
| BanStatus.NoticeFor | src/hooks/useModeration.tsx:28-45 | warning_1 gives the first-warning toast with the reason, warning_2 the second-warning toast with the hearts lost and the reason, banned the suspension toast with both; the empty action shows none |
| BanStatus.CheckMessage | src/hooks/useModeration.tsx:17-58 | A message is refused exactly when a 200 response blocked it, and then the toast is the one its action selects; any invocation error or non-2xx status fails open with the error toast |
| BanStatus.NoticeFollowsLadder | src/hooks/useModeration.tsx:28-45 | Over the penalty step, the first toxic message shows the warning toast, the second reports 20 hearts lost, every later one the suspension with 50 hearts, each with the classifier's reason |
| BanStatus.ClientBlocksOnlyPenalized | src/hooks/useModeration.tsx:20-48 | Over the whole function, the client refuses exactly the messages the function penalised, and nothing else changes the store |
| BanStatus.BanLastsOneDay | src/hooks/useModeration.tsx:70-93 | A ban written at t holds up to and including t + 24 h, and the first check after that lifts it and zeroes the count |
| BanStatus.LadderRestartsAfterExpiry | src/hooks/useModeration.tsx:77-84 | After an expiry reset the next toxic message is a first warning with no hearts lost |
| BanScreen.Decompose | src/components/BannedUserScreen.tsx:25-27 | Hours, minutes and seconds taken by floor division have minutes and seconds below 60 and account for the duration to within a second |
| BanScreen.TimeRemaining | src/components/BannedUserScreen.tsx:15-30 | Expired exactly when the difference is not positive; otherwise an h/m/s split below the duration by less than a second |
| BanScreen.RemainingText | src/components/BannedUserScreen.tsx:21-29 | The expiry sentence is shown exactly when the ban is over; otherwise a count that starts with a digit and ends in "s" |
| BanScreen.DecompositionUnique | src/components/BannedUserScreen.tsx:25-27 | Any h/m/s triple with minutes and seconds below 60 that fits the duration to the second is the one shown |
| BanScreen.RemainingTextRoundTrip | src/components/BannedUserScreen.tsx:21-29 | The text "{h}h {m}m {s}s", or the expiry sentence, reads back as what it shows |
| WarningDialog.GetWarningMessage | src/components/ModerationWarningDialog.tsx:17-35 | Count 1 and count 2 get their own titles and every other count gets the suspension title; the description always contains the reason after its label |
| WarningDialog.DialogAgreesWithLadder | src/components/ModerationWarningDialog.tsx:18-33 | For every count the ladder produces, the dialog names the same step and the hearts it states match the ladder's |
| WarningDialog.DialogQuotesHeartsLost | src/components/ModerationWarningDialog.tsx:24-33 | The second-warning and suspension texts contain "20 corazones" and "50 corazones" |
| Chat.NextReset | src/pages/Chat.tsx:39-54 | The reset is later than now by at most 30 minutes and falls on a half-hour boundary of the current hour |
| Chat.NextResetIsEarliest | src/pages/Chat.tsx:45-54 | No half-hour boundary after now comes before the chosen reset |
| Chat.CeilSeconds | src/pages/Chat.tsx:104 | The rounded-up seconds are the least whole seconds covering the difference |
| Chat.RemainingText | src/pages/Chat.tsx:69-72 | The "m:ss" text shows the whole minutes and the seconds below 60 that remain of the difference |
| Chat.Countdown | src/pages/Chat.tsx:102-116 | The countdown exists exactly over the last 30 s, between 1 and 30, as the seconds left rounded up |
| Chat.Toasts | src/pages/Chat.tsx:74-113 | Each of the three warnings and the countdown start is raised exactly when the difference lies in its one-second window |
| Chat.Tick | src/pages/Chat.tsx:58-117 | Messages are cleared exactly when the difference is not positive; the text shows whole minutes and seconds; each warning fires exactly in its one-second window; the countdown runs over the last 30 s |
| Chat.WindowHitOnce | src/pages/Chat.tsx:74-113 | Ticking once a second from before a warning's window lands in that window on exactly one tick |
| Chat.ClockTextRoundTrip | src/pages/Chat.tsx:69-72 | The "m:ss" text reads back as the minutes and seconds it shows |
| Chat.HandleSend | src/pages/Chat.tsx:128-135 | A draft that trims to nothing is not sent and is kept; any other draft is sent as typed and cleared |
| Chat.AddEmoji | src/pages/Chat.tsx:148-151 | The draft becomes the old draft followed by the emoji, and the picker closes |
| Chat.IsConsecutive | src/pages/Chat.tsx:219-220 | A message is consecutive exactly when it has a predecessor by the same author; the first never is |
| Chat.HeadersPerRun | src/pages/Chat.tsx:226-259 | In a run by one author only the first message shows the header |
| Chat.ShownBadge | src/pages/Chat.tsx:262-264 | The banner shown is the earliest one with the lowest position, and none is shown when nothing is equipped |
| Banners.FirstUnlockedAt | src/hooks/useUserBanners.tsx:85 | Yields a date exactly when an unlock row for the banner exists, and then the date of the first such row |
| Banners.Combine | src/hooks/useUserBanners.tsx:66-87 | One entry per catalogue banner in order, fields copied; unlocked iff unlocked before or the hearts cover it; the date is that of the banner's first unlock row, present exactly when unlocked before |
| Banners.AutoEquipExactlyNew | src/hooks/useUserBanners.tsx:69-76 | Auto-equip is asked exactly for the banners not unlocked before whose requirement the hearts meet |
| Banners.AutoEquipIds | src/hooks/useUserBanners.tsx:74-76 | At most one id per catalogue banner, and none of them was unlocked before |
| Banners.CountUnlocked | src/hooks/useUserBanners.tsx:91 | The unlocked count never exceeds the list length |
| Banners.UnlockedSplits | src/hooks/useUserBanners.tsx:69-95 | The unlocked count is the banners unlocked before plus the ones auto-equipped now |
| Banners.FetchUserBanners | src/hooks/useUserBanners.tsx:32-105 | Nothing without a user; a read failure gives the error state; otherwise the list is the combined catalogue, stats.total its length, stats.unlocked the count of its unlocked entries (the ones unlocked before plus the auto-equipped ones), userHearts the stored hearts (null as 0), and every newly unlocked banner is handed to auto-equip |
| Banners.EquipInto | src/hooks/useUserBanners.tsx:124-146 | With fewer than two equipped the banner is added at position count+1; otherwise position 1 is replaced and the count is unchanged |
| Banners.Upsert | src/hooks/useUserBanners.tsx:148-157 | Afterwards the banner has an unlock row carrying the new date; other rows are kept; a new row is added only if none existed; no duplicates are created |
| Banners.AutoEquip | src/hooks/useUserBanners.tsx:111-176 | No user or a failed read changes nothing; a failed slot write stops before the upsert; otherwise the display is the slot update of EquipInto, and on success the unlock rows are the upsert of the banner |
| Banners.TwoSlots | src/hooks/useUserBanners.tsx:124-146 | From an empty display two auto-equips fill positions 1 and 2 and a third replaces position 1 |
| Onboarding.IsNew | src/hooks/useOnboarding.tsx:76-82 | New exactly when the profile is at most 24 h old and the walkthrough is not finished |
| Onboarding.Find | src/hooks/useOnboarding.tsx:117-119 | The first step matching the event (and, for triggering, not yet completed), or none when no step matches |
| Onboarding.FetchProgress | src/hooks/useOnboarding.tsx:56-98 | No user or a read failure changes nothing; the new-user flag follows the age rule; a new user is shown the first immediate step when there is one; for anyone else the shown step is unchanged |
| Onboarding.MarkCompleted | src/hooks/useOnboarding.tsx:101-103 | Only steps with the id become completed; every other field and step is unchanged |
| Onboarding.CompleteStep | src/hooks/useOnboarding.tsx:100-112 | Marks the step, hides the shown step, and sets the finished flag iff a user is present and every step is then completed |
| Onboarding.TriggerStep | src/hooks/useOnboarding.tsx:114-124 | No change unless the user is new and signed in; then it shows the first uncompleted step of that event, and nothing changes when there is none |
| Onboarding.DismissCurrentStep | src/hooks/useOnboarding.tsx:126-130 | With no shown step nothing changes; otherwise it completes the shown step |
| Onboarding.CompleteStepIdempotent | src/hooks/useOnboarding.tsx:100-112 | Completing a step twice is the same as completing it once |
| Onboarding.CompletedNotRetriggered | src/hooks/useOnboarding.tsx:114-124 | A completed step is never shown again by its event |
| Onboarding.NextPendingIsK | src/hooks/useOnboarding.tsx:14-47 | With the first k default steps completed, step k is the first pending step of its event |
| Onboarding.Advance | src/hooks/useOnboarding.tsx:14-47 | In the default walkthrough each step's event shows it and dismissing it completes it; the last one sets the finished flag |
| Onboarding.WelcomeShownFirst | src/hooks/useOnboarding.tsx:85-91 | A fresh profile is new and is shown the welcome step |
| Communities.Search | src/pages/Communities.tsx:26-29 | The result keeps exactly the communities whose name or non-null description contains the query ignoring case, in their original order |
| Communities.EmptyQueryKeepsAll | src/pages/Communities.tsx:26-29 | The empty query keeps every community |
| Communities.SearchIgnoresQueryCase | src/pages/Communities.tsx:27-28 | Folding the query's case first does not change the result |
| Communities.NameAloneDecides | src/pages/Communities.tsx:28 | Without a description only the name is searched |
| Communities.ActiveOnly | src/hooks/useCommunities.tsx:47-54 | The listing keeps exactly the active rows, in order |
| Communities.Enrich | src/hooks/useCommunities.tsx:65-70 | Same length and order; each row gets whether its id is a membership, with every other field unchanged |
| Communities.FetchCommunities | src/hooks/useCommunities.tsx:45-82 | A failed listing keeps the old list; with no user the active rows are unchanged; with a user each is flagged by the user's membership, and a failed membership read counts as none |
| Communities.ActiveIsListed | src/hooks/useCommunities.tsx:53-70 | Every active community is listed with its membership flag |
| Communities.CreateCommunity | src/hooks/useCommunities.tsx:84-119 | No user or a failed insert creates nothing; otherwise the stored row has the trimmed name and description, the caller as creator, and is active; the creator's membership goes through the membership insert, so it is added unless that insert fails and is never duplicated |
| Communities.CreatedTextTrimmed | src/hooks/useCommunities.tsx:94-95 | Surrounding white space is dropped and nothing else changes |
| Communities.CreatedIsListed | src/hooks/useCommunities.tsx:91-112 | A new community appears in its creator's next listing, flagged as joined when the membership insert succeeded or the membership already existed |
| Communities.InsertMembership | src/hooks/useCommunities.tsx:128-133 | A second membership in the same community fails with code 23505 and changes nothing |
| Communities.JoinCommunity | src/hooks/useCommunities.tsx:121-147 | Without a user sign-in is asked for; an insert that meets no error joins and adds the membership; already a member is reported exactly on code 23505 (or an existing membership); any other error is a failure that changes nothing |
| Communities.JoinTwice | src/hooks/useCommunities.tsx:141-142 | A second join reports already a member and changes nothing |
| Communities.LeaveCommunity | src/hooks/useCommunities.tsx:149-167 | Removes exactly the caller's membership of the community; no user or a failed delete changes nothing |
| Communities.RemoveAll | src/hooks/useCommunities.tsx:153-157 | The delete removes every copy of the membership and keeps every other row |
| Communities.LeftIsNotMember | src/hooks/useCommunities.tsx:153-157 | After leaving, the listing flags the community as not joined |
| Communities.DeleteCommunity | src/hooks/useCommunities.tsx:169-187 | Clears the active flag only on rows with the id created by the caller; everything else is kept |
| Communities.DeletedNotListed | src/hooks/useCommunities.tsx:173-177 | A community its creator deleted is no longer listed; a delete by anyone else changes nothing |
| Text.TrimEmptyIffAllSpace | src/pages/Chat.tsx:130 | A string trims to nothing exactly when it is all white space |
| Text.TrimUnwraps | src/hooks/useCommunities.tsx:94-95 | Trimming text without surrounding white space, wrapped in white space, gives the text back |
| Text.TrimStartDropsSpace | src/hooks/useCommunities.tsx:94-95 | Trimming the front keeps a suffix, drops only white space, and stops at the first character that is not white space |
| Text.TrimEndDropsSpace | src/hooks/useCommunities.tsx:94-95 | Trimming the end keeps a prefix, drops only white space, and stops at the last character that is not white space |
| Text.ContainsIff | src/pages/Communities.tsx:27-28 | The substring scan succeeds exactly when the query occurs at some position |
| Text.DecimalRoundTrip | src/components/BannedUserScreen.tsx:29 | A number's decimal rendering reads back as the number |
| Text.PadTwoOfSmall | src/pages/Chat.tsx:72 | A number below 100 zero-padded is exactly two digits with the number's value |

## Left out

- **HTTP side of the function.** The call to the model gateway, the CORS/OPTIONS branch, headers and the console logging are left out. The gateway reply is an input (`ClassifierReply`). The request body is an input that is absent when it is not JSON.
- **Parsing the classifier's JSON.** `JSON.parse` of the classifier answer is a parameter. It is not a JSON parser, and fields of the wrong type are not modelled.
- Moderation.Evaluate: request fields are modelled as strings, so a truthy non-string `message` or `userId` (such as the number 5) is answered with 400 by the model, whereas the handler's truthiness test lets it through to the classifier. Likewise, an answer that parses to `null` makes the handler throw when it reads `is_toxic` and answer 500; the model's parse result is an optional verdict and has no such case. Both are JSON type-level cases outside the string-and-verdict model.
- **Clock conversions.** Dates and clocks become integer milliseconds: `new Date()`, ISO strings, `toISOString`, invalid dates, time zones and daylight saving. For the chat's reset, the local minute, second and millisecond of "now" are inputs.
- **Timers and effects.** `setInterval`, React state and effects, and re-renders are left out. `Chat.Tick` is one timer callback. The reset instant is computed once when the page mounts, and the model does not track how often the callback runs after it.
- **Concurrency.** Two moderation calls for one user can race on the read-modify-write of the profile; nothing here models it. The same goes for the concurrent auto-equip calls that one banner fetch can start, and for realtime subscriptions.
- **Non-atomic writes.** The function's three writes are not atomic. Each write's success is an independent input, and the model does not cover a crash in between.
- **Presentation.** Which toast is raised is modelled (`BanStatus.Notice`, `Chat.Toast`); its wording, icons, styling and timing are not. `localStorage` access other than the onboarding "finished" flag, navigation, JSX layout, avatars and the emoji list are left out. The onboarding flag is a field of the state.
- **Case folding.** Only ASCII case is folded: `toLowerCase` on non-ASCII letters is not modelled. (`trim` is modelled with the full set of ECMAScript white space and line terminators.)
- **Database side.** Ordering is left out: banners by `hearts_required`, communities by `created_at`, equipped banners by `position`. Lists keep table order. The new community's id and timestamp are inputs. Its counters start at 0 and it starts active, as the database defaults are assumed to do. The unique key on memberships is modelled inside `InsertMembership`.
- **Banner toast.** The read of the unlocked banner's name for the success toast in `autoEquipBanner` is left out.
- **Onboarding age.** `Onboarding.IsNew` compares integer milliseconds with 24 hours. The source compares a floating-point hour count, which agrees except for rounding at the boundary.
- **Stale closures.** `Onboarding.CompleteStep` reads the steps of the state it is given. In the source the flag check reads the steps captured by the render, which can be stale.
- **Generated code and other files.** The generated database types, posts, profiles, storage, navigation and dialogs other than the warning dialog are not part of this model.

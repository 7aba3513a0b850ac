/** The onboarding walkthrough: a fixed list of steps, each shown on an event
    to users whose profile is at most a day old and who have not finished
    the walkthrough. The per-user "finished" flag of the browser's local
    storage is part of the state; the profile's age is an input. */
module Onboarding {
  import opened Wrappers
  import opened Time

  /** Profiles up to this age count as new. */
  const NewUserWindowMs: int := 24 * HourMs

  /** The event that shows a step. */
  datatype Trigger = Immediate | AfterFirstMessage | AfterHearts | AfterBannerUnlock

  datatype Step = Step(id: string, title: string, description: string, target: Option<string>,
                       completed: bool, trigger: Trigger)

  /** The walkthrough as it starts: four steps, none completed. */
  const DefaultSteps: seq<Step> := [
    Step("welcome", "\U{A1}Bienvenido a H Chat!",
         "Escribe tu primer mensaje y comienza a ganar corazones",
         Some("message-input"), false, Immediate),
    Step("first_message", "\U{A1}Excelente!",
         "Has enviado tu primer mensaje. Ahora revisa tu posici\U{F3}n en la Tabla de Popularidad",
         Some("leaderboard-nav"), false, AfterFirstMessage),
    Step("hearts_earned", "\U{A1}Corazones ganados!",
         "Usa tus corazones para desbloquear nuevos banners incre\U{ED}bles",
         Some("banners-nav"), false, AfterHearts),
    Step("banner_unlocked", "\U{A1}Banner desbloqueado!",
         "Configura los banners que mostrar\U{E1}s en tu perfil",
         Some("profile-nav"), false, AfterBannerUnlock)
  ]

  /** The hook's state, with the user's "finished" flag. */
  datatype State = State(steps: seq<Step>, current: Option<Step>, isNewUser: bool, finished: bool)

  function Initial(finished: bool): State {
    State(DefaultSteps, None, false, finished)
  }

  /** A user is new while the profile is at most 24 hours old and the
      walkthrough is not finished. */
  function IsNew(ageMs: int, finished: bool): (b: bool)
    ensures b ==> !finished
    ensures !finished ==> (b <==> ageMs <= NewUserWindowMs)
  {
    ageMs <= NewUserWindowMs && !finished
  }

  /** A step the event `t` can show; `pendingOnly` also asks that it is not completed. */
  predicate Matches(s: Step, t: Trigger, pendingOnly: bool) {
    s.trigger == t && (!pendingOnly || !s.completed)
  }

  /** The index of the first matching step (`Array.prototype.find`). */
  function Find(steps: seq<Step>, t: Trigger, pendingOnly: bool): (r: Option<nat>)
    ensures r.Some? ==> r.value < |steps| && Matches(steps[r.value], t, pendingOnly)
    ensures r.Some? ==> forall j :: 0 <= j < r.value ==> !Matches(steps[j], t, pendingOnly)
    ensures r.None? ==> forall j :: 0 <= j < |steps| ==> !Matches(steps[j], t, pendingOnly)
  {
    if steps == [] then None
    else if Matches(steps[0], t, pendingOnly) then Some(0)
    else
      match Find(steps[1..], t, pendingOnly)
      case None => None
      case Some(k) => Some(k + 1)
  }

  /** `fetchOnboardingProgress`. `createdAt` is `None` when the profile read
      fails, which leaves the state as it was. A new user is shown the first
      immediate step; otherwise the shown step does not change. */
  function FetchProgress(st: State, signedIn: bool, createdAt: Option<int>, now: int): (r: State)
    ensures !signedIn || createdAt.None? ==> r == st
    ensures r.steps == st.steps && r.finished == st.finished
    ensures signedIn && createdAt.Some? ==> r.isNewUser == IsNew(now - createdAt.value, st.finished)
    ensures r.current != st.current ==>
              r.isNewUser && exists i :: 0 <= i < |st.steps| && st.steps[i].trigger == Immediate
                                         && r.current == Some(st.steps[i])
    // A new user is shown the first immediate step, when there is one.
    ensures signedIn && createdAt.Some? && r.isNewUser && Find(st.steps, Immediate, false).Some? ==>
              r.current == Some(st.steps[Find(st.steps, Immediate, false).value])
    ensures !r.isNewUser ==> r.current == st.current
  {
    if !signedIn then st
    else
      match createdAt
      case None => st
      case Some(c) =>
        var isNew := IsNew(now - c, st.finished);
        if isNew then
          match Find(st.steps, Immediate, false)
          case Some(i) => st.(isNewUser := true, current := Some(st.steps[i]))
          case None => st.(isNewUser := true)
        else st.(isNewUser := false)
  }

  predicate AllCompleted(steps: seq<Step>) {
    forall i :: 0 <= i < |steps| ==> steps[i].completed
  }

  /** Marks every step with the given id completed; nothing else changes. */
  function MarkCompleted(steps: seq<Step>, id: string): (r: seq<Step>)
    ensures |r| == |steps|
    ensures forall i :: 0 <= i < |r| ==>
              r[i] == steps[i].(completed := steps[i].completed || steps[i].id == id)
  {
    seq(|steps|, i requires 0 <= i < |steps| =>
          if steps[i].id == id then steps[i].(completed := true) else steps[i])
  }

  /** `completeStep`: marks the step, hides the shown step, and records the
      walkthrough as finished for a signed-in user once no step is left. */
  function CompleteStep(st: State, id: string, signedIn: bool): (r: State)
    ensures r.steps == MarkCompleted(st.steps, id)
    ensures r.current.None? && r.isNewUser == st.isNewUser
    ensures r.finished <==> st.finished || (signedIn && AllCompleted(r.steps))
  {
    var steps := MarkCompleted(st.steps, id);
    var allDone := forall i :: 0 <= i < |st.steps| ==> st.steps[i].completed || st.steps[i].id == id;
    assert allDone <==> AllCompleted(steps);
    State(steps, None, st.isNewUser, st.finished || (allDone && signedIn))
  }

  /** `triggerStep`: for a signed-in new user, shows the first uncompleted
      step of the event; otherwise, or when there is none, nothing changes. */
  function TriggerStep(st: State, t: Trigger, signedIn: bool): (r: State)
    ensures r.steps == st.steps && r.isNewUser == st.isNewUser && r.finished == st.finished
    ensures !st.isNewUser || !signedIn ==> r == st
    ensures r.current != st.current ==>
              exists i :: 0 <= i < |st.steps| && Matches(st.steps[i], t, true) && r.current == Some(st.steps[i])
    // The step shown is the first pending step of the event, as `find` picks it.
    ensures st.isNewUser && signedIn && Find(st.steps, t, true).Some? ==>
              r.current == Some(st.steps[Find(st.steps, t, true).value])
  {
    if !st.isNewUser || !signedIn then st
    else
      match Find(st.steps, t, true)
      case Some(i) => st.(current := Some(st.steps[i]))
      case None => st
  }

  /** `dismissCurrentStep`: completes the shown step, if there is one. */
  function DismissCurrentStep(st: State, signedIn: bool): (r: State)
    ensures st.current.None? ==> r == st
    ensures st.current.Some? ==> r == CompleteStep(st, st.current.value.id, signedIn)
  {
    match st.current
    case None => st
    case Some(s) => CompleteStep(st, s.id, signedIn)
  }

  /** Completing a step is idempotent. */
  lemma CompleteStepIdempotent(st: State, id: string, signedIn: bool)
    ensures CompleteStep(CompleteStep(st, id, signedIn), id, signedIn) == CompleteStep(st, id, signedIn)
  {
    var once := CompleteStep(st, id, signedIn);
    var twice := CompleteStep(once, id, signedIn);
    assert twice.steps == once.steps;
  }

  /** A completed step is never shown again by its event. */
  lemma {:induction false} CompletedNotRetriggered(st: State, id: string, t: Trigger, signedIn: bool)
    ensures var r := TriggerStep(CompleteStep(st, id, signedIn), t, signedIn);
            r.current.Some? ==> r.current.value.id != id
  {
    var c := CompleteStep(st, id, signedIn);
    var r := TriggerStep(c, t, signedIn);
    if r.current.Some? {
      var i :| 0 <= i < |c.steps| && Matches(c.steps[i], t, true) && r.current == Some(c.steps[i]);
      assert c.steps[i].id != id;
    }
  }

  /** The default steps with the first `k` completed. */
  function DoneUpTo(k: nat): (r: seq<Step>)
    ensures |r| == |DefaultSteps|
  {
    seq(|DefaultSteps|, i requires 0 <= i < |DefaultSteps| => DefaultSteps[i].(completed := i < k))
  }

  /** With the first `k` default steps done, step `k` is the first pending
      step of its event. */
  lemma {:induction false} NextPendingIsK(k: nat)
    requires k < |DefaultSteps|
    ensures Find(DoneUpTo(k), DefaultSteps[k].trigger, true) == Some(k)
  {
    var steps := DoneUpTo(k);
    var t := DefaultSteps[k].trigger;
    assert Matches(steps[k], t, true);
    forall j | 0 <= j < k
      ensures !Matches(steps[j], t, true)
    {
      assert steps[j].completed;
    }
    var r := Find(steps, t, true);
    assert r.Some?;
    assert r.value == k;
  }

  /** Completing step `k` of the default steps with the first `k` done
      leaves the first `k + 1` done. */
  lemma {:induction false} CompletingKAdvances(k: nat)
    requires k < |DefaultSteps|
    ensures MarkCompleted(DoneUpTo(k), DefaultSteps[k].id) == DoneUpTo(k + 1)
  {
    var m := MarkCompleted(DoneUpTo(k), DefaultSteps[k].id);
    forall i | 0 <= i < |DefaultSteps|
      ensures m[i] == DoneUpTo(k + 1)[i]
    {
      assert (DefaultSteps[i].id == DefaultSteps[k].id) == (i == k);
    }
  }

  /** From the default steps with the first `k` done, the event of step `k`
      shows it and dismissing it completes it, finishing the walkthrough
      exactly with the last step. */
  lemma {:induction false} Advance(k: nat)
    requires k < |DefaultSteps|
    ensures var st := State(DoneUpTo(k), None, true, false);
            var shown := TriggerStep(st, DefaultSteps[k].trigger, true);
            && shown.current == Some(DoneUpTo(k)[k])
            && DismissCurrentStep(shown, true) == State(DoneUpTo(k + 1), None, true, k + 1 == |DefaultSteps|)
  {
    var st := State(DoneUpTo(k), None, true, false);
    NextPendingIsK(k);
    var shown := TriggerStep(st, DefaultSteps[k].trigger, true);
    assert shown == st.(current := Some(DoneUpTo(k)[k]));
    CompletingKAdvances(k);
    var d := DismissCurrentStep(shown, true);
    assert d.steps == DoneUpTo(k + 1);
    assert k + 1 == |DefaultSteps| ==> AllCompleted(d.steps);
    assert k + 1 < |DefaultSteps| ==> !d.steps[|DefaultSteps| - 1].completed;
  }

  /** The walkthrough from a fresh profile: the welcome step is shown at once. */
  lemma WelcomeShownFirst(now: int, createdAt: int)
    requires 0 <= now - createdAt <= NewUserWindowMs
    ensures var s0 := FetchProgress(Initial(false), true, Some(createdAt), now);
            s0 == State(DoneUpTo(0), Some(DefaultSteps[0]), true, false)
  {
    assert DoneUpTo(0) == DefaultSteps;
  }
}

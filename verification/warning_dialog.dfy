/** The dialog that tells the sender which step of the ladder a blocked
    message reached. */
module WarningDialog {
  import Text
  import M = Moderation

  const FirstWarningTitle: string := "\U{26A0}\U{FE0F} Primera Advertencia"
  const SecondWarningTitle: string := "\U{1F6A8} Segunda Advertencia"
  const SuspendedTitle: string := "\U{1F6AB} Cuenta Suspendida"

  const ReasonLabel: string := "\n\nRaz\U{F3}n: "

  const FirstWarningLead: string := "Tu mensaje ha sido bloqueado por contenido inapropiado."
  const FirstWarningTail: string :=
    "\n\nPor favor, mant\U{E9}n un lenguaje respetuoso. La pr\U{F3}xima advertencia resultar\U{E1} en p\U{E9}rdida de corazones."
  const Deducted: string := "se han descontado "
  const SecondWarningLead: string := "Tu mensaje ha sido bloqueado y " + Deducted + HeartsPhrase(20) + "."
  const SecondWarningTail: string :=
    "\n\nUna tercera advertencia resultar\U{E1} en suspensi\U{F3}n temporal de 24 horas."
  const SuspendedLead: string :=
    "Tu cuenta ha sido suspendida por 24 horas debido a comportamiento t\U{F3}xico reiterado."
  const SuspendedTail: string := "\n\nSe han descontado " + HeartsPhrase(50) + " adicionales."

  /** "{n} corazones". */
  function HeartsPhrase(n: nat): string {
    Text.NatToString(n) + " corazones"
  }

  datatype WarningMessage = WarningMessage(title: string, description: string)

  /** `getWarningMessage`: count 1 and count 2 have their own texts; every
      other count, 0 and negatives included, gets the suspension text. */
  function GetWarningMessage(warningCount: int, reason: string): (w: WarningMessage)
    ensures w.title == FirstWarningTitle <==> warningCount == 1
    ensures w.title == SecondWarningTitle <==> warningCount == 2
    ensures w.title == SuspendedTitle <==> warningCount != 1 && warningCount != 2
    // The classifier's reason appears in the description, after the label.
    ensures Text.Contains(w.description, ReasonLabel + reason)
  {
    var w :=
      if warningCount == 1 then
        WarningMessage(FirstWarningTitle, FirstWarningLead + (ReasonLabel + reason) + FirstWarningTail)
      else if warningCount == 2 then
        WarningMessage(SecondWarningTitle, SecondWarningLead + (ReasonLabel + reason) + SecondWarningTail)
      else
        WarningMessage(SuspendedTitle, SuspendedLead + (ReasonLabel + reason) + SuspendedTail);
    EmbeddedIsContained(FirstWarningLead, ReasonLabel + reason, FirstWarningTail);
    EmbeddedIsContained(SecondWarningLead, ReasonLabel + reason, SecondWarningTail);
    EmbeddedIsContained(SuspendedLead, ReasonLabel + reason, SuspendedTail);
    w
  }

  lemma EmbeddedIsContained(a: string, b: string, c: string)
    ensures Text.Contains(a + b + c, b)
  {
    Text.ContainsIff(a + b + c, b);
    assert (a + b + c)[|a|..|a| + |b|] == b;
    assert Text.OccursAt(a + b + c, b, |a|);
  }

  /** The number of hearts the dialog says were lost. */
  function StatedHeartsLost(warningCount: int): int {
    if warningCount == 1 then 0 else if warningCount == 2 then 20 else 50
  }

  /** For every count the ladder can hand out (1 and up), the dialog's title
      names the ladder's step and the hearts it quotes are the hearts the
      ladder took. */
  lemma DialogAgreesWithLadder(n: int, reason: string)
    requires n >= 1
    ensures var w := GetWarningMessage(n, reason);
            var a := M.TierOf(n);
            && (a == M.Warning1 <==> w.title == FirstWarningTitle)
            && (a == M.Warning2 <==> w.title == SecondWarningTitle)
            && (a == M.Banned <==> w.title == SuspendedTitle)
            && M.HeartsLostFor(a) == StatedHeartsLost(n)
  {
  }

  lemma EmbeddedInFive(a: string, b: string, c: string, d: string, e: string)
    ensures Text.Contains(a + b + c + d + e, b)
  {
    assert a + b + c + d + e == a + b + (c + d + e);
    EmbeddedIsContained(a, b, c + d + e);
  }

  /** The hearts the dialog quotes appear in its text. */
  lemma DialogQuotesHeartsLost(n: int, reason: string)
    requires n >= 2
    ensures Text.Contains(GetWarningMessage(n, reason).description, HeartsPhrase(StatedHeartsLost(n)))
  {
    var body := ReasonLabel + reason;
    if n == 2 {
      EmbeddedInFive("Tu mensaje ha sido bloqueado y " + Deducted, HeartsPhrase(20), ".", body, SecondWarningTail);
    } else {
      EmbeddedInFive(SuspendedLead + body + "\n\nSe han descontado ", HeartsPhrase(50), " adicionales.", [], []);
      assert SuspendedLead + body + SuspendedTail
          == SuspendedLead + body + "\n\nSe han descontado " + HeartsPhrase(50) + " adicionales." + [] + [];
    }
  }
}

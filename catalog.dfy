/**
  The fixed vocabulary of the bot: the text handler's switch from a button
  label to a voice file, the start keyboard whose buttons send those labels,
  and the referral message built from a chat ID. All of it is exact string
  comparison: no trimming and no case folding.
 */
module Catalog {
  import opened Wrappers
  import Decimal

  type ChatId = Decimal.Int64

  const ReferralButton := "Реферальне посилання"

  /** The twelve voice buttons, in the order of the switch's cases. */
  const Triggers: seq<string> := [
    "що є поїсти ?",
    "я долбойоб ?",
    "де заробить грошей ?",
    "А шо не так ?",
    "горілка",
    "як ти ?",
    "а Сухлякі шо ?",
    "шо робить з цим підром ?",
    "єбало",
    "хуйло",
    "приучила",
    "мене кінув шеф на гроші"
  ]

  /** The voice file each case of the switch sends, index for index with Triggers. */
  const VoiceFiles: seq<string> := [
    "voice/2.ogg",
    "voice/two_downs.ogg",
    "voice/krad_.ogg",
    "voice/hatyla.ogg",
    "voice/kol_ka.ogg",
    "voice/worse.ogg",
    "voice/suchlak.ogg",
    "voice/axe.ogg",
    "voice/ebalo.ogg",
    "voice/huilo.ogg",
    "voice/priuchila.ogg",
    "voice/verovka.ogg"
  ]

  /** Where the text handler's switch sends a message text. */
  datatype Route =
    | Voice(file: string, button: string)
    | Referral
    | Unmatched

  /** The first voice case at or after `from` whose label is exactly `text`. */
  function FindCase(text: string, from: nat): (r: Option<nat>)
    requires from <= |Triggers|
    ensures r.Some? ==> from <= r.value < |Triggers| && Triggers[r.value] == text
    ensures r.Some? ==> forall j :: from <= j < r.value ==> Triggers[j] != text
    ensures r.None? ==> forall j :: from <= j < |Triggers| ==> Triggers[j] != text
    decreases |Triggers| - from
  {
    if from == |Triggers| then None
    else if Triggers[from] == text then Some(from)
    else FindCase(text, from + 1)
  }

  /** The switch of the text handler: its voice cases in order, then the referral button.
      The button handed to sendVoice is always the text itself. */
  function RouteOf(text: string): (r: Route)
    ensures r.Voice? ==> r.button == text
  {
    match FindCase(text, 0)
    case Some(i) => Voice(VoiceFiles[i], Triggers[i])
    case None => if text == ReferralButton then Referral else Unmatched
  }

  /** The switch agrees with the Triggers/VoiceFiles table: exactly the twelve triggers
      reach a voice file, each its own, and only the referral label reaches the referral. */
  lemma SwitchIsCatalog(text: string)
    ensures RouteOf(text).Voice? <==> text in Triggers
    ensures RouteOf(text).Referral? <==> text == ReferralButton
    ensures forall i :: 0 <= i < |Triggers| && Triggers[i] == text ==>
              RouteOf(text) == Voice(VoiceFiles[i], text)
  {
    CatalogIsOneToOne();
  }

  /** A button that reaches sendVoice is never Go's zero value "" for a missing map entry. */
  lemma VoiceButtonIsNotEmpty(text: string)
    requires RouteOf(text).Voice?
    ensures text != ""
  {
  }

  /** No two triggers share a label, and no two share a voice file. */
  lemma CatalogIsOneToOne()
    ensures |Triggers| == |VoiceFiles| == 12
    ensures forall i, j :: 0 <= i < |Triggers| && 0 <= j < |Triggers| && i != j ==> Triggers[i] != Triggers[j]
    ensures forall i, j :: 0 <= i < |VoiceFiles| && 0 <= j < |VoiceFiles| && i != j ==> VoiceFiles[i] != VoiceFiles[j]
    ensures ReferralButton !in Triggers
  {
  }

  const StartGreeting :=
    "Натискай на кнопки, щоб отримати голосове повідомлення або скористайтеся Реферальним посиланням"

  /** The reply keyboard of the start handler, row by row. */
  const StartKeyboard: seq<seq<string>> := [
    ["що є поїсти ?", "я долбойоб ?"],
    ["де заробить грошей ?", "А шо не так ?"],
    ["шо робить з цим підром ?", "а Сухлякі шо ?"],
    ["як ти ?", "горілка"],
    ["приучила", "єбало"],
    ["хуйло", "мене кінув шеф на гроші"],
    [ReferralButton]
  ]

  /** The labels of a keyboard, row after row. */
  function Labels(rows: seq<seq<string>>): (labels: seq<string>)
    ensures forall r, l :: 0 <= r < |rows| && l in rows[r] ==> l in labels
    ensures forall l :: l in labels ==> exists r :: 0 <= r < |rows| && l in rows[r]
  {
    if rows == [] then [] else rows[0] + Labels(rows[1..])
  }

  /** The keyboard's labels, read row by row, are the triggers in a different order
      (the rows pair them differently from the switch) followed by the referral button. */
  lemma KeyboardLabelsInOrder()
    ensures var t := Triggers;
      Labels(StartKeyboard) ==
        [t[0], t[1], t[2], t[3], t[7], t[6], t[5], t[4], t[10], t[8], t[9], t[11], ReferralButton]
  {
    var k := StartKeyboard;
    assert Labels(k[7..]) == [];
    assert Labels(k[6..]) == k[6];
    assert Labels(k[5..]) == k[5] + k[6];
    assert Labels(k[4..]) == k[4] + k[5] + k[6];
    assert Labels(k[3..]) == k[3] + k[4] + k[5] + k[6];
    assert Labels(k[2..]) == k[2] + k[3] + k[4] + k[5] + k[6];
    assert Labels(k[1..]) == k[1] + k[2] + k[3] + k[4] + k[5] + k[6];
  }

  /** The keyboard has thirteen buttons and no label twice. */
  lemma KeyboardLabelsAreDistinct()
    ensures |Labels(StartKeyboard)| == 13
    ensures forall i, j :: 0 <= i < j < |Labels(StartKeyboard)| ==>
              Labels(StartKeyboard)[i] != Labels(StartKeyboard)[j]
  {
    KeyboardLabelsInOrder();
    CatalogIsOneToOne();
    var perm := [0, 1, 2, 3, 7, 6, 5, 4, 10, 8, 9, 11];
    var labels := Labels(StartKeyboard);
    assert labels == seq(12, i requires 0 <= i < 12 => Triggers[perm[i]]) + [ReferralButton];
    forall i, j | 0 <= i < j < 13 ensures labels[i] != labels[j] {
      if j < 12 {
        assert perm[i] != perm[j];
      }
    }
  }

  /** The keyboard offers exactly the twelve triggers and the referral button, so every
      button reaches a case of the switch and every case has a button. */
  lemma KeyboardMatchesCatalog()
    ensures forall l :: l in Labels(StartKeyboard) <==> l in Triggers || l == ReferralButton
    ensures forall l :: l in Labels(StartKeyboard) ==> !RouteOf(l).Unmatched?
  {
    KeyboardLabelsInOrder();
    var t := Triggers;
    var perm := [0, 1, 2, 3, 7, 6, 5, 4, 10, 8, 9, 11];
    var labels := Labels(StartKeyboard);
    assert labels == seq(12, i requires 0 <= i < 12 => t[perm[i]]) + [ReferralButton];
    forall l | l in Triggers ensures l in labels {
      var i :| 0 <= i < |t| && t[i] == l;
      assert i in perm;
    }
    forall l | l in labels ensures !RouteOf(l).Unmatched? {
      SwitchIsCatalog(l);
    }
  }

  const ReferralLinkBase := "https://example.com/telegram-bot/referral?user_id="
  const ReferralIntro := "Скористайтеся цим посиланням для продовження на вашому телефоні: "

  /** The text sendReferralLink sends: the intro, the link base and the chat ID in decimal. */
  function ReferralMessage(chat: ChatId): (msg: string)
    ensures |msg| >= 1 && Decimal.IsDigit(msg[|msg| - 1])
  {
    var id := Decimal.FormatInt(chat);
    assert Decimal.IsDigit(id[|id| - 1]) by {
      if chat < 0 {
        var d := Decimal.Digits(-(chat as int));
        assert id == "-" + d && id[|id| - 1] == d[|d| - 1];
      }
    }
    ReferralIntro + ReferralLinkBase + id
  }

  /** The referral text is the intro, then the link base, then at least one more character. */
  lemma ReferralMessageShape(chat: ChatId)
    ensures |ReferralMessage(chat)| > |ReferralIntro + ReferralLinkBase|
    ensures ReferralMessage(chat)[..|ReferralIntro + ReferralLinkBase|] == ReferralIntro + ReferralLinkBase
  {
  }

  /** The chat ID a referral message names, if it is one. */
  function ReferredChat(msg: string): Option<int> {
    var head := ReferralIntro + ReferralLinkBase;
    if |msg| >= |head| && msg[..|head|] == head then Decimal.ParseInt(msg[|head|..]) else None
  }

  /** The referral message names the chat it was built for, and no other. */
  lemma ReferralRoundTrip(chat: ChatId)
    ensures ReferredChat(ReferralMessage(chat)) == Some(chat as int)
  {
    var head := ReferralIntro + ReferralLinkBase;
    var msg := ReferralMessage(chat);
    assert msg[|head|..] == Decimal.FormatInt(chat);
    Decimal.FormatIntRoundTrip(chat);
  }

  lemma ReferralMessageInjective(a: ChatId, b: ChatId)
    ensures ReferralMessage(a) == ReferralMessage(b) ==> a == b
  {
    ReferralRoundTrip(a);
    ReferralRoundTrip(b);
  }
}

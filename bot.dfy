/**
  The handlers as they run: one object holds the two maps the handlers share
  and updates them in place, message by message. Each method is proved to do
  exactly what the Throttle functions describe, so every lemma there applies
  to a sequence of calls here.
 */
module Bot {
  import opened Wrappers
  import opened Catalog
  import opened Throttle

  class VoiceBot {
    var lastVoiceSent: map<ChatId, string>
    var consecutiveVoiceSendCount: map<ChatId, int>

    /** The two maps as a value. */
    function Snapshot(): State
      reads this
    {
      State(lastVoiceSent, consecutiveVoiceSendCount)
    }

    /** The object invariant: the two maps know the same chats, each with a button and a count of at least 1. */
    ghost predicate Valid()
      reads this
    {
      Throttle.Valid(Snapshot())
    }

    /** Both maps start empty when the bot starts. */
    constructor ()
      ensures Snapshot() == Fresh && Valid()
    {
      lastVoiceSent := map[];
      consecutiveVoiceSendCount := map[];
    }

    /** sendVoice: count the press, record the button, then refuse or send the voice file.
        `readable` is the set of voice files that open; the button is one of the switch's labels. */
    method SendVoice(update: Option<Message>, voiceFile: string, button: string, readable: set<string>)
      returns (action: Action)
      requires Valid() && button != ""
      modifies this
      ensures Valid()
      ensures Step(Snapshot(), action) == Throttle.SendVoice(old(Snapshot()), update, voiceFile, button, readable)
    {
      if update.None? {
        return NoOp;
      }
      var chatID := update.value.chat;
      var last := if chatID in lastVoiceSent then lastVoiceSent[chatID] else "";
      if last == button {
        var count := if chatID in consecutiveVoiceSendCount then consecutiveVoiceSendCount[chatID] else 0;
        consecutiveVoiceSendCount := consecutiveVoiceSendCount[chatID := count + 1];
      } else {
        consecutiveVoiceSendCount := consecutiveVoiceSendCount[chatID := 1];
      }
      lastVoiceSent := lastVoiceSent[chatID := button];
      if consecutiveVoiceSendCount[chatID] > MaxConsecutiveVoiceSends {
        return SendText(chatID, Refusal);
      }
      if voiceFile !in readable {
        return NoOp;
      }
      return SendAudio(chatID, voiceFile);
    }

    /** The text handler: ignore a missing message, switch on the text, and hand a voice
        trigger to SendVoice; the referral button and any other text leave the maps alone. */
    method Dispatch(update: Option<Message>, readable: set<string>) returns (action: Action)
      requires Valid()
      modifies this
      ensures Valid()
      ensures Step(Snapshot(), action) == Handle(old(Snapshot()), update, readable)
    {
      if update.None? {
        return NoOp;
      }
      var m := update.value;
      match RouteOf(m.text)
      case Voice(file, button) =>
        VoiceButtonIsNotEmpty(m.text);
        action := SendVoice(update, file, button, readable);
      case Referral =>
        action := SendText(m.chat, ReferralMessage(m.chat));
      case Unmatched =>
        action := NoOp;
    }
  }

  /** A fresh bot fed four presses of one trigger does not refuse the first three and refuses the fourth. */
  method FourthPressIsRefused(m: Message, readable: set<string>) returns (a0: Action, a1: Action, a2: Action, a3: Action)
    requires RouteOf(m.text).Voice?
    ensures NotRefused(a0) && NotRefused(a1) && NotRefused(a2)
    ensures a3 == SendText(m.chat, Refusal)
  {
    var bot := new VoiceBot();
    a0 := bot.Dispatch(Some(m), readable);
    MatchedUpdatesState(Fresh, m, readable);
    ghost var s1 := bot.Snapshot();
    a1 := bot.Dispatch(Some(m), readable);
    MatchedUpdatesState(s1, m, readable);
    ghost var s2 := bot.Snapshot();
    a2 := bot.Dispatch(Some(m), readable);
    MatchedUpdatesState(s2, m, readable);
    ghost var s3 := bot.Snapshot();
    a3 := bot.Dispatch(Some(m), readable);
    MatchedUpdatesState(s3, m, readable);
  }
}

/**
  The per-chat repeat throttle of the text handler, as values: the two maps
  keyed by chat ID, the bookkeeping sendVoice does before it decides, the
  decision, and the single action each message produces. The class in
  bot.dfy updates the maps in place and is proved to follow these functions.
 */
module Throttle {
  import opened Wrappers
  import opened Catalog

  /** The 4th consecutive request for the same voice is the first one refused. */
  const MaxConsecutiveVoiceSends := 3

  const Refusal := "Вибери інше голосове повідомлення"

  /** An incoming Telegram message: the chat it came from and its text ("" when it has none). */
  datatype Message = Message(chat: ChatId, text: string)

  /** What a handler asks the transport to do; at most one per update. */
  datatype Action =
    | SendAudio(chat: ChatId, file: string)
    | SendText(chat: ChatId, text: string)
    | SendKeyboard(chat: ChatId, text: string, rows: seq<seq<string>>)
    | NoOp

  /** The two maps the handlers share: last button per chat and its consecutive count. */
  datatype State = State(lastVoiceSent: map<ChatId, string>, consecutiveVoiceSendCount: map<ChatId, int>)

  /** A handler's new state and the action it emits. */
  datatype Step = Step(next: State, action: Action)

  const Fresh := State(map[], map[])

  /** lastVoiceSent[chat], with Go's zero value for a missing key. */
  function LastVoice(s: State, chat: ChatId): string {
    if chat in s.lastVoiceSent then s.lastVoiceSent[chat] else ""
  }

  /** consecutiveVoiceSendCount[chat], with Go's zero value for a missing key. */
  function SendCount(s: State, chat: ChatId): int {
    if chat in s.consecutiveVoiceSendCount then s.consecutiveVoiceSendCount[chat] else 0
  }

  /** Both maps know the same chats; a known chat has a button and a count of at least 1. */
  predicate Valid(s: State) {
    && s.lastVoiceSent.Keys == s.consecutiveVoiceSendCount.Keys
    && forall c :: c in s.consecutiveVoiceSendCount ==>
         s.consecutiveVoiceSendCount[c] >= 1 && s.lastVoiceSent[c] != ""
  }

  /** The bookkeeping of sendVoice before it decides: count the press, remember the button. */
  function Press(s: State, chat: ChatId, button: string): (r: State)
    ensures LastVoice(r, chat) == button
    ensures LastVoice(s, chat) == button ==> SendCount(r, chat) == SendCount(s, chat) + 1
    ensures LastVoice(s, chat) != button ==> SendCount(r, chat) == 1
    ensures r.lastVoiceSent.Keys == s.lastVoiceSent.Keys + {chat}
    ensures r.consecutiveVoiceSendCount.Keys == s.consecutiveVoiceSendCount.Keys + {chat}
  {
    var count := if LastVoice(s, chat) == button then SendCount(s, chat) + 1 else 1;
    State(s.lastVoiceSent[chat := button], s.consecutiveVoiceSendCount[chat := count])
  }

  /** sendVoice: the state is committed first; then the refusal, or the voice file if it opens. */
  function SendVoice(s: State, update: Option<Message>, file: string, button: string, readable: set<string>): (r: Step)
    ensures update.None? ==> r == Step(s, NoOp)
    ensures update.Some? ==> r.next == Press(s, update.value.chat, button)
    ensures r.action.SendText? <==> update.Some? && SendCount(r.next, update.value.chat) > MaxConsecutiveVoiceSends
    ensures r.action.SendAudio? <==> update.Some? && SendCount(r.next, update.value.chat) <= MaxConsecutiveVoiceSends && file in readable
    ensures r.action.SendText? ==> r.action.text == Refusal
    ensures r.action.SendAudio? ==> r.action.file == file
    ensures r.action.NoOp? <==> update.None? || (SendCount(r.next, update.value.chat) <= MaxConsecutiveVoiceSends && file !in readable)
    ensures !r.action.NoOp? ==> r.action.chat == update.value.chat
  {
    match update
    case None => Step(s, NoOp)
    case Some(m) =>
      var s' := Press(s, m.chat, button);
      if SendCount(s', m.chat) > MaxConsecutiveVoiceSends then Step(s', SendText(m.chat, Refusal))
      else if file !in readable then Step(s', NoOp)
      else Step(s', SendAudio(m.chat, file))
  }

  /** The text handler: ignore a missing message, then switch on the exact text. */
  function Handle(s: State, update: Option<Message>, readable: set<string>): (r: Step)
    ensures update.None? ==> r == Step(s, NoOp)
    ensures !r.action.NoOp? ==> r.action.chat == update.value.chat
  {
    match update
    case None => Step(s, NoOp)
    case Some(m) =>
      match RouteOf(m.text)
      case Voice(file, button) => SendVoice(s, update, file, button, readable)
      case Referral => Step(s, SendText(m.chat, ReferralMessage(m.chat)))
      case Unmatched => Step(s, NoOp)
  }

  /** The start handler: greet with the keyboard; the throttle state is not involved. */
  function StartReply(chat: ChatId): (a: Action)
    ensures a.SendKeyboard? && a.chat == chat
    ensures a.text == StartGreeting
    ensures forall l :: l in Labels(a.rows) <==> l in Triggers || l == ReferralButton
    ensures forall l :: l in Labels(a.rows) ==> !RouteOf(l).Unmatched?
  {
    KeyboardMatchesCatalog();
    SendKeyboard(chat, StartGreeting, StartKeyboard)
  }

  // ---------------------------------------------------------------- one message

  /** The new state of any update: the press recorded when its text is a voice trigger, else the old state. */
  lemma HandleCommitsPress(s: State, update: Option<Message>, readable: set<string>)
    ensures Handle(s, update, readable).next ==
              if update.Some? && RouteOf(update.value.text).Voice?
              then Press(s, update.value.chat, update.value.text)
              else s
  {
  }

  /** A message from one chat leaves every other chat's entries in both maps as they were. */
  lemma HandleIsolatesChats(s: State, update: Option<Message>, readable: set<string>, other: ChatId)
    requires update.None? || update.value.chat != other
    ensures var t := Handle(s, update, readable).next;
      && (other in t.lastVoiceSent <==> other in s.lastVoiceSent)
      && (other in t.consecutiveVoiceSendCount <==> other in s.consecutiveVoiceSendCount)
      && LastVoice(t, other) == LastVoice(s, other)
      && SendCount(t, other) == SendCount(s, other)
  {
    HandleCommitsPress(s, update, readable);
  }

  /** A missing message, text that matches no case and the referral button leave both maps unchanged. */
  lemma UnmatchedLeavesState(s: State, update: Option<Message>, readable: set<string>)
    requires update.None? || !RouteOf(update.value.text).Voice?
    ensures Handle(s, update, readable).next == s
    ensures Handle(s, update, readable).action ==
              if update.Some? && RouteOf(update.value.text).Referral?
              then SendText(update.value.chat, ReferralMessage(update.value.chat))
              else NoOp
  {
  }

  /** A trigger pressed again adds one to the count; a different one starts over at 1.
      The button is recorded in both cases, refused or not. */
  lemma MatchedUpdatesState(s: State, m: Message, readable: set<string>)
    requires RouteOf(m.text).Voice?
    ensures var t := Handle(s, Some(m), readable).next;
      && LastVoice(t, m.chat) == m.text
      && SendCount(t, m.chat) == (if LastVoice(s, m.chat) == m.text then SendCount(s, m.chat) + 1 else 1)
  {
  }

  /** A different trigger than the last one is never refused, however long the streak before it. */
  lemma DifferentTriggerIsAllowed(s: State, m: Message, readable: set<string>)
    requires RouteOf(m.text).Voice? && LastVoice(s, m.chat) != m.text
    ensures var st := Handle(s, Some(m), readable);
      && SendCount(st.next, m.chat) == 1
      && st.action == if RouteOf(m.text).file in readable then SendAudio(m.chat, RouteOf(m.text).file) else NoOp
  {
  }

  /** Whether the voice file opens decides only between audio and nothing: the new state is the same. */
  lemma StateIgnoresDelivery(s: State, update: Option<Message>, r1: set<string>, r2: set<string>)
    ensures Handle(s, update, r1).next == Handle(s, update, r2).next
    ensures Handle(s, update, r1).action.SendText? <==> Handle(s, update, r2).action.SendText?
  {
  }

  /** Every message keeps both maps in step and every count positive. */
  lemma HandlePreservesValid(s: State, update: Option<Message>, readable: set<string>)
    requires Valid(s)
    ensures Valid(Handle(s, update, readable).next)
  {
    HandleCommitsPress(s, update, readable);
    if update.Some? && RouteOf(update.value.text).Voice? {
      VoiceButtonIsNotEmpty(update.value.text);
    }
  }

  // ---------------------------------------------------------------- a sequence of messages

  /** The final state and the actions, one per update, of handling updates in order. */
  function Run(s: State, updates: seq<Option<Message>>, readable: set<string>): (r: (State, seq<Action>))
    ensures |r.1| == |updates|
  {
    if updates == [] then (s, [])
    else
      var (t, acts) := Run(s, updates[..|updates| - 1], readable);
      var st := Handle(t, updates[|updates| - 1], readable);
      (st.next, acts + [st.action])
  }

  /** Which voice files open changes no map: a run leaves the same state however deliveries go. */
  lemma {:induction false} RunIgnoresReadable(s: State, updates: seq<Option<Message>>, r1: set<string>, r2: set<string>)
    ensures Run(s, updates, r1).0 == Run(s, updates, r2).0
  {
    if updates != [] {
      var prefix := updates[..|updates| - 1];
      RunIgnoresReadable(s, prefix, r1, r2);
      StateIgnoresDelivery(Run(s, prefix, r1).0, updates[|updates| - 1], r1, r2);
    }
  }

  /** The buttons a chat has pressed that matched a voice trigger, in order. */
  function History(updates: seq<Option<Message>>, chat: ChatId): seq<string> {
    if updates == [] then []
    else
      var u := updates[|updates| - 1];
      History(updates[..|updates| - 1], chat) +
        if u.Some? && u.value.chat == chat && RouteOf(u.value.text).Voice? then [u.value.text] else []
  }

  /** The length of the block of equal entries at the end of h. */
  function TrailingRun(h: seq<string>): (k: nat)
    ensures k <= |h| && (h != [] ==> k >= 1)
    ensures forall i :: |h| - k <= i < |h| ==> h[i] == h[|h| - 1]
    ensures k < |h| ==> h[|h| - k - 1] != h[|h| - 1]
  {
    if |h| == 0 then 0
    else if |h| >= 2 && h[|h| - 2] == h[|h| - 1] then TrailingRun(h[..|h| - 1]) + 1
    else 1
  }

  /** The action of the k-th update is decided by the state the first k updates leave. */
  lemma {:induction false} RunPrefix(s: State, updates: seq<Option<Message>>, readable: set<string>, k: nat)
    requires k < |updates|
    ensures Run(s, updates, readable).1[k] ==
              Handle(Run(s, updates[..k], readable).0, updates[k], readable).action
  {
    var n := |updates|;
    var prefix := updates[..n - 1];
    var r := Run(s, prefix, readable);
    RunSnoc(s, updates, readable, k);
    if k < n - 1 {
      RunPrefix(s, prefix, readable, k);
      assert prefix[..k] == updates[..k] && prefix[k] == updates[k];
    } else {
      assert updates[..k] == prefix;
    }
  }

  /** Handling one more update keeps the actions of the updates before it and appends its own. */
  lemma RunSnoc(s: State, updates: seq<Option<Message>>, readable: set<string>, k: nat)
    requires k < |updates|
    ensures var r := Run(s, updates[..|updates| - 1], readable);
      Run(s, updates, readable).1[k] ==
        if k < |updates| - 1 then r.1[k] else Handle(r.0, updates[k], readable).action
  {
  }

  /** The entries a history implies for its chat: its last button and the streak at its end. */
  predicate Tracks(s: State, chat: ChatId, h: seq<string>) {
    && SendCount(s, chat) == TrailingRun(h)
    && LastVoice(s, chat) == (if h == [] then "" else h[|h| - 1])
  }

  /** Pressing a button extends the chat's history by that button and keeps the state in step. */
  lemma PressExtendsHistory(s: State, chat: ChatId, button: string, h: seq<string>)
    requires Tracks(s, chat, h) && button != ""
    ensures Tracks(Press(s, chat, button), chat, h + [button])
  {
    var h' := h + [button];
    assert h'[..|h'| - 1] == h;
  }

  /** One update keeps a chat's entries in step with its history. */
  lemma HandleExtendsHistory(t: State, u: Option<Message>, readable: set<string>, chat: ChatId, h: seq<string>)
    requires Tracks(t, chat, h)
    ensures Tracks(Handle(t, u, readable).next, chat,
                   h + if u.Some? && u.value.chat == chat && RouteOf(u.value.text).Voice? then [u.value.text] else [])
  {
    if u.Some? && u.value.chat == chat {
      var r := RouteOf(u.value.text);
      if r.Voice? {
        VoiceButtonIsNotEmpty(u.value.text);
        PressExtendsHistory(t, chat, r.button, h);
      } else {
        assert h + [] == h;
      }
    } else {
      HandleIsolatesChats(t, u, readable, chat);
      assert h + [] == h;
    }
  }

  /** From a fresh start, each chat's entries are exactly what its own matched history implies:
      the last matched button, and the length of the streak of that button at the end. */
  lemma {:induction false} RunTracksHistory(updates: seq<Option<Message>>, readable: set<string>, chat: ChatId)
    ensures Tracks(Run(Fresh, updates, readable).0, chat, History(updates, chat))
  {
    if updates != [] {
      var n := |updates|;
      var prefix := updates[..n - 1];
      RunTracksHistory(prefix, readable, chat);
      HandleExtendsHistory(Run(Fresh, prefix, readable).0, updates[n - 1], readable, chat, History(prefix, chat));
    }
  }

  /** The decision on a matched message: refused exactly when the streak it completes is longer
      than three; otherwise the voice, when its file opens. */
  lemma DecisionFollowsHistory(updates: seq<Option<Message>>, m: Message, readable: set<string>)
    requires RouteOf(m.text).Voice?
    ensures var file := RouteOf(m.text).file;
      Handle(Run(Fresh, updates, readable).0, Some(m), readable).action ==
        if TrailingRun(History(updates, m.chat) + [m.text]) > MaxConsecutiveVoiceSends
        then SendText(m.chat, Refusal)
        else if file in readable then SendAudio(m.chat, file)
        else NoOp
  {
    var s := Run(Fresh, updates, readable).0;
    var h := History(updates, m.chat);
    RunTracksHistory(updates, readable, m.chat);
    VoiceButtonIsNotEmpty(m.text);
    PressExtendsHistory(s, m.chat, m.text, h);
  }

  /** The updates that come from one chat, in order. */
  function Own(updates: seq<Option<Message>>, chat: ChatId): (r: seq<Option<Message>>)
    ensures forall u :: u in r ==> u.Some? && u.value.chat == chat
  {
    if updates == [] then []
    else
      var u := updates[|updates| - 1];
      Own(updates[..|updates| - 1], chat) + if u.Some? && u.value.chat == chat then [u] else []
  }

  /** A chat's history is the history of its own messages alone. */
  lemma {:induction false} OwnHistory(updates: seq<Option<Message>>, chat: ChatId)
    ensures History(Own(updates, chat), chat) == History(updates, chat)
  {
    if updates != [] {
      var n := |updates|;
      var prefix := updates[..n - 1];
      var u := updates[n - 1];
      OwnHistory(prefix, chat);
      var own := Own(prefix, chat);
      if u.Some? && u.value.chat == chat {
        assert Own(updates, chat) == own + [u];
        HistorySnoc(own, u, chat);
      } else {
        assert Own(updates, chat) == own;
      }
    }
  }

  /** Other chats' traffic is invisible to a chat: its entries are those its own messages alone give. */
  lemma OtherChatsAreInvisible(updates: seq<Option<Message>>, readable: set<string>, chat: ChatId)
    ensures SendCount(Run(Fresh, updates, readable).0, chat) == SendCount(Run(Fresh, Own(updates, chat), readable).0, chat)
    ensures LastVoice(Run(Fresh, updates, readable).0, chat) == LastVoice(Run(Fresh, Own(updates, chat), readable).0, chat)
  {
    OwnHistory(updates, chat);
    RunTracksHistory(updates, readable, chat);
    RunTracksHistory(Own(updates, chat), readable, chat);
  }

  /** n presses of the same message. */
  function Repeat(m: Message, n: nat): (r: seq<Option<Message>>)
    ensures |r| == n && forall i :: 0 <= i < n ==> r[i] == Some(m)
  {
    seq(n, _ => Some(m))
  }

  lemma {:induction false} RepeatHistory(m: Message, n: nat)
    requires RouteOf(m.text).Voice?
    ensures History(Repeat(m, n), m.chat) == seq(n, _ => m.text)
  {
    if n > 0 {
      RepeatHistory(m, n - 1);
      assert Repeat(m, n)[..n - 1] == Repeat(m, n - 1);
    }
  }

  /** A history made of one button only is one streak. */
  lemma TrailingRunOfOneButton(h: seq<string>, t: string)
    requires forall i :: 0 <= i < |h| ==> h[i] == t
    ensures TrailingRun(h) == |h|
  {
  }

  /** From a fresh chat the first three presses of one trigger are not refused and every later
      consecutive press is refused: refusal does not reset the count. */
  lemma StreakIsCappedAtThree(m: Message, n: nat, readable: set<string>, k: nat)
    requires RouteOf(m.text).Voice? && k < n
    ensures var file := RouteOf(m.text).file;
      Run(Fresh, Repeat(m, n), readable).1[k] ==
        if k < MaxConsecutiveVoiceSends then (if file in readable then SendAudio(m.chat, file) else NoOp)
        else SendText(m.chat, Refusal)
  {
    var us := Repeat(m, n);
    RunPrefix(Fresh, us, readable, k);
    assert us[..k] == Repeat(m, k);
    DecisionFollowsHistory(Repeat(m, k), m, readable);
    RepeatHistory(m, k);
    TrailingRunOfOneButton(seq(k, _ => m.text) + [m.text], m.text);
  }

  /** Appending an update appends its button to the history of its chat, if it matched. */
  lemma HistorySnoc(updates: seq<Option<Message>>, u: Option<Message>, chat: ChatId)
    ensures History(updates + [u], chat) ==
              History(updates, chat) + if u.Some? && u.value.chat == chat && RouteOf(u.value.text).Voice? then [u.value.text] else []
  {
    assert (updates + [u])[..|updates|] == updates;
  }

  /** The reply to a matched message is not the refusal (it may be NoOp when the file does not open). */
  predicate NotRefused(a: Action) {
    !(a.SendText? && a.text == Refusal)
  }

  /** Presses t, t, t2, t, t, t in one chat: the switch to t2 restarts the streak, so nothing
      in the sequence is refused (the last press of t is only the third of its new streak). */
  lemma SwitchingRestartsStreak(m: Message, m2: Message, readable: set<string>)
    requires RouteOf(m.text).Voice? && RouteOf(m2.text).Voice?
    requires m2.chat == m.chat && m2.text != m.text
    ensures var s1 := Handle(Fresh, Some(m), readable);
      var s2 := Handle(s1.next, Some(m), readable);
      var s3 := Handle(s2.next, Some(m2), readable);
      var s4 := Handle(s3.next, Some(m), readable);
      var s5 := Handle(s4.next, Some(m), readable);
      var s6 := Handle(s5.next, Some(m), readable);
      && NotRefused(s1.action) && NotRefused(s2.action) && NotRefused(s3.action)
      && NotRefused(s4.action) && NotRefused(s5.action) && NotRefused(s6.action)
      && SendCount(s6.next, m.chat) == MaxConsecutiveVoiceSends
  {
    var s1 := Handle(Fresh, Some(m), readable);
    MatchedUpdatesState(Fresh, m, readable);
    var s2 := Handle(s1.next, Some(m), readable);
    MatchedUpdatesState(s1.next, m, readable);
    var s3 := Handle(s2.next, Some(m2), readable);
    MatchedUpdatesState(s2.next, m2, readable);
    var s4 := Handle(s3.next, Some(m), readable);
    MatchedUpdatesState(s3.next, m, readable);
    var s5 := Handle(s4.next, Some(m), readable);
    MatchedUpdatesState(s4.next, m, readable);
    MatchedUpdatesState(s5.next, m, readable);
  }

  /** Presses t, t, then a text that matches nothing, then t: the unmatched text is ignored
      and does not break the streak, so the last press is the streak's third and is not refused. */
  lemma UnmatchedKeepsStreak(m: Message, other: string, readable: set<string>)
    requires RouteOf(m.text).Voice? && RouteOf(other).Unmatched?
    ensures var s1 := Handle(Fresh, Some(m), readable);
      var s2 := Handle(s1.next, Some(m), readable);
      var s3 := Handle(s2.next, Some(Message(m.chat, other)), readable);
      var s4 := Handle(s3.next, Some(m), readable);
      && NotRefused(s1.action) && NotRefused(s2.action)
      && s3.action == NoOp && s3.next == s2.next
      && NotRefused(s4.action) && SendCount(s4.next, m.chat) == 3
  {
    var s1 := Handle(Fresh, Some(m), readable);
    MatchedUpdatesState(Fresh, m, readable);
    var s2 := Handle(s1.next, Some(m), readable);
    MatchedUpdatesState(s1.next, m, readable);
    UnmatchedLeavesState(s2.next, Some(Message(m.chat, other)), readable);
    MatchedUpdatesState(s2.next, m, readable);
  }

  /** Presses t four times, an unmatched text, then t again: the fourth press is refused and,
      since the unmatched text does not reset the streak, so is the sixth message. */
  lemma RefusalSurvivesUnmatchedText(m: Message, other: string, readable: set<string>)
    requires RouteOf(m.text).Voice? && RouteOf(other).Unmatched?
    ensures var s1 := Handle(Fresh, Some(m), readable);
      var s2 := Handle(s1.next, Some(m), readable);
      var s3 := Handle(s2.next, Some(m), readable);
      var s4 := Handle(s3.next, Some(m), readable);
      var s5 := Handle(s4.next, Some(Message(m.chat, other)), readable);
      var s6 := Handle(s5.next, Some(m), readable);
      && NotRefused(s1.action) && NotRefused(s2.action) && NotRefused(s3.action)
      && s4.action == SendText(m.chat, Refusal)
      && s5.action == NoOp
      && s6.action == SendText(m.chat, Refusal)
  {
    var s1 := Handle(Fresh, Some(m), readable);
    MatchedUpdatesState(Fresh, m, readable);
    var s2 := Handle(s1.next, Some(m), readable);
    MatchedUpdatesState(s1.next, m, readable);
    var s3 := Handle(s2.next, Some(m), readable);
    MatchedUpdatesState(s2.next, m, readable);
    var s4 := Handle(s3.next, Some(m), readable);
    MatchedUpdatesState(s3.next, m, readable);
    UnmatchedLeavesState(s4.next, Some(Message(m.chat, other)), readable);
    MatchedUpdatesState(s4.next, m, readable);
  }
}

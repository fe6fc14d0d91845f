# Voice-button Telegram bot: dispatch and repeat throttle

This project models the core of a small Telegram bot written in Go (`main.go`). The bot answers
a fixed set of keyboard button labels with pre-recorded voice files. It refuses to send
the same voice more than three times in a row to one chat. The model covers:

- **The trigger catalog** (`catalog.dfy`, module `Catalog`). It holds the text handler's
  `switch`, which maps exact message texts to voice files: twelve voice triggers plus the
  referral button. The switch is modelled as a table of its voice cases, tried in order as
  the `switch` tries them, and then the referral case. It also holds the start keyboard's rows of labels and the referral message
  built from the chat ID.
- **Decimal rendering** (`decimal.dfy`, module `Decimal`). `strconv.FormatInt(chatID, 10)` is
  modelled as a signed decimal rendering without leading zeros. A parser is given as its
  inverse.
- **The throttle state machine as values** (`throttle.dfy`, module `Throttle`). It covers:
  - the two maps `lastVoiceSent` and `consecutiveVoiceSendCount`, keyed by chat ID, with Go's
    zero value for a missing key;
  - the bookkeeping `sendVoice` does before it decides (`Press`);
  - `sendVoice` itself and the text handler (`Handle`);
  - the start handler's reply.

  Each outbound call becomes one returned `Action`: `SendAudio`, `SendText` or
  `SendKeyboard`, or `NoOp` when nothing is sent. The module also holds an independent
  reference: a chat's history of matched buttons, and the length of the streak of equal
  buttons at its end (`History`, `TrailingRun`). The lemmas tie the maps and every decision
  to that reference.
- **The handlers as an object** (`bot.dfy`, module `Bot`). Class `VoiceBot` has the two maps
  as fields. Its methods `SendVoice` and `Dispatch` update the fields in place, as the Go
  closures do. Each method is proved to produce exactly the state and action that the
  `Throttle` functions give.

Opening a voice file is modelled by a parameter `readable`: the set of voice files that open.
If the file does not open, nothing is sent (`NoOp`). The state was already committed before that
point. Whether the network call succeeds changes nothing in `main.go` except a log line, so it
is not a parameter.

An unmatched text never touches `lastVoiceSent`, so it does not end a streak. One might expect
an unrelated message to reset the count, but the code does not do that, and the model follows
the code. For example, the trigger "горілка" four times, then an unmatched "bye", then "горілка": both the 4th and
the 6th messages are refused (`Throttle.RefusalSurvivesUnmatchedText`).

## Model

| member | source | states |
|---|---|---|
| `Decimal.Digits` | main.go:194 | the decimal digits of a natural number: at least one digit, and a leading '0' only for zero |
| `Decimal.FormatInt` | main.go:194 | `strconv.FormatInt(n, 10)`: non-empty, and starts with '-' exactly when n is negative |
| `Decimal.ParseInt` | main.go:194 | reading back a rendered number accepts only an optional '-' followed by digits, and a lone '-' is not a number |
| `Decimal.DigitsRoundTrip` | main.go:194 | reading the digits of n gives back n |
| `Decimal.FormatIntRoundTrip` | main.go:194 | parsing `FormatInt(n)` gives back n, for every integer |
| `Decimal.FormatIntInjective` | main.go:194 | two different chat IDs never render to the same text |
| `Catalog.FindCase` | main.go:157-181 | the switch tries its voice cases in order: the case found has exactly the text as its label and no earlier case does, so it is the first match; no case is found only when no label equals the text |
| `Catalog.RouteOf` | main.go:157-184 | the exact-text switch: a voice case hands `sendVoice` its own text as the button |
| `Catalog.VoiceButtonIsNotEmpty` | main.go:104 | a button that reaches `sendVoice` is never "", the zero value Go's map returns for a chat it has not seen |
| `Catalog.SwitchIsCatalog` | main.go:157-184 | a text reaches a voice file exactly when it is one of the twelve triggers, and then its own file; it reaches the referral action exactly when it is "Реферальне посилання" |
| `Catalog.CatalogIsOneToOne` | main.go:158-181 | there are twelve triggers and twelve voice files, the triggers are distinct, the files are distinct, and the referral label is not a trigger |
| `Catalog.KeyboardLabelsInOrder` | main.go:50-78 | the start keyboard, read row by row, lists the twelve triggers (in keyboard order) followed by the referral button |
| `Catalog.KeyboardLabelsAreDistinct` | main.go:50-78 | the keyboard has 13 buttons and no label twice |
| `Catalog.KeyboardMatchesCatalog` | main.go:50-78 | a label is on the keyboard exactly when it is one of the twelve triggers or the referral button, and every label reaches a case of the switch (157-184) |
| `Catalog.ReferralMessage` | main.go:194-199 | the text `sendReferralLink` sends: the intro, the link base and the chat ID in decimal; it always ends with a digit of the chat ID. `Catalog.ReferralRoundTrip` proves that the chat ID can be read back from it |
| `Catalog.ReferralMessageShape` | main.go:194-200 | the referral text starts with the fixed intro followed by the link base "https://example.com/telegram-bot/referral?user_id=" and continues past it |
| `Catalog.ReferralRoundTrip` | main.go:192-200 | the chat ID can be read back from the referral message: the message names the chat it was built for |
| `Catalog.ReferralMessageInjective` | main.go:194-199 | different chats get different referral messages |
| `Throttle.StartReply` | main.go:46-93 | the start handler answers the sending chat with the greeting and a keyboard whose labels are exactly the twelve triggers and the referral button, so every trigger is offered and every button reaches a case of the switch |
| `Throttle.Press` | main.go:103-111 | the bookkeeping before the decision: the chat's last button becomes the pressed one; the count goes up by one if the button equals the last one, and otherwise restarts at 1; the chat joins the keys of both maps. `Throttle.HandleCommitsPress` and `Throttle.MatchedUpdatesState` tie it to the handler |
| `Throttle.SendVoice` | main.go:96-146 | a missing message changes nothing and sends nothing; otherwise the new state is the press, the refusal is sent exactly when the new count is above `MaxConsecutiveVoiceSends`, the voice is sent exactly when it is not and the file opens, nothing is sent exactly when it is not and the file does not open, and every reply goes to the sending chat. `Throttle.DecisionFollowsHistory` ties the decision to the chat's history |
| `Throttle.Handle` | main.go:149-186 | a missing message changes nothing and sends nothing, and every reply goes to the sending chat. `Throttle.HandleCommitsPress` (the new state), `Throttle.UnmatchedLeavesState` (unmatched text and the referral button), `Throttle.MatchedUpdatesState` and `Throttle.DecisionFollowsHistory` (the decision for a voice trigger) state the rest |
| `Throttle.HandleCommitsPress` | main.go:101-111 | the new state after any update is the press recorded for its chat when its text is a voice trigger, and the old state otherwise |
| `Throttle.HandleIsolatesChats` | main.go:101-111 | a message from one chat leaves every other chat's entries in both maps unchanged |
| `Throttle.UnmatchedLeavesState` | main.go:97-99 | a missing message, unmatched text or the referral button leave both maps unchanged (150-152, 157-184); the referral button yields only the referral text (182-183, 192-207) |
| `Throttle.MatchedUpdatesState` | main.go:103-111 | a matched trigger records its button; the count becomes the old count + 1 if the button equals the last one, otherwise 1, whether or not the request is then refused |
| `Throttle.DifferentTriggerIsAllowed` | main.go:103-124 | after any streak, even one that is being refused, a different trigger resets the count to 1 and is not refused (`NotRefused`) |
| `Throttle.StateIgnoresDelivery` | main.go:103-145 | whether the voice file opens does not change the new state, and does not change whether a refusal is sent |
| `Throttle.RunIgnoresReadable` | main.go:103-145 | the maps after any message sequence do not depend on which voice files open, so the state `RunTracksHistory` describes is reached however often a file fails to open |
| `Throttle.HandlePreservesValid` | main.go:41-43 | both maps always hold the same chats, and every known chat has a non-empty button and a count of at least 1 |
| `Throttle.TrailingRun` | main.go:103-108 | the reference for the count: the length of the block of equal buttons at the end of a history, and that block is maximal |
| `Throttle.RunTracksHistory` | main.go:103-111 | after any message sequence from a fresh start, a chat's count is the streak at the end of its matched history, and its last button is that history's last entry |
| `Throttle.DecisionFollowsHistory` | main.go:113-145 | a matched message is refused exactly when the streak it completes is longer than `MaxConsecutiveVoiceSends`; otherwise its voice is sent, if the file opens |
| `Throttle.OwnHistory` | main.go:101 | a chat's matched history is the history of its own messages alone |
| `Throttle.OtherChatsAreInvisible` | main.go:101-111 | a chat's entries after any interleaving of chats are those that its own messages alone produce |
| `Throttle.RepeatHistory` | main.go:157-181 | n presses of a trigger give a history of n copies of it |
| `Throttle.StreakIsCappedAtThree` | main.go:16 | from a fresh chat, the first three consecutive presses of a trigger are not refused: each gets its voice if the file opens; the fourth and every later one are refused, because a refusal does not reset the count (104-124) |
| `Throttle.SwitchingRestartsStreak` | main.go:104-108 | presses t, t, t2, t, t, t in one chat are never refused, and the count ends at 3 |
| `Throttle.UnmatchedKeepsStreak` | main.go:150-184 | presses t, t, an unmatched text, t: the unmatched text gets no reply and leaves the state as it was, and the count reaches 3 without a refusal |
| `Throttle.RefusalSurvivesUnmatchedText` | main.go:104-124 | t four times, an unmatched text, then t: the 4th and the 6th messages are refused, and the unmatched text gets no reply |
| `Bot.VoiceBot.constructor` | main.go:41-43 | both maps start empty, so the object invariant (`Throttle.Valid`: same chats in both maps, a non-empty button and a count of at least 1 each) holds |
| `Bot.VoiceBot.SendVoice` | main.go:96-146 | the maps are updated in place exactly as `Throttle.SendVoice` says, the returned action is the one it gives, and the object invariant is kept |
| `Bot.VoiceBot.Dispatch` | main.go:149-186 | the text handler updates the maps in place, returns exactly the state and action of `Throttle.Handle`, and keeps the object invariant |
| `Bot.FourthPressIsRefused` | main.go:16 | a fresh bot fed one trigger four times does not refuse the first three presses and refuses the fourth (96-124) |

## Left out

- Loading `.env`, checking the token, building the bot, and `log.Fatal`/`os.Exit` (main.go:19-33): configuration and process control.
- Long polling, handler registration, and `Start`/`Stop` (main.go:35-39, 93, 186-188): the transport plumbing belongs to the `telego` library, which is not part of this model. How `th.CommandEqual("start")` recognises the start command is not modelled either: `StartReply` is the handler's reply once that command has been recognised.
- The actual `bot.SendVoice` and `bot.SendMessage` calls, and `os.Open` (main.go:87, 119, 127-145, 203): each becomes a returned action. Whether a file opens is the `readable` parameter. A failed network send only logs in the source, so the model does not show it.
- Logging (`log.Println`) and the debug logger.
- Concurrency: the Go handlers may run concurrently over unsynchronised maps. The model handles messages one at a time, in order. A per-chat linearizable store, as a redesign would want, is not what this code does.
- `Throttle.SendCount`: the count is a Go `int` (64 bits on 64-bit platforms, 32 on 32-bit ones) and would wrap after 2^63 - 1 (or 2^31 - 1) consecutive presses. The model uses unbounded integers.
- `main.go` has no remove-keyboard action, so it is not modelled.
- Eviction of the maps: the source never deletes entries, and neither does the model.

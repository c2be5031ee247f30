# Crush-GPT conversation engine in Dafny

This project models the state behind the `CrushGPT` class of Crush-GPT, a chat
page that never answers. The page counts what the user sends and fakes read
receipts, typing indicators and status changes. Its read-outs get bleaker as
the count grows. The model covers:

- **Conversation counters.** `messagesSent`, `messagesRead`, `repliesReceived`
  and the current conversation id.
- **Saved-conversation list.** The list that `saveCurrentChat` keeps: replace
  by id, move to the front, keep ten.
- **Send path.** The blank-input guard built on `String.prototype.trim`, the
  message bubble and its read-status element, and the read callback it
  schedules.
- **Read receipts.** The 'Sent' → 'Delivered' → '✓✓ Read' labels.
- **Count-based read-outs.** The hope and self-respect labels and the page
  title easter eggs.
- **Send hook.** The `onMessageSent` hook that wraps `sendMessage`: auto-save
  every fifth message, and the status ticker started at the first message.
- **Timer bodies.** The encouragement interval, the status-ticker interval,
  the typing indicator and the "stopped typing" hint.

Modules:

- `Text`: trim and the blank-input test.
- `Levels`: the label index, the two read-outs and the title easter eggs.
  These are pure functions of the sent count.
- `History`: the saved-conversation list, as pure functions on sequences.
  Properties about it are proved as lemmas.
- `Encouragement`: the encouragement interval's two closure variables as a
  value, and one tick as a function.
- `Engine`: the class `CrushGpt`. Its fields are the counters and the list.
  The live conversation's message bubbles are a sequence of values. Every
  pending `setTimeout` callback is an entry; the intervals (the status
  tickers, counted in `statusTickers`, and the encouragement interval) may
  tick at any time.
  - Each `setTimeout`/`setInterval` body is a method that the environment
    calls when the timer fires, in any order.
  - Each random draw is a parameter.
  - Each method is specified against the functions of the pure modules.
  - The class invariant `Valid` holds in every state: replies stay 0, bubble
    tags match positions, and no bubble goes from 'Sent' straight to 'Read'.
- `Scenarios`: short runs of several operations.

Both read-outs are taken from one index, `min(n - 1, 7)` for a count of
`n` (script.js:486-494). At a count of 0 that index is -1, and the fallbacks
'Declining' and 'Critical' are shown. After three messages the read-outs are
'Critical' and 'Destroyed'.

## Model

| member | source | states |
|---|---|---|
| `Text.IsTrimmable` | script.js:370 | the characters trim removes all lie in the Basic Multilingual Plane, and none is a letter or digit |
| `Text.SkipLeading` | script.js:370 | the first position trim keeps; everything before it is trimmable |
| `Text.SkipTrailing` | script.js:370 | one past the last position trim keeps; everything after it is trimmable |
| `Text.Trim` | script.js:370 | trim never lengthens the text and leaves no trimmable character at either end |
| `Text.TrimIsInfix` | script.js:370 | trim returns exactly the infix between the maximal trimmable runs at the two ends |
| `Text.BlankIffAllTrimmable` | script.js:370-371 | the send is rejected exactly when every character of the input is whitespace or a line terminator, the empty input included |
| `Text.TrimIdempotent` | script.js:370 | trimming the trimmed text changes nothing |
| `Levels.LevelIndex` | script.js:486 | the index is -1 exactly at count 0, count minus one up to the end of the list, and the last position from count 8 on |
| `Levels.HopeLabel` | script.js:486-490 | the hope read-out is always an entry of the list: 'Declining' at count 0, the n-th entry after n messages, and the last entry from the eighth message on |
| `Levels.SelfRespectLabel` | script.js:486-494 | the self-respect read-out is always an entry of the list: 'Critical' at count 0, the n-th entry after n messages, and the last entry from the eighth message on |
| `Levels.LabelsShareOneIndex` | script.js:486-494 | both read-outs come from the same position of their lists; count 0 shows the fallbacks, which equal the count-1 labels |
| `Levels.FreshConversationLabels` | script.js:488-494 | a count of 0 shows 'Declining' and 'Critical' |
| `Levels.LabelsAfterThreeMessages` | script.js:486-494 | after three messages the read-outs are 'Critical' and 'Destroyed' |
| `Levels.LabelsClampAtLastEntry` | script.js:486 | from the eighth message on, the read-outs stay 'Subterranean' and 'Never had any' |
| `Levels.LevelIndexMonotone` | script.js:486 | the read-outs only move down their lists as the count grows |
| `Levels.EasterEggTitle` | script.js:624-630 | the title changes only at counts 10, 20 and 50, and then to one of the three titles |
| `Levels.TitleAfterCountsIsLastMilestone` | script.js:622-633 | over counts 1..n the title is the one for the last milestone passed, unchanged between milestones |
| `History.WithoutId` | script.js:56 | filtering never lengthens the list |
| `History.WithoutIdMembers` | script.js:56 | the filtered list holds exactly the entries with another id |
| `History.WithoutIdIsSubsequence` | script.js:56 | filtering keeps the surviving entries in their order |
| `History.WithoutIdRemovesAll` | script.js:56 | no entry with the id is left after filtering |
| `History.WithoutAbsentId` | script.js:56 | filtering an id that no entry carries changes nothing |
| `History.Saved` | script.js:55-62 | after a non-empty save the list has 1 to 10 entries and the new entry is first |
| `History.SavedHoldsIdOnce` | script.js:55-62 | after a save the conversation's id occurs exactly once, at the front |
| `History.SavedKeepsOthersInOrder` | script.js:55-62 | the entries behind the new one are the old list without that id, in order: all of them while there are fewer than ten, otherwise exactly the first nine |
| `History.SavingEleventhEvictsOldest` | script.js:57-62 | saving a new id into ten entries evicts the oldest and shifts the rest back by one |
| `History.SavedKeepsIdsUnique` | script.js:55-62 | a save keeps the ids of the list distinct |
| `Encouragement.Qualifies` | script.js:540 | the guard never holds before the third message, and once a multiple of three is recorded it holds again only three messages later |
| `Encouragement.Tick` | script.js:539-551 | a tick shows at most one encouragement; it shows one exactly when the count passed the last recorded count, is a multiple of 3, and the list is not used up; the cursor grows by what is shown; the recorded count changes only on a qualifying tick and never decreases |
| `Encouragement.CursorBounded` | script.js:541-547 | the cursor never passes 12, and at 12 nothing is shown |
| `Encouragement.SilentUntilPastHighWater` | script.js:540 | while the count is at or below the last recorded count, a tick shows and changes nothing |
| `Encouragement.RunUpToShowsOnePerThree` | script.js:535-551 | ticking through counts 1..n shows min(n/3, 12) encouragements and records the last multiple of 3 |
| `Engine.Scrape` | script.js:35-40 | one saved message per bubble, with its text, its time, and whether its label says 'Read' |
| `Engine.FindTag` | script.js:427 | the lookup returns the first bubble with the tag, or none when no bubble has it |
| `Engine.AsWrittenLookupMisses` | script.js:417-427 | with tags handed out before the increment, the lookup with the count after the increment never finds a bubble |
| `Engine.FirstMessageLookupCounterexample` | script.js:417-427 | the first message has tag 0, but its callback asks for tag 1 and finds nothing |
| `Engine.CapturedTagFindsMessage` | script.js:417 | within one conversation, looking up the tag a message was given finds that message |
| `Engine.CapturedTagAcrossConversations` | script.js:417 | a tag captured before a new conversation finds the new conversation's first message, while the element captured then is no longer on the page |
| `Engine.CrushGpt.Snapshot` | script.js:43-53 | the entry carries the conversation's id and the given timestamp; in a valid state it holds one message per message sent, its message count and sent count agree, and replies are 0 |
| `Engine.CrushGpt.constructor` | script.js:2-23 | counters at 0, stored history, no bubbles and no pending timers, encouragement ticker at its start |
| `Engine.CrushGpt.SaveCurrentChat` | script.js:34-66 | no bubbles: list unchanged; otherwise the list becomes `Saved` of the snapshot, with at most 10 entries, the id once, and the counters copied |
| `Engine.CrushGpt.StartNewChat` | script.js:186-207 | save first, then counters at 0, the new id, no bubbles, and the count-0 labels; replies stay 0 |
| `Engine.CrushGpt.ResetConversation` | script.js:190-206 | counters at 0, new id, empty page, and the count-0 labels |
| `Engine.CrushGpt.OriginalSendMessage` | script.js:369-396 | a blank input changes nothing; otherwise one bubble tagged with the old count is added, the count goes up by exactly 1, and one read callback is scheduled that holds the new bubble's element |
| `Engine.CrushGpt.AddEasterEggs` | script.js:622-633 | the title becomes `EasterEggTitle` of the count |
| `Engine.CrushGpt.OnMessageSent` | script.js:685-698 | easter eggs; auto-save exactly when the count is a positive multiple of 5 (at 0 there is nothing to save); one more status ticker exactly at count 1 |
| `Engine.CrushGpt.SendMessage` | script.js:702-706 | the send, then the hook, which runs even after a blank send |
| `Engine.CrushGpt.UpdateHopeLevel` | script.js:472-495 | the read-outs become `HopeLabel` and `SelfRespectLabel` of the current count |
| `Engine.CrushGpt.MarkLastMessageAsReadAsWritten` | script.js:426-437 | the lookup as written changes no status and schedules no 'Read' callback |
| `Engine.CrushGpt.MarkMessageAsRead` | script.js:426-437 | while the captured element is on the page, its message shows 'Delivered' and a 'Read' callback is scheduled for that element; otherwise nothing changes; no other bubble ever changes |
| `Engine.CrushGpt.ShowTypingIndicator` | script.js:439-454 | the indicator is shown and one hide is scheduled |
| `Engine.CrushGpt.CountReadAndReact` | script.js:385-394 | read count up by exactly 1, indicator shown on the 40% draw, labels follow the count |
| `Engine.CrushGpt.ReadCallbackAsWritten` | script.js:383-396 | read count up by 1; no status changes |
| `Engine.CrushGpt.ReadCallback` | script.js:383-396 | read count up by 1; the bubble whose element was captured at send time shows 'Delivered' and gets a pending 'Read' callback if it is still on the page; otherwise, as for a callback from an earlier conversation, no status changes |
| `Engine.CrushGpt.MarkReadTick` | script.js:432-435 | the held element shows 'Read' if it is still on the page; no bubble goes from 'Sent' straight to 'Read' |
| `Engine.CrushGpt.TypingHideTick` | script.js:446-468 | indicator hidden; on the 30% draw the status shows 'Last seen typing...' and a revert to the previous text is scheduled |
| `Engine.CrushGpt.StatusTick` | script.js:650-660 | on the 10% draw the status shows the picked text and a revert to the idle text is scheduled; the status only ever holds a known text |
| `Engine.CrushGpt.PresenceRevertTick` | script.js:656-658 | a scheduled revert restores the text it holds |
| `Engine.CrushGpt.EncouragementTick` | script.js:539-551 | the closure variables and the shown encouragement follow `Tick` |
| `Scenarios.StaleReceiptAfterNewChat` | script.js:383-386 | a read callback from the previous conversation still counts, so a fresh conversation shows 0 sent and 1 read |
| `Scenarios.BlankSendAtOneStartsAnotherTicker` | script.js:702-706 | a blank send at count 1 starts another status ticker |
| `Scenarios.BlankSendAtFiveSavesAgain` | script.js:702-706 | a blank send at count 5 saves the conversation again |
| `Scenarios.StaleReceiptLeavesNewConversationAlone` | script.js:186-396 | a read callback from the previous conversation, run after the new conversation's first send, leaves that message at 'Sent' and only raises the read count |

## Left out

- DOM rendering is not modelled: the bubble markup, the welcome screen (`loadCurrentConversation`), `updateStats`, `updateChatHistoryUI`, `showTemporaryNotification`, `scrollToBottom`, the input box and the send button. The live `.message` elements are the `bubbles` field.
- The replay views (`loadSavedChat`, `loadPastConversation`, `addPastMessage`, the 15-second revert in `initializePastConversations`) are not modelled, so `bubbles` holds only messages sent in the live conversation. Opening a replay clears the page at once (script.js:163 in `loadSavedChat` once the entry is found, script.js:211 in `loadPastConversation`), so the live bubbles disappear at the click and are never brought back; the replayed messages are then added one by one, and the revert later shows the welcome screen. A save during a replay (an auto-save at a multiple of 5, or `startNewChat`) scrapes the replayed messages instead of the live ones, plus any message sent during the replay, and stores them under the current id with `messageCount` equal to `messagesSent`. From the start of a replay on, the sent count no longer equals the number of bubbles, a state the invariant `Valid` rules out, so the model covers no state from a replay onwards.
- `index.html` is not part of this model. The status line's initial text and the page title come in as constructor parameters. The page is assumed to hold no other `read-status-<n>` elements.
- `localStorage` and JSON (`loadChatHistory`, `saveChatHistory`) are I/O. The stored list is a constructor parameter with no bound, because nothing bounds what storage returns.
- `Date.now`, `toLocaleString` and `toLocaleTimeString` are opaque inputs: the chat ids, the save timestamp and the bubble time.
- `Math.random` and `getRandomDelay` are floating point. The 40%, 30% and 10% draws are boolean parameters, and the picked status is an index parameter.
- Timer delays are not modelled. Pending callbacks may run in any order, which allows more interleavings than the real delays do.
- Console output is not modelled: the encouragement log, the "stopped typing" log and the console art.
- Event wiring is not modelled: listeners, the Ctrl/Cmd+Enter shortcut, the textarea height and the `beforeunload` prompt.
- `escapeHtml` relies on browser serialisation. The model keeps the trimmed text as the bubble's text, which is what reading `textContent` back gives.
- `updateChatHistory` is never called, and only renames sidebar items.
- Strings are sequences of code points. JavaScript's UTF-16 code units are not modelled, which changes nothing for trim, whose trimmable characters are all in the Basic Multilingual Plane.
- `Engine.CrushGpt.SaveCurrentChat`: the bound of 10 entries is promised only after a non-empty save. An empty save leaves a longer stored list as it was, as the source does.

## Findings

| source | as written | input that shows it | evidently intended | confidence | as-written member | corrected member |
|---|---|---|---|---|---|---|
| script.js:417 and script.js:427 | the message's status element gets id `read-status-<count>` before the count is incremented; the read callback looks up `read-status-<count>` after it, which is one past every id on the page, so nothing changes and 'Sent' is never replaced by 'Delivered' or '✓✓ Read' | one message "hi" in a fresh conversation: its element is `read-status-0`, and the callback looks up `read-status-1` | each read callback marks the message it was scheduled for, and nothing else: 'Delivered', then '✓✓ Read'. The corrected member keeps hold of the element itself; keeping only the tag would let a callback from a previous conversation mark the new conversation's message with the same tag (`Engine.CapturedTagAcrossConversations`) | not executed | `Engine.CrushGpt.MarkLastMessageAsReadAsWritten` | `Engine.CrushGpt.MarkMessageAsRead` |

/** The CrushGPT object: the conversation counters, the live conversation's
    message bubbles, the saved-conversation list, the status line, the page
    title, the encouragement ticker, and the timer callbacks that are still
    waiting to run. Each timer callback is a method that the environment
    calls when the timer fires, in any order; every random draw is a
    parameter. */
module Engine {
  import opened Text
  import opened Levels
  import opened History
  import opened Encouragement

  datatype Option<T> = None | Some(value: T)

  /** The text of a bubble's read-status label. */
  datatype ReadStatus = Sent | Delivered | Read

  /** One `.message` bubble of the live conversation. Its read-status
      element carries the id `read-status-<tag>`; node stands for the
      identity of that element, which a pending timer keeps hold of. */
  datatype Bubble = Bubble(text: string, time: string, tag: nat, node: nat, status: ReadStatus)

  /** A reference, held by a pending timer, to the read-status element
      created for the bubble at a position of the conversation. Element
      identities are never reused, so a reference from an earlier
      conversation matches no bubble of a later one. */
  datatype ElementRef = ElementRef(position: nat, node: nat)

  /** The status line's resting text, which the status ticker reverts to. */
  const IdleStatus: string := "Online (but ignoring you)"

  /** The status line while the "stopped typing" hint is shown. */
  const StoppedTypingStatus: string := "Last seen typing..."

  /** The texts the status ticker picks from. */
  const PresenceStatuses: seq<string> := [
    IdleStatus,
    "Active 2 minutes ago",
    "Active 1 hour ago",
    "Online (probably ignoring everyone)",
    "Active now (reading but not replying)",
    "Last seen recently",
    "Online (definitely saw your message)"
  ]

  /** Auto-save runs when the count is a multiple of this. */
  const AutoSaveEvery: nat := 5

  /** What saveCurrentChat reads back from the bubbles on the page: the
      text, the time label, and whether the status label mentions 'Read'
      (of the three labels only the last one does). */
  function Scrape(bubbles: seq<Bubble>): (r: seq<SavedMessage>)
    ensures |r| == |bubbles|
    ensures forall i :: 0 <= i < |r| ==>
      r[i] == SavedMessage(bubbles[i].text, bubbles[i].time, bubbles[i].status == Read)
  {
    if bubbles == [] then []
    else [SavedMessage(bubbles[0].text, bubbles[0].time, bubbles[0].status == Read)] + Scrape(bubbles[1..])
  }

  /** The element lookup by read-status id: the first bubble whose element
      carries the given tag, or none. */
  function FindTag(bubbles: seq<Bubble>, tag: nat): (r: Option<nat>)
    ensures r.Some? ==> r.value < |bubbles| && bubbles[r.value].tag == tag
    ensures r.Some? ==> forall j :: 0 <= j < r.value ==> bubbles[j].tag != tag
    ensures r.None? ==> forall j :: 0 <= j < |bubbles| ==> bubbles[j].tag != tag
  {
    if bubbles == [] then None
    else if bubbles[0].tag == tag then Some(0)
    else match FindTag(bubbles[1..], tag)
      case None => None
      case Some(i) => Some(i + 1)
  }

  /** The tags addUserMessage hands out: the count before the increment,
      so the bubble at position i carries tag i. */
  ghost predicate TagsArePositions(bubbles: seq<Bubble>) {
    forall i :: 0 <= i < |bubbles| ==> bubbles[i].tag == i
  }

  /** As written, the read callback looks up the tag equal to the count
      after the increment, which is one past the last tag handed out, so
      the lookup never finds a bubble. */
  lemma AsWrittenLookupMisses(bubbles: seq<Bubble>)
    requires TagsArePositions(bubbles)
    ensures FindTag(bubbles, |bubbles|) == None
  {
  }

  /** The first message of a conversation carries tag 0, but its read
      callback, running with a count of 1, asks for tag 1. */
  lemma FirstMessageLookupCounterexample()
    ensures var b := [Bubble("hi", "10:00", 0, 0, Sent)];
      FindTag(b, 1) == None && FindTag(b, 0) == Some(0)
  {
  }

  /** With the tag captured when the message was sent, the lookup finds
      that message. */
  lemma CapturedTagFindsMessage(bubbles: seq<Bubble>, tag: nat)
    requires TagsArePositions(bubbles) && tag < |bubbles|
    ensures FindTag(bubbles, tag) == Some(tag)
  {
    assert bubbles[tag].tag == tag;
  }

  /** Capturing the tag alone would not be enough: tags start again at 0 in
      every conversation, so a tag captured before a new conversation
      finds the new conversation's first message. */
  lemma CapturedTagAcrossConversations()
    ensures var page := [Bubble("c", "10:05", 0, 1, Sent)];
      FindTag(page, 0) == Some(0) && !Attached(page, ElementRef(0, 0))
  {
  }

  /** Whether the element a timer holds is still the one on the page. */
  predicate Attached(bubbles: seq<Bubble>, r: ElementRef) {
    r.position < |bubbles| && bubbles[r.position].node == r.node
  }

  function RemoveAt<T>(s: seq<T>, i: nat): (r: seq<T>)
    requires i < |s|
    ensures |r| == |s| - 1
  {
    s[..i] + s[i + 1..]
  }

  class CrushGpt {
    var messagesSent: nat
    var messagesRead: nat
    var repliesReceived: nat
    var currentChatId: int
    var chatHistory: seq<HistoryEntry>

    /** The `.message` bubbles of the live conversation, oldest first. */
    var bubbles: seq<Bubble>
    /** How many bubble elements have been created; the next one gets this
        number as its identity. */
    var nodesCreated: nat

    /** Read callbacks scheduled by sendMessage and not yet run, each with
        the element of the message it was scheduled for. */
    var pendingReceipts: seq<ElementRef>
    /** Callbacks scheduled after 'Delivered' that will set 'Read'. */
    var pendingMarkRead: seq<ElementRef>

    /** Whether the typing indicator has its 'show' class. */
    var typingShown: bool
    /** Typing-indicator hide callbacks not yet run. */
    var pendingTypingHides: nat

    /** The status line's text. */
    var presence: string
    /** Status-line reverts not yet run, each with the text it restores. */
    var pendingReverts: seq<string>
    /** How many status-ticker intervals have been started. */
    var statusTickers: nat

    /** The encouragement interval's two closure variables. */
    var encouragementIndex: nat
    var lastMessageCount: nat

    var hopeLabel: string
    var selfRespectLabel: string
    var title: string

    /** The status line's text when the page loaded. */
    const initialPresence: string

    /** A text the status line can hold: its initial text, the stopped-
        typing hint, or one of the ticker's texts. */
    predicate KnownPresence(s: string) {
      s == initialPresence || s == StoppedTypingStatus || s in PresenceStatuses
    }

    /** The invariant every operation keeps: the bubbles are exactly the
        messages sent in this conversation, tagged by position; every
        element a bubble has or a timer holds was created earlier; a pending 'Read' callback
        whose element is still on the page points at a message that already
        left 'Sent'; and the encouragement cursor is within its list. */
    ghost predicate Valid()
      reads this`repliesReceived, this`messagesSent, this`bubbles, this`nodesCreated,
        this`pendingReceipts, this`pendingMarkRead, this`encouragementIndex
    {
      && repliesReceived == 0
      && messagesSent == |bubbles|
      && TagsArePositions(bubbles)
      && (forall i :: 0 <= i < |bubbles| ==> bubbles[i].node < nodesCreated)
      && (forall k :: 0 <= k < |pendingReceipts| ==> pendingReceipts[k].node < nodesCreated)
      && (forall k :: 0 <= k < |pendingMarkRead| ==> pendingMarkRead[k].node < nodesCreated)
      && (forall k :: 0 <= k < |pendingMarkRead| && Attached(bubbles, pendingMarkRead[k]) ==>
            bubbles[pendingMarkRead[k].position].status != Sent)
      && encouragementIndex <= EncouragementCount
    }

    /** The status line, and every text a pending revert will restore, is
        one the page can show. */
    ghost predicate PresenceKnown()
      reads this`presence, this`pendingReverts
    {
      && KnownPresence(presence)
      && (forall k :: 0 <= k < |pendingReverts| ==> KnownPresence(pendingReverts[k]))
    }

    /** The entry saveCurrentChat builds from the current state. In a valid
        state it holds one message per message sent, and no replies. */
    function Snapshot(timestamp: string): (e: HistoryEntry)
      reads this
      ensures Valid() ==> |e.messages| == e.messageCount == e.stats.sent && e.stats.replies == 0
      ensures e.id == currentChatId && e.timestamp == timestamp
    {
      HistoryEntry(currentChatId, timestamp, messagesSent, Scrape(bubbles),
        Stats(messagesSent, messagesRead, repliesReceived))
    }

    /** The page's initial state. The stored history, the creation time and
        the page's initial labels come from outside. */
    constructor (chatId: int, stored: seq<HistoryEntry>, status: string,
                 pageTitle: string, hope: string, selfRespect: string)
      ensures Valid() && PresenceKnown()
      ensures messagesSent == 0 && messagesRead == 0 && repliesReceived == 0
      ensures currentChatId == chatId && chatHistory == stored && bubbles == []
      ensures pendingReceipts == [] && pendingMarkRead == [] && pendingReverts == []
      ensures !typingShown && pendingTypingHides == 0 && statusTickers == 0
      ensures presence == status && initialPresence == status && title == pageTitle
      ensures hopeLabel == hope && selfRespectLabel == selfRespect
      ensures encouragementIndex == 0 && lastMessageCount == 0
    {
      messagesSent, messagesRead, repliesReceived := 0, 0, 0;
      chatHistory := stored;
      currentChatId := chatId;
      bubbles, nodesCreated := [], 0;
      pendingReceipts, pendingMarkRead := [], [];
      typingShown, pendingTypingHides := false, 0;
      presence, pendingReverts, statusTickers := status, [], 0;
      initialPresence := status;
      encouragementIndex, lastMessageCount := 0, 0;
      hopeLabel, selfRespectLabel, title := hope, selfRespect, pageTitle;
    }

    /** saveCurrentChat: with no bubbles on the page nothing happens;
        otherwise the snapshot replaces any entry with the same id, goes to
        the front, and the list is cut to ten. */
    method SaveCurrentChat(timestamp: string)
      requires Valid()
      modifies this`chatHistory
      ensures chatHistory ==
        if messagesSent == 0 then old(chatHistory)
        else Saved(old(chatHistory), Snapshot(timestamp))
      ensures messagesSent > 0 ==>
        && |chatHistory| <= MaxEntries
        && CountId(chatHistory, currentChatId) == 1
        && chatHistory[0].messageCount == messagesSent
        && chatHistory[0].stats == Stats(messagesSent, messagesRead, 0)
    {
      var messages := Scrape(bubbles);
      if |messages| > 0 {
        var chatData := HistoryEntry(currentChatId, timestamp, messagesSent, messages,
          Stats(messagesSent, messagesRead, repliesReceived));
        chatHistory := WithoutId(chatHistory, currentChatId);
        chatHistory := [chatData] + chatHistory;
        if |chatHistory| > MaxEntries {
          chatHistory := chatHistory[..MaxEntries];
        }
        SavedHoldsIdOnce(old(chatHistory), chatData);
      }
    }

    /** startNewChat: save, reset the three counters, take the new id, clear
        the page, and show the labels for a count of zero. Pending timers,
        the status line and the encouragement ticker are left as they are. */
    method StartNewChat(timestamp: string, newId: int)
      requires Valid()
      modifies this`chatHistory, this`messagesSent, this`messagesRead, this`repliesReceived,
        this`currentChatId, this`bubbles, this`hopeLabel, this`selfRespectLabel
      ensures Valid()
      ensures chatHistory ==
        if old(messagesSent) == 0 then old(chatHistory)
        else Saved(old(chatHistory), old(Snapshot(timestamp)))
      ensures messagesSent == 0 && messagesRead == 0 && repliesReceived == 0
      ensures currentChatId == newId && bubbles == []
      ensures hopeLabel == HopeFallback && selfRespectLabel == SelfRespectFallback
    {
      SaveCurrentChat(timestamp);
      ResetConversation(newId);
    }

    /** The part of startNewChat after the save: counters at zero, the new
        id, an empty page, and the labels for a count of zero. */
    method ResetConversation(newId: int)
      requires Valid()
      modifies this`messagesSent, this`messagesRead, this`repliesReceived,
        this`currentChatId, this`bubbles, this`hopeLabel, this`selfRespectLabel
      ensures Valid()
      ensures messagesSent == 0 && messagesRead == 0 && repliesReceived == 0
      ensures currentChatId == newId && bubbles == []
      ensures hopeLabel == HopeFallback && selfRespectLabel == SelfRespectFallback
    {
      messagesSent, messagesRead, repliesReceived := 0, 0, 0;
      currentChatId := newId;
      bubbles := [];
      UpdateHopeLevel();
      FreshConversationLabels();
    }

    /** sendMessage as the class defines it: a blank input (empty after
        trim) changes nothing; otherwise a bubble tagged with the count
        before the increment is added, the count goes up by one, and a
        read callback is scheduled that holds the new bubble's element. */
    method OriginalSendMessage(input: string, time: string)
      requires Valid()
      modifies this`bubbles, this`nodesCreated, this`messagesSent, this`pendingReceipts
      ensures Valid()
      ensures Trim(input) == [] ==>
        && messagesSent == old(messagesSent) && bubbles == old(bubbles)
        && nodesCreated == old(nodesCreated) && pendingReceipts == old(pendingReceipts)
      ensures Trim(input) != [] ==>
        && messagesSent == old(messagesSent) + 1
        && bubbles == old(bubbles) + [Bubble(Trim(input), time, old(messagesSent), old(nodesCreated), Sent)]
        && nodesCreated == old(nodesCreated) + 1
        && pendingReceipts == old(pendingReceipts) + [ElementRef(old(messagesSent), old(nodesCreated))]
    {
      var text := Trim(input);
      if text == [] {
        return;
      }
      bubbles := bubbles + [Bubble(text, time, messagesSent, nodesCreated, Sent)];
      nodesCreated := nodesCreated + 1;
      messagesSent := messagesSent + 1;
      pendingReceipts := pendingReceipts + [ElementRef(messagesSent - 1, nodesCreated - 1)];
    }

    /** addEasterEggs: the title changes at counts 10, 20 and 50 only. */
    method AddEasterEggs()
      modifies this`title
      ensures title == EasterEggTitle(messagesSent, old(title))
      ensures !IsMilestone(messagesSent) ==> title == old(title)
    {
      if messagesSent == 10 {
        title := TitleAt10;
      } else if messagesSent == 20 {
        title := TitleAt20;
      } else if messagesSent == 50 {
        title := TitleAt50;
      }
    }

    /** onMessageSent: the easter eggs, an auto-save when the count is a
        multiple of five, and one more status-ticker interval when the count
        is one. */
    method OnMessageSent(timestamp: string)
      requires Valid()
      modifies this`title, this`chatHistory, this`statusTickers
      ensures Valid()
      ensures title == EasterEggTitle(messagesSent, old(title))
      ensures chatHistory ==
        if messagesSent % AutoSaveEvery == 0 && messagesSent > 0
        then Saved(old(chatHistory), Snapshot(timestamp))
        else old(chatHistory)
      ensures statusTickers == old(statusTickers) + if messagesSent == 1 then 1 else 0
    {
      AddEasterEggs();
      if messagesSent % AutoSaveEvery == 0 {
        SaveCurrentChat(timestamp);
      }
      if messagesSent == 1 {
        statusTickers := statusTickers + 1;
      }
    }

    /** The sendMessage the page calls: the class's own send, then the
        onMessageSent hook, which runs even when the blank-input guard
        returned early. */
    method SendMessage(input: string, time: string, timestamp: string)
      requires Valid()
      modifies this`bubbles, this`nodesCreated, this`messagesSent, this`pendingReceipts,
        this`title, this`chatHistory, this`statusTickers
      ensures Valid()
      ensures Trim(input) == [] ==>
        && messagesSent == old(messagesSent) && bubbles == old(bubbles)
        && nodesCreated == old(nodesCreated) && pendingReceipts == old(pendingReceipts)
      ensures Trim(input) != [] ==>
        && messagesSent == old(messagesSent) + 1
        && bubbles == old(bubbles) + [Bubble(Trim(input), time, old(messagesSent), old(nodesCreated), Sent)]
        && nodesCreated == old(nodesCreated) + 1
        && pendingReceipts == old(pendingReceipts) + [ElementRef(old(messagesSent), old(nodesCreated))]
      ensures title == EasterEggTitle(messagesSent, old(title))
      ensures chatHistory ==
        if messagesSent % AutoSaveEvery == 0 && messagesSent > 0
        then Saved(old(chatHistory), Snapshot(timestamp))
        else old(chatHistory)
      ensures statusTickers == old(statusTickers) + if messagesSent == 1 then 1 else 0
    {
      OriginalSendMessage(input, time);
      OnMessageSent(timestamp);
    }

    /** updateHopeLevel: both read-outs from the current count. */
    method UpdateHopeLevel()
      requires Valid()
      modifies this`hopeLabel, this`selfRespectLabel
      ensures Valid()
      ensures hopeLabel == HopeLabel(messagesSent)
      ensures selfRespectLabel == SelfRespectLabel(messagesSent)
    {
      var level := LevelIndex(messagesSent);
      hopeLabel := LabelAt(HopeLevels, level, HopeFallback);
      selfRespectLabel := LabelAt(SelfRespectLevels, level, SelfRespectFallback);
    }

    /** markLastMessageAsRead as the source writes it: it looks up the tag
        equal to the count after the increment, which no bubble carries, so
        no status ever changes and no 'Read' callback is scheduled. */
    method MarkLastMessageAsReadAsWritten()
      requires Valid()
      modifies this`bubbles, this`pendingMarkRead
      ensures Valid()
      ensures bubbles == old(bubbles) && pendingMarkRead == old(pendingMarkRead)
    {
      AsWrittenLookupMisses(bubbles);
      var target := FindTag(bubbles, messagesSent);
      if target.Some? {
        assert false;
      }
    }

    /** markLastMessageAsRead given the element of the message the callback
        was scheduled for: while that element is on the page it shows
        'Delivered' and a callback that will show 'Read' is scheduled for
        it. A callback whose element is gone (one left over from a previous
        conversation) changes nothing, so it never touches a bubble of the
        new conversation. */
    method MarkMessageAsRead(r: ElementRef)
      requires Valid()
      modifies this`bubbles, this`pendingMarkRead
      ensures Valid()
      ensures Attached(old(bubbles), r) ==>
        && bubbles == old(bubbles)[r.position := old(bubbles)[r.position].(status := Delivered)]
        && pendingMarkRead == old(pendingMarkRead) + [r]
      ensures !Attached(old(bubbles), r) ==> bubbles == old(bubbles) && pendingMarkRead == old(pendingMarkRead)
      ensures forall i :: 0 <= i < |bubbles| && i != r.position ==> bubbles[i] == old(bubbles)[i]
    {
      if Attached(bubbles, r) {
        bubbles := bubbles[r.position := bubbles[r.position].(status := Delivered)];
        pendingMarkRead := pendingMarkRead + [r];
      }
    }

    /** showTypingIndicator: the indicator is shown and a hide is scheduled. */
    method ShowTypingIndicator()
      modifies this`typingShown, this`pendingTypingHides
      ensures typingShown && pendingTypingHides == old(pendingTypingHides) + 1
    {
      typingShown := true;
      pendingTypingHides := pendingTypingHides + 1;
    }

    /** What every read callback does after the status lookup: the read
        count goes up by one, the typing draw may show the indicator, and
        the labels follow the count. */
    method CountReadAndReact(typingRoll: bool)
      requires Valid()
      modifies this`messagesRead, this`typingShown, this`pendingTypingHides,
        this`hopeLabel, this`selfRespectLabel
      ensures Valid()
      ensures messagesRead == old(messagesRead) + 1
      ensures typingShown == (old(typingShown) || typingRoll)
      ensures pendingTypingHides == old(pendingTypingHides) + if typingRoll then 1 else 0
      ensures hopeLabel == HopeLabel(messagesSent) && selfRespectLabel == SelfRespectLabel(messagesSent)
    {
      messagesRead := messagesRead + 1;
      if typingRoll {
        ShowTypingIndicator();
      }
      UpdateHopeLevel();
    }

    /** The read callback as the source writes it: no status changes, the
        read count goes up by one, the typing draw may show the indicator,
        and the labels follow the count. */
    method ReadCallbackAsWritten(which: nat, typingRoll: bool)
      requires Valid() && which < |pendingReceipts|
      modifies this`pendingReceipts, this`bubbles, this`pendingMarkRead, this`messagesRead,
        this`typingShown, this`pendingTypingHides, this`hopeLabel, this`selfRespectLabel
      ensures Valid()
      ensures pendingReceipts == RemoveAt(old(pendingReceipts), which)
      ensures messagesRead == old(messagesRead) + 1
      ensures bubbles == old(bubbles) && pendingMarkRead == old(pendingMarkRead)
      ensures typingShown == (old(typingShown) || typingRoll)
      ensures pendingTypingHides == old(pendingTypingHides) + if typingRoll then 1 else 0
      ensures hopeLabel == HopeLabel(messagesSent) && selfRespectLabel == SelfRespectLabel(messagesSent)
    {
      pendingReceipts := RemoveAt(pendingReceipts, which);
      MarkLastMessageAsReadAsWritten();
      CountReadAndReact(typingRoll);
    }

    /** The read callback with the element captured at send time: the
        message it was scheduled for shows 'Delivered' if it is still on the
        page, no other bubble changes, the read count goes up by one, the
        typing draw may show the indicator, and the labels follow the count. */
    method ReadCallback(which: nat, typingRoll: bool)
      requires Valid() && which < |pendingReceipts|
      modifies this`pendingReceipts, this`bubbles, this`pendingMarkRead, this`messagesRead,
        this`typingShown, this`pendingTypingHides, this`hopeLabel, this`selfRespectLabel
      ensures Valid()
      ensures pendingReceipts == RemoveAt(old(pendingReceipts), which)
      ensures messagesRead == old(messagesRead) + 1
      ensures var r := old(pendingReceipts[which]);
        && (Attached(old(bubbles), r) ==>
              && bubbles == old(bubbles)[r.position := old(bubbles)[r.position].(status := Delivered)]
              && pendingMarkRead == old(pendingMarkRead) + [r])
        && (!Attached(old(bubbles), r) ==> bubbles == old(bubbles) && pendingMarkRead == old(pendingMarkRead))
      ensures typingShown == (old(typingShown) || typingRoll)
      ensures pendingTypingHides == old(pendingTypingHides) + if typingRoll then 1 else 0
      ensures hopeLabel == HopeLabel(messagesSent) && selfRespectLabel == SelfRespectLabel(messagesSent)
    {
      var r := pendingReceipts[which];
      pendingReceipts := RemoveAt(pendingReceipts, which);
      MarkMessageAsRead(r);
      CountReadAndReact(typingRoll);
    }

    /** The callback 200 to 500 ms after 'Delivered': the element it holds
        shows 'Read' if it is still on the page. No bubble ever goes from
        'Sent' straight to 'Read'. */
    method MarkReadTick(which: nat)
      requires Valid() && which < |pendingMarkRead|
      modifies this`pendingMarkRead, this`bubbles
      ensures Valid()
      ensures pendingMarkRead == RemoveAt(old(pendingMarkRead), which)
      ensures var r := old(pendingMarkRead[which]);
        && (Attached(old(bubbles), r) ==>
              bubbles == old(bubbles)[r.position := old(bubbles)[r.position].(status := Read)])
        && (!Attached(old(bubbles), r) ==> bubbles == old(bubbles))
      ensures |bubbles| == |old(bubbles)|
      ensures forall i :: 0 <= i < |bubbles| && old(bubbles)[i].status == Sent ==> bubbles[i].status == Sent
    {
      var r := pendingMarkRead[which];
      pendingMarkRead := RemoveAt(pendingMarkRead, which);
      if Attached(bubbles, r) {
        bubbles := bubbles[r.position := bubbles[r.position].(status := Read)];
      }
    }

    /** The callback that ends a typing episode: the indicator is hidden,
        and with the 30% draw the status line shows the stopped-typing hint
        and a revert to its previous text is scheduled. */
    method TypingHideTick(stoppedRoll: bool)
      requires PresenceKnown() && pendingTypingHides > 0
      modifies this`typingShown, this`pendingTypingHides, this`presence, this`pendingReverts
      ensures PresenceKnown()
      ensures !typingShown && pendingTypingHides == old(pendingTypingHides) - 1
      ensures stoppedRoll ==> presence == StoppedTypingStatus && pendingReverts == old(pendingReverts) + [old(presence)]
      ensures !stoppedRoll ==> presence == old(presence) && pendingReverts == old(pendingReverts)
    {
      typingShown := false;
      pendingTypingHides := pendingTypingHides - 1;
      if stoppedRoll {
        var originalText := presence;
        presence := StoppedTypingStatus;
        pendingReverts := pendingReverts + [originalText];
      }
    }

    /** A status-ticker interval tick: with the 10% draw, the status line
        shows the picked text and a revert to the idle text is scheduled. */
    method StatusTick(roll: bool, pick: nat)
      requires PresenceKnown() && statusTickers > 0 && pick < |PresenceStatuses|
      modifies this`presence, this`pendingReverts
      ensures PresenceKnown()
      ensures roll ==> presence == PresenceStatuses[pick] && pendingReverts == old(pendingReverts) + [IdleStatus]
      ensures !roll ==> presence == old(presence) && pendingReverts == old(pendingReverts)
    {
      if roll {
        presence := PresenceStatuses[pick];
        pendingReverts := pendingReverts + [IdleStatus];
      }
    }

    /** A scheduled revert of the status line runs. */
    method PresenceRevertTick(which: nat)
      requires PresenceKnown() && which < |pendingReverts|
      modifies this`presence, this`pendingReverts
      ensures PresenceKnown()
      ensures presence == old(pendingReverts[which])
      ensures pendingReverts == RemoveAt(old(pendingReverts), which)
    {
      presence := pendingReverts[which];
      pendingReverts := RemoveAt(pendingReverts, which);
    }

    /** The encouragement interval's body, run with the current count. */
    method EncouragementTick() returns (shown: seq<string>)
      requires Valid()
      modifies this`encouragementIndex, this`lastMessageCount
      ensures Valid()
      ensures var o := Tick(old(Ticker(encouragementIndex, lastMessageCount)), messagesSent);
        Ticker(encouragementIndex, lastMessageCount) == o.next && shown == o.shown
    {
      shown := [];
      if messagesSent > lastMessageCount && messagesSent % 3 == 0 {
        if encouragementIndex < |Encouragements| {
          shown := [Encouragements[encouragementIndex]];
          encouragementIndex := encouragementIndex + 1;
        }
        lastMessageCount := messagesSent;
      }
    }
  }
}

/** Runs of several engine operations that pin down behaviour no single
    operation shows. */
module Scenarios {
  import opened Text
  import opened History
  import opened Engine

  /** A read callback scheduled in one conversation runs after a new
      conversation has started: it still counts, so the fresh conversation
      shows no message sent and one read. */
  method StaleReceiptAfterNewChat(g: CrushGpt, timestamp: string, newId: int, typingRoll: bool)
    returns (sent: nat, read: nat)
    requires g.Valid() && |g.pendingReceipts| > 0
    modifies g
    ensures sent == 0 && read == 1 && read > sent
  {
    g.StartNewChat(timestamp, newId);
    g.ReadCallback(0, typingRoll);
    sent, read := g.messagesSent, g.messagesRead;
  }

  /** The hook runs after a blank send too: a blank send while the count
      is one starts another status-ticker interval. */
  method BlankSendAtOneStartsAnotherTicker(g: CrushGpt, blank: string, time: string, timestamp: string)
    returns (sent: nat, tickers: nat)
    requires g.Valid() && g.messagesSent == 1 && Trim(blank) == []
    modifies g
    ensures sent == 1 && tickers == old(g.statusTickers) + 1
  {
    g.SendMessage(blank, time, timestamp);
    sent, tickers := g.messagesSent, g.statusTickers;
  }

  /** A blank send while the count is a multiple of five saves the
      conversation again. */
  method BlankSendAtFiveSavesAgain(g: CrushGpt, blank: string, time: string, timestamp: string)
    requires g.Valid() && g.messagesSent == 5 && Trim(blank) == []
    modifies g
    ensures g.messagesSent == 5
    ensures g.chatHistory == Saved(old(g.chatHistory), g.Snapshot(timestamp))
  {
    g.SendMessage(blank, time, timestamp);
  }

  /** A read callback left over from the previous conversation runs after
      the first message of a new one has been sent: the element it holds
      is gone, so the new message keeps its 'Sent' label, and only the
      read count moves. */
  method StaleReceiptLeavesNewConversationAlone(g: CrushGpt, text: string, time: string,
                                                timestamp: string, newId: int, typingRoll: bool)
    requires g.Valid() && |g.pendingReceipts| > 0 && Trim(text) != []
    modifies g
    ensures g.bubbles == [Bubble(Trim(text), time, 0, old(g.nodesCreated), Sent)]
    ensures g.messagesSent == 1 && g.messagesRead == 1
  {
    g.StartNewChat(timestamp, newId);
    g.SendMessage(text, time, timestamp);
    g.ReadCallback(0, typingRoll);
  }
}

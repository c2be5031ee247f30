/** The one-second interval of addEncouragementSystem: a cursor into a fixed
    list of encouragements and the count at which it last fired. */
module Encouragement {

  const Encouragements: seq<string> := [
    "💡 Maybe they're just really busy crafting the perfect response...",
    "🤔 Third time's the charm, right? RIGHT?!",
    "📖 At least they're reading your messages! That's... something?",
    "🎭 Perhaps they're playing hard to get?",
    "🔋 Maybe their phone died... for the 15th time today...",
    "🌟 Keep believing in yourself! (But maybe lower your expectations)",
    "😅 Hey, at least you're consistent!",
    "💪 Persistence is key! (Or so they say...)",
    "🎯 You miss 100% of the shots you don't take! (You also miss the ones you do take)",
    "🧠 Einstein said insanity is doing the same thing expecting different results...",
    "💔 Your dedication to futile causes is truly admirable!",
    "🤡 Welcome to the circus! You're the main act!"
  ]

  /** The length of the list: the cursor never goes past it. */
  const EncouragementCount: nat := 12

  /** The two closure variables of the interval: `encouragementIndex` and
      `lastMessageCount`. */
  datatype Ticker = Ticker(index: nat, lastMessageCount: nat)

  /** The ticker after one tick, and the encouragement it showed, if any. */
  datatype TickOutcome = TickOutcome(next: Ticker, shown: seq<string>)

  const InitialTicker: Ticker := Ticker(0, 0)

  /** The tick's guard: the count has moved past the last recorded count
      and is a multiple of three. It never holds before the third message,
      and once a multiple of three is recorded it holds again only three
      messages later. */
  predicate Qualifies(t: Ticker, sent: nat)
    ensures Qualifies(t, sent) ==> sent >= 3
    ensures Qualifies(t, sent) && t.lastMessageCount % 3 == 0 ==> sent >= t.lastMessageCount + 3
  {
    sent > t.lastMessageCount && sent % 3 == 0
  }

  /** One run of the interval body with the given sent count. */
  function Tick(t: Ticker, sent: nat): (o: TickOutcome)
    ensures |o.shown| <= 1
    ensures |o.shown| == 1 <==> Qualifies(t, sent) && t.index < |Encouragements|
    ensures |o.shown| == 1 ==> o.shown[0] == Encouragements[t.index]
    ensures o.next.index == t.index + |o.shown|
    ensures o.next.lastMessageCount != t.lastMessageCount ==> Qualifies(t, sent)
    ensures Qualifies(t, sent) ==> o.next.lastMessageCount == sent
    ensures o.next.lastMessageCount >= t.lastMessageCount
  {
    if Qualifies(t, sent) then
      if t.index < |Encouragements| then
        TickOutcome(Ticker(t.index + 1, sent), [Encouragements[t.index]])
      else
        TickOutcome(Ticker(t.index, sent), [])
    else
      TickOutcome(t, [])
  }

  /** The cursor never passes the end of the list, so once all twelve are
      shown the ticker stays silent for the rest of the page's life. */
  lemma CursorBounded(t: Ticker, sent: nat)
    requires t.index <= |Encouragements|
    ensures Tick(t, sent).next.index <= |Encouragements|
    ensures t.index == |Encouragements| ==> Tick(t, sent).shown == []
  {
  }

  /** The last recorded count is a high-water mark: while the count is at
      or below it (as after a new conversation resets the count), the tick
      shows nothing and changes nothing. */
  lemma SilentUntilPastHighWater(t: Ticker, sent: nat)
    requires sent <= t.lastMessageCount
    ensures Tick(t, sent) == TickOutcome(t, [])
  {
  }

  /** The ticker after ticks that observe the counts in order. */
  function Run(t: Ticker, counts: seq<nat>): Ticker
    decreases |counts|
  {
    if counts == [] then t else Run(Tick(t, counts[0]).next, counts[1..])
  }

  /** The counts 1, 2, ..., n. */
  function UpTo(n: nat): (r: seq<nat>)
    ensures |r| == n && forall i :: 0 <= i < n ==> r[i] == i + 1
  {
    if n == 0 then [] else UpTo(n - 1) + [n]
  }

  lemma {:induction false} RunAppend(t: Ticker, counts: seq<nat>, c: nat)
    ensures Run(t, counts + [c]) == Tick(Run(t, counts), c).next
    decreases |counts|
  {
    if counts != [] {
      assert (counts + [c])[1..] == counts[1..] + [c];
      RunAppend(Tick(t, counts[0]).next, counts[1..], c);
    } else {
      assert [c][1..] == [];
    }
  }

  /** When the ticker observes every count from 1 to n, it fires at 3, 6,
      9, ... and has shown min(n / 3, 12) encouragements: three after nine
      messages. */
  lemma {:induction false} RunUpToShowsOnePerThree(n: nat)
    ensures Run(InitialTicker, UpTo(n)).index == if n / 3 < |Encouragements| then n / 3 else |Encouragements|
    ensures Run(InitialTicker, UpTo(n)).lastMessageCount == 3 * (n / 3)
  {
    if n > 0 {
      RunUpToShowsOnePerThree(n - 1);
      RunAppend(InitialTicker, UpTo(n - 1), n);
    }
  }
}

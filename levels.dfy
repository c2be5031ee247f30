/** Labels derived from the sent-message count alone: the hope and
    self-respect read-outs of updateHopeLevel and the page titles of
    addEasterEggs. */
module Levels {

  const HopeLevels: seq<string> := [
    "Declining", "Low", "Critical", "Non-existent",
    "Delusional", "Pathetic", "Rock Bottom", "Subterranean"
  ]

  const SelfRespectLevels: seq<string> := [
    "Critical", "Damaged", "Destroyed", "What respect?",
    "Negative", "Inexistent", "Gone", "Never had any"
  ]

  /** Shown when the hope list has no usable entry at the index. */
  const HopeFallback: string := "Declining"

  /** Shown when the self-respect list has no usable entry at the index. */
  const SelfRespectFallback: string := "Critical"

  /** The one index both read-outs use: the count minus one, capped at the
      last position of the hope list. It is -1 for a fresh conversation,
      follows the count one behind up to the end of the list, and stays on
      the last entry from then on. */
  function LevelIndex(sent: nat): (level: int)
    ensures -1 <= level < |HopeLevels| && level < |SelfRespectLevels|
    ensures level == -1 <==> sent == 0
    ensures sent <= |HopeLevels| ==> level == sent - 1
    ensures sent >= |HopeLevels| ==> level == |HopeLevels| - 1
  {
    var a, b := sent - 1, |HopeLevels| - 1;
    if a <= b then a else b
  }

  /** The entry at the index, where an index outside the list, or an empty
      (falsy) entry, yields the fallback. */
  function LabelAt(list: seq<string>, level: int, fallback: string): string {
    if 0 <= level < |list| && list[level] != "" then list[level] else fallback
  }

  /** The hope read-out: the n-th message shows the n-th entry of the list,
      a fresh conversation shows the fallback, and from the eighth message
      on the last entry stays. */
  function HopeLabel(sent: nat): (shown: string)
    ensures shown in HopeLevels
    ensures sent == 0 ==> shown == HopeFallback
    ensures 1 <= sent <= |HopeLevels| ==> shown == HopeLevels[sent - 1]
    ensures sent >= |HopeLevels| ==> shown == HopeLevels[|HopeLevels| - 1]
  {
    LabelAt(HopeLevels, LevelIndex(sent), HopeFallback)
  }

  /** The self-respect read-out, at the same position as the hope read-out. */
  function SelfRespectLabel(sent: nat): (shown: string)
    ensures shown in SelfRespectLevels
    ensures sent == 0 ==> shown == SelfRespectFallback
    ensures 1 <= sent <= |SelfRespectLevels| ==> shown == SelfRespectLevels[sent - 1]
    ensures sent >= |SelfRespectLevels| ==> shown == SelfRespectLevels[|SelfRespectLevels| - 1]
  {
    LabelAt(SelfRespectLevels, LevelIndex(sent), SelfRespectFallback)
  }

  /** Both read-outs are taken at the same position of their lists: the
      count minus one, clamped to the list, where a fresh conversation falls
      back to 'Declining' and 'Critical', which happen to be the first
      entries, so a count of 0 and a count of 1 show the same labels. */
  lemma LabelsShareOneIndex(sent: nat)
    ensures var k := if sent == 0 then 0 else LevelIndex(sent);
      && HopeLabel(sent) == HopeLevels[k]
      && SelfRespectLabel(sent) == SelfRespectLevels[k]
    ensures sent == 0 ==> HopeLabel(sent) == HopeFallback && SelfRespectLabel(sent) == SelfRespectFallback
    ensures HopeLabel(0) == HopeLabel(1) && SelfRespectLabel(0) == SelfRespectLabel(1)
  {
    assert forall i :: 0 <= i < |HopeLevels| ==> HopeLevels[i] != "";
    assert forall i :: 0 <= i < |SelfRespectLevels| ==> SelfRespectLevels[i] != "";
  }

  /** A named instance of the labels' contracts for a fresh conversation:
      a count of zero shows both fallbacks. startNewChat relies on it. */
  lemma FreshConversationLabels()
    ensures HopeLabel(0) == HopeFallback && SelfRespectLabel(0) == SelfRespectFallback
  {
  }

  /** After three messages both read-outs are at index 2 of their lists:
      'Critical' and 'Destroyed'. */
  lemma LabelsAfterThreeMessages()
    ensures HopeLabel(3) == "Critical" && SelfRespectLabel(3) == "Destroyed"
  {
  }

  /** A named instance of the labels' contracts with the entries spelled
      out: from the eighth message on, both read-outs stay on 'Subterranean'
      and 'Never had any'. */
  lemma LabelsClampAtLastEntry(sent: nat)
    requires sent >= 8
    ensures HopeLabel(sent) == "Subterranean"
    ensures SelfRespectLabel(sent) == "Never had any"
  {
  }

  /** The labels only ever move down their lists as the count grows. */
  lemma LevelIndexMonotone(a: nat, b: nat)
    requires a <= b
    ensures LevelIndex(a) <= LevelIndex(b)
  {
  }

  const TitleAt10: string := "Crush-GPT - Still No Reply 😢"
  const TitleAt20: string := "Crush-GPT - Seriously? 🤡"
  const TitleAt50: string := "Crush-GPT - Get Some Help 💔"

  predicate IsMilestone(sent: nat) {
    sent == 10 || sent == 20 || sent == 50
  }

  /** The page title after addEasterEggs runs with the given count. */
  function EasterEggTitle(sent: nat, title: string): (t: string)
    ensures !IsMilestone(sent) ==> t == title
    ensures IsMilestone(sent) ==> t in {TitleAt10, TitleAt20, TitleAt50}
  {
    if sent == 10 then TitleAt10
    else if sent == 20 then TitleAt20
    else if sent == 50 then TitleAt50
    else title
  }

  /** The title after addEasterEggs has seen the counts 1, 2, ..., n in turn. */
  function TitleAfterCounts(n: nat, initial: string): string {
    if n == 0 then initial else EasterEggTitle(n, TitleAfterCounts(n - 1, initial))
  }

  /** Each milestone sets its title once and the title then stays until the
      next milestone: it does not fire again at 11, 12, and so on. */
  lemma {:induction false} TitleAfterCountsIsLastMilestone(n: nat, initial: string)
    ensures n < 10 ==> TitleAfterCounts(n, initial) == initial
    ensures 10 <= n < 20 ==> TitleAfterCounts(n, initial) == TitleAt10
    ensures 20 <= n < 50 ==> TitleAfterCounts(n, initial) == TitleAt20
    ensures 50 <= n ==> TitleAfterCounts(n, initial) == TitleAt50
  {
    if n > 0 {
      TitleAfterCountsIsLastMilestone(n - 1, initial);
    }
  }
}

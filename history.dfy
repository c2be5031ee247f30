/** The saved-conversation list that saveCurrentChat maintains: at most ten
    snapshots, most recent first, one per conversation id. */
module History {

  /** The three counters copied into a snapshot. */
  datatype Stats = Stats(sent: nat, read: nat, replies: nat)

  /** One scraped message bubble: its text, its time label, and whether its
      read-status label mentions 'Read'. */
  datatype SavedMessage = SavedMessage(text: string, time: string, read: bool)

  /** A saved conversation. The id is the conversation's creation time and
      the timestamp a locale-formatted string, both opaque here. */
  datatype HistoryEntry = HistoryEntry(
    id: int,
    timestamp: string,
    messageCount: nat,
    messages: seq<SavedMessage>,
    stats: Stats)

  /** The list never keeps more than this many entries after a save. */
  const MaxEntries: nat := 10

  /** The list without the entries that carry the given id, the others
      kept in order. */
  function WithoutId(h: seq<HistoryEntry>, id: int): (r: seq<HistoryEntry>)
    ensures |r| <= |h|
  {
    if h == [] then []
    else if h[0].id == id then WithoutId(h[1..], id)
    else [h[0]] + WithoutId(h[1..], id)
  }

  /** The number of entries of h that carry the given id. */
  function CountId(h: seq<HistoryEntry>, id: int): nat {
    if h == [] then 0 else (if h[0].id == id then 1 else 0) + CountId(h[1..], id)
  }

  /** a can be obtained from b by deleting entries: what is left keeps its order. */
  ghost predicate IsSubsequence(a: seq<HistoryEntry>, b: seq<HistoryEntry>) {
    a == [] || (b != [] && ((a[0] == b[0] && IsSubsequence(a[1..], b[1..])) || IsSubsequence(a, b[1..])))
  }

  /** No two entries share an id. */
  ghost predicate UniqueIds(h: seq<HistoryEntry>) {
    forall i, j :: 0 <= i < j < |h| ==> h[i].id != h[j].id
  }

  /** The list after a non-empty save of e: every older entry with e's id
      removed, e put at the front, and the list cut to its first ten. */
  function Saved(h: seq<HistoryEntry>, e: HistoryEntry): (r: seq<HistoryEntry>)
    ensures 1 <= |r| <= MaxEntries
    ensures r[0] == e
  {
    var moved := [e] + WithoutId(h, e.id);
    if |moved| > MaxEntries then moved[..MaxEntries] else moved
  }

  /** Filtering keeps exactly the entries with another id. */
  lemma {:induction false} WithoutIdMembers(h: seq<HistoryEntry>, id: int)
    ensures forall e :: e in WithoutId(h, id) <==> e in h && e.id != id
  {
    if h != [] {
      WithoutIdMembers(h[1..], id);
      assert forall e :: e in h <==> e == h[0] || e in h[1..];
    }
  }

  /** Filtering keeps the surviving entries in their original order. */
  lemma {:induction false} WithoutIdIsSubsequence(h: seq<HistoryEntry>, id: int)
    ensures IsSubsequence(WithoutId(h, id), h)
  {
    if h != [] {
      WithoutIdIsSubsequence(h[1..], id);
    }
  }

  /** After filtering, no entry with the id is left. */
  lemma {:induction false} WithoutIdRemovesAll(h: seq<HistoryEntry>, id: int)
    ensures CountId(WithoutId(h, id), id) == 0
  {
    if h != [] {
      WithoutIdRemovesAll(h[1..], id);
    }
  }

  /** Filtering out an id that no entry carries changes nothing. */
  lemma {:induction false} WithoutAbsentId(h: seq<HistoryEntry>, id: int)
    requires CountId(h, id) == 0
    ensures WithoutId(h, id) == h
  {
    if h != [] {
      WithoutAbsentId(h[1..], id);
    }
  }

  /** A prefix of a list holds no more entries with a given id than the list. */
  lemma {:induction false} CountIdPrefix(h: seq<HistoryEntry>, n: nat, id: int)
    requires n <= |h|
    ensures CountId(h[..n], id) <= CountId(h, id)
  {
    if n > 0 {
      assert h[..n][1..] == h[1..][..n - 1];
      CountIdPrefix(h[1..], n - 1, id);
    }
  }

  /** Replace and move to the front: after a save, the saved conversation
      is the first entry and the only one with its id, even if the list held
      that id several times before. */
  lemma SavedHoldsIdOnce(h: seq<HistoryEntry>, e: HistoryEntry)
    ensures Saved(h, e)[0] == e
    ensures CountId(Saved(h, e), e.id) == 1
  {
    var rest := WithoutId(h, e.id);
    WithoutIdRemovesAll(h, e.id);
    var moved := [e] + rest;
    assert moved[1..] == rest;
    if |moved| > MaxEntries {
      CountIdPrefix(moved, MaxEntries, e.id);
      assert moved[..MaxEntries][0] == e;
    }
  }

  /** Everything behind the saved entry is the old list without that id,
      in its old order: all of it while it has fewer than ten entries,
      otherwise its first nine, so only the overflow at the end is lost. */
  lemma SavedKeepsOthersInOrder(h: seq<HistoryEntry>, e: HistoryEntry)
    ensures var rest := Saved(h, e)[1..];
      && rest == WithoutId(h, e.id)[..|rest|]
      && |rest| == (if |WithoutId(h, e.id)| < MaxEntries then |WithoutId(h, e.id)| else MaxEntries - 1)
      && IsSubsequence(WithoutId(h, e.id), h)
      && (forall x :: x in rest ==> x in h && x.id != e.id)
  {
    WithoutIdIsSubsequence(h, e.id);
    WithoutIdMembers(h, e.id);
    var rest := Saved(h, e)[1..];
    forall x | x in rest ensures x in WithoutId(h, e.id) {
      var i :| 0 <= i < |rest| && rest[i] == x;
      assert WithoutId(h, e.id)[i] == x;
    }
  }

  /** Ten entries with distinct ids, and a new conversation saved: the
      oldest entry is evicted and the others move one place back. */
  lemma SavingEleventhEvictsOldest(h: seq<HistoryEntry>, e: HistoryEntry)
    requires |h| == MaxEntries
    requires CountId(h, e.id) == 0
    ensures Saved(h, e) == [e] + h[..MaxEntries - 1]
  {
    WithoutAbsentId(h, e.id);
  }

  /** A save keeps the ids of the list distinct. */
  lemma SavedKeepsIdsUnique(h: seq<HistoryEntry>, e: HistoryEntry)
    requires UniqueIds(h)
    ensures UniqueIds(Saved(h, e))
  {
    var r := Saved(h, e);
    var rest := WithoutId(h, e.id);
    WithoutIdIsSubsequence(h, e.id);
    WithoutIdMembers(h, e.id);
    UniqueSubsequence(rest, h);
    forall i, j | 0 <= i < j < |r| ensures r[i].id != r[j].id {
      if i == 0 {
        assert r[j] == rest[j - 1];
        assert rest[j - 1] in rest;
      } else {
        assert r[i] == rest[i - 1] && r[j] == rest[j - 1];
      }
    }
  }

  /** A subsequence of a list with distinct ids has distinct ids. */
  lemma {:induction false} UniqueSubsequence(a: seq<HistoryEntry>, b: seq<HistoryEntry>)
    requires IsSubsequence(a, b) && UniqueIds(b)
    ensures UniqueIds(a)
    ensures forall x :: x in a ==> x in b
  {
    if a != [] {
      assert UniqueIds(b[1..]) by {
        forall i, j | 0 <= i < j < |b| - 1 ensures b[1..][i].id != b[1..][j].id {
          assert b[1..][i] == b[i + 1] && b[1..][j] == b[j + 1];
        }
      }
      if a[0] == b[0] && IsSubsequence(a[1..], b[1..]) {
        UniqueSubsequence(a[1..], b[1..]);
        forall i, j | 0 <= i < j < |a| ensures a[i].id != a[j].id {
          if i == 0 {
            assert a[j] in a[1..];
            var k :| 0 <= k < |b[1..]| && b[1..][k] == a[j];
            assert b[k + 1] == a[j];
          } else {
            assert a[i] == a[1..][i - 1] && a[j] == a[1..][j - 1];
          }
        }
        forall x | x in a ensures x in b {
          if x != a[0] {
            assert x in a[1..];
          }
        }
      } else {
        UniqueSubsequence(a, b[1..]);
      }
    }
  }
}

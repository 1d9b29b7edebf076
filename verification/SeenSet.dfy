/**
 The bounded deduplication set of a peer manager: an ordered dictionary whose
 oldest key is evicted when a new key arrives at capacity.
 */
module SeenSet {
  import opened Sequences

  type FindingId = string

  const MAX_SEEN: nat := 1000

  /** The ordered seen set after one mark. The oldest entry is at index 0. */
  function Mark(seen: seq<FindingId>, id: FindingId): seq<FindingId> {
    if id in seen then Without(seen, id) + [id]
    else if |seen| >= MAX_SEEN then seen[1..] + [id]
    else seen + [id]
  }

  /** The seen set after a whole history of marks, starting empty. */
  function MarkAll(history: seq<FindingId>): seq<FindingId> {
    if history == [] then []
    else Mark(MarkAll(history[..|history| - 1]), history[|history| - 1])
  }

  /** The distinct ids of a history, ordered by their last mark (no capacity). */
  function ByLastMark(history: seq<FindingId>): seq<FindingId> {
    if history == [] then []
    else
      var last := history[|history| - 1];
      Without(ByLastMark(history[..|history| - 1]), last) + [last]
  }

  /** What was marked after the last mark of `id`; the whole history if `id` was never marked. */
  function AfterLast(history: seq<FindingId>, id: FindingId): (r: seq<FindingId>)
    ensures |r| <= |history| && r == history[|history| - |r|..]
    ensures id !in r
    ensures id in history ==> |r| < |history| && history[|history| - |r| - 1] == id
  {
    if history == [] || history[|history| - 1] == id then []
    else
      var r := AfterLast(history[..|history| - 1], id);
      assert history == history[..|history| - 1] + [history[|history| - 1]];
      r + [history[|history| - 1]]
  }

  lemma {:induction false} ByLastMarkElems(history: seq<FindingId>)
    ensures Distinct(ByLastMark(history))
    ensures Elems(ByLastMark(history)) == Elems(history)
  {
    if history == [] {
    } else {
      var init, last := history[..|history| - 1], history[|history| - 1];
      assert history == init + [last];
      ByLastMarkElems(init);
      WithoutDistinct(ByLastMark(init), last);
      WithoutElems(ByLastMark(init), last);
      var w := Without(ByLastMark(init), last);
      assert Elems(w + [last]) == Elems(w) + {last};
      assert Elems(history) == Elems(init) + {last};
    }
  }

  /** `id` stands in the recency order, followed by exactly the ids marked since its last mark. */
  lemma {:induction false} RecencyOrder(history: seq<FindingId>, id: FindingId)
    returns (older: seq<FindingId>, newer: seq<FindingId>)
    requires id in history
    ensures ByLastMark(history) == older + [id] + newer
    ensures Elems(newer) == Elems(AfterLast(history, id))
  {
    var init, last := history[..|history| - 1], history[|history| - 1];
    assert history == init + [last];
    if last == id {
      older, newer := Without(ByLastMark(init), last), [];
    } else {
      assert id in init;
      var a, b := RecencyOrder(init, id);
      older, newer := Without(a, last), Without(b, last) + [last];
      assert ByLastMark(history) == older + [id] + newer by {
        WithoutConcat(a + [id], b, last);
        WithoutConcat(a, [id], last);
        assert Without([id], last) == [id];
      }
      assert Elems(newer) == Elems(AfterLast(history, id)) by {
        WithoutElems(b, last);
        ElemsConcat(Without(b, last), [last]);
        ElemsConcat(AfterLast(init, id), [last]);
      }
    }
  }

  /** One mark on the last MAX_SEEN entries acts as one mark on the whole recency order. */
  lemma MarkRefines(order: seq<FindingId>, id: FindingId)
    requires Distinct(order)
    ensures Mark(Suffix(order, MAX_SEEN), id) == Suffix(Without(order, id) + [id], MAX_SEEN)
  {
    var kept := Suffix(order, MAX_SEEN);
    var gone := order[..|order| - |kept|];
    assert order == gone + kept;
    WithoutConcat(gone, kept, id);
    if id in kept {
      MoveToEnd(gone, kept, id);
    } else {
      WithoutAbsent(kept, id);
      Push(Without(gone, id), kept, id);
      assert gone == [] ==> Without(gone, id) == [];
    }
  }

  lemma DistinctParts(a: seq<FindingId>, b: seq<FindingId>)
    requires Distinct(a + b)
    ensures Distinct(b)
    ensures forall x :: x in b ==> x !in a
  {
    assert forall i | 0 <= i < |b| :: b[i] == (a + b)[|a| + i];
    forall i, j | 0 <= i < |a| && 0 <= j < |b| ensures a[i] != b[j] {
      assert (a + b)[i] != (a + b)[|a| + j];
    }
  }

  lemma MoveToEnd(gone: seq<FindingId>, kept: seq<FindingId>, id: FindingId)
    requires Distinct(gone + kept) && id in kept
    requires |kept| <= MAX_SEEN && (gone == [] || |kept| == MAX_SEEN)
    ensures Suffix(Without(gone, id) + Without(kept, id) + [id], MAX_SEEN) == Without(kept, id) + [id]
  {
    DistinctParts(gone, kept);
    WithoutAbsent(gone, id);
    WithoutDistinct(kept, id);
    SuffixOfConcat(gone, Without(kept, id) + [id]);
    assert gone + Without(kept, id) + [id] == gone + (Without(kept, id) + [id]);
  }

  lemma Push(gone: seq<FindingId>, kept: seq<FindingId>, id: FindingId)
    requires id !in kept
    requires |kept| <= MAX_SEEN && (|kept| < MAX_SEEN ==> gone == [])
    ensures Suffix(gone + kept + [id], MAX_SEEN) == Mark(kept, id)
  {
    if |kept| == MAX_SEEN {
      SuffixOfConcat(gone + [kept[0]], kept[1..] + [id]);
      assert gone + kept + [id] == (gone + [kept[0]]) + (kept[1..] + [id]);
    }
  }

  lemma SuffixOfConcat(a: seq<FindingId>, b: seq<FindingId>)
    requires a == [] || |b| == MAX_SEEN
    requires |b| <= MAX_SEEN
    ensures Suffix(a + b, MAX_SEEN) == b
  {
  }

  /** The eviction scheme keeps exactly the last MAX_SEEN distinct ids of the history, in order of last mark. */
  lemma {:induction false} LruRefinement(history: seq<FindingId>)
    ensures MarkAll(history) == Suffix(ByLastMark(history), 1000)
  {
    if history == [] {
    } else {
      var init, last := history[..|history| - 1], history[|history| - 1];
      LruRefinement(init);
      ByLastMarkElems(init);
      MarkRefines(ByLastMark(init), last);
    }
  }

  /** Membership decides whether fewer than MAX_SEEN distinct ids were marked since the last mark of `id`. */
  lemma SeenIffRecent(history: seq<FindingId>, id: FindingId)
    ensures id in MarkAll(history) <==>
            id in history && |Elems(AfterLast(history, id))| < 1000
  {
    LruRefinement(history);
    ByLastMarkElems(history);
    var order := ByLastMark(history);
    assert id in order <==> id in Elems(order);
    if id in history {
      var older, newer := RecencyOrder(history, id);
      assert Distinct(newer) by {
        assert forall i | 0 <= i < |newer| :: newer[i] == order[|older| + 1 + i];
      }
      DistinctCard(newer);
      assert order[|older|] == id;
    }
  }

  /** An id that was marked and is no longer remembered was pushed out by MAX_SEEN distinct others. */
  lemma ForgottenOnlyAfterMany(history: seq<FindingId>, k: nat)
    requires k < |history| && history[k] !in MarkAll(history)
    ensures |Elems(history[k + 1..]) - {history[k]}| >= 1000
  {
    SeenIffRecent(history, history[k]);
    TailIsLater(history, k);
    var tail := AfterLast(history, history[k]);
    assert Elems(tail) <= Elems(history[k + 1..]) - {history[k]} by {
      assert forall x :: x in Elems(tail) <==> x in tail;
    }
    SubsetCard(Elems(tail), Elems(history[k + 1..]) - {history[k]});
  }

  lemma NoneAfterLast(history: seq<FindingId>, id: FindingId)
    ensures forall i :: |history| - |AfterLast(history, id)| <= i < |history| ==> history[i] != id
  {
    var tail := AfterLast(history, id);
    forall i | |history| - |tail| <= i < |history| ensures history[i] != id {
      assert tail[i - (|history| - |tail|)] in tail;
    }
  }

  /** What was marked after the last mark of an id was marked after each of its marks. */
  lemma TailIsLater(history: seq<FindingId>, k: nat)
    requires k < |history|
    ensures forall x :: x in AfterLast(history, history[k]) ==> x in history[k + 1..] && x != history[k]
  {
    var tail := AfterLast(history, history[k]);
    var start := |history| - |tail|;
    NoneAfterLast(history, history[k]);
    assert k < start;
    assert tail == history[k + 1..][start - k - 1..];
  }

  /** The distinct other ids marked after position p. */
  function OthersAfter(history: seq<FindingId>, p: nat): set<FindingId>
    requires p < |history|
  {
    Elems(history[p + 1..]) - {history[p]}
  }

  /** If `id` was marked at position p, fewer than MAX_SEEN distinct other ids were marked after that. */
  ghost predicate FewSince(history: seq<FindingId>, id: FindingId, p: nat) {
    p < |history| && history[p] == id ==> |OthersAfter(history, p)| < MAX_SEEN
  }

  ghost predicate FewAfter(history: seq<FindingId>, id: FindingId) {
    forall p: nat :: FewSince(history, id, p)
  }

  ghost predicate Once(history: seq<FindingId>, id: FindingId) {
    forall i, j :: 0 <= i < j < |history| && history[i] == id ==> history[j] != id
  }

  lemma OthersGrow(history: seq<FindingId>, next: FindingId, p: nat)
    requires p < |history|
    ensures |OthersAfter(history, p)| <= |OthersAfter(history + [next], p)|
  {
    assert (history + [next])[p + 1..] == history[p + 1..] + [next];
    ElemsConcat(history[p + 1..], [next]);
    SubsetCard(OthersAfter(history, p), OthersAfter(history + [next], p));
  }

  lemma FewAfterPrefix(history: seq<FindingId>, next: FindingId, id: FindingId)
    requires FewAfter(history + [next], id)
    ensures FewAfter(history, id)
  {
    forall p: nat ensures FewSince(history, id, p) {
      assert FewSince(history + [next], id, p);
      if p < |history| {
        OthersGrow(history, next, p);
      }
    }
  }

  lemma FewAfterSeen(history: seq<FindingId>, id: FindingId)
    requires FewAfter(history, id) && id in history
    ensures id in MarkAll(history)
  {
    var p :| 0 <= p < |history| && history[p] == id;
    assert FewSince(history, id, p);
    if id !in MarkAll(history) {
      ForgottenOnlyAfterMany(history, p);
    }
  }

  lemma OnlyMark(history: seq<FindingId>, id: FindingId, p: nat)
    requires Once(history, id) && p < |history| && history[p] == id
    ensures history[p + 1..] == AfterLast(history, id)
  {
    assert history[|history| - |AfterLast(history, id)| - 1] == id;
  }

  lemma SeenFewAfter(history: seq<FindingId>, id: FindingId)
    requires Once(history, id) && (id in history ==> id in MarkAll(history))
    ensures FewAfter(history, id)
  {
    SeenIffRecent(history, id);
    forall p: nat ensures FewSince(history, id, p) {
      if p < |history| && history[p] == id {
        OnlyMark(history, id, p);
        SubsetCard(OthersAfter(history, p), Elems(AfterLast(history, id)));
      }
    }
  }

  /** While at most MAX_SEEN distinct ids were ever marked, nothing is forgotten. */
  lemma FewIdsFewAfter(history: seq<FindingId>, id: FindingId)
    requires |Elems(history)| <= MAX_SEEN
    ensures FewAfter(history, id)
  {
    forall p: nat ensures FewSince(history, id, p) {
      if p < |history| && history[p] == id {
        assert id in Elems(history);
        SubsetCard(OthersAfter(history, p), Elems(history) - {id});
      }
    }
  }
}

/** `Loop::TimerEntry` and the `std::priority_queue` of them. The entry's
    `operator<` compares expiry times with `>`, so the queue's top — an entry
    no other entry exceeds under `operator<` — is one with the earliest
    expiry. The heap is kept as a sequence in insertion order. */
module Timers {
  import opened Base

  datatype TimerEntry = TimerEntry(expireTime: int, coroutine: Handle)

  /** `TimerEntry::operator<`: deliberately inverted. */
  predicate Less(a: TimerEntry, b: TimerEntry)
  {
    a.expireTime > b.expireTime
  }

  /** What `priority_queue::top()` promises: an entry of the heap that no
      entry of the heap exceeds under `Less`. */
  predicate IsTop(e: TimerEntry, heap: seq<TimerEntry>)
  {
    e in heap && forall x :: x in heap ==> !Less(e, x)
  }

  /** An entry with the earliest expiry of the heap. */
  predicate Earliest(e: TimerEntry, heap: seq<TimerEntry>)
  {
    e in heap && forall x :: x in heap ==> e.expireTime <= x.expireTime
  }

  /** Because `operator<` is inverted, the max-heap's top is the entry that
      expires first. */
  lemma TopIsEarliest(e: TimerEntry, heap: seq<TimerEntry>)
    ensures IsTop(e, heap) <==> Earliest(e, heap)
  {
  }

  /** `push`. */
  function Push(heap: seq<TimerEntry>, e: TimerEntry): (r: seq<TimerEntry>)
    ensures multiset(r) == multiset(heap) + multiset{e}
  {
    heap + [e]
  }

  /** `top()`; among entries with equal expiry this picks the one pushed
      first (the standard fixes no tie-break; nothing here relies on it). */
  function Top(heap: seq<TimerEntry>): (r: TimerEntry)
    requires |heap| > 0
    ensures IsTop(r, heap)
    decreases |heap|
  {
    if |heap| == 1 then heap[0]
    else
      assert heap == [heap[0]] + heap[1..];
      var t := Top(heap[1..]);
      if Less(heap[0], t) then t else heap[0]
  }

  /** Removes one occurrence of `e`. */
  function RemoveOne(heap: seq<TimerEntry>, e: TimerEntry): (r: seq<TimerEntry>)
    requires e in heap
    ensures multiset(r) == multiset(heap) - multiset{e}
    ensures |r| == |heap| - 1
    decreases |heap|
  {
    assert heap == [heap[0]] + heap[1..];
    if heap[0] == e then heap[1..]
    else
      [heap[0]] + RemoveOne(heap[1..], e)
  }

  /** `pop()`: removes the top entry and nothing else. */
  function Pop(heap: seq<TimerEntry>): (r: seq<TimerEntry>)
    requires |heap| > 0
    ensures multiset(r) == multiset(heap) - multiset{Top(heap)}
    ensures |r| == |heap| - 1
  {
    RemoveOne(heap, Top(heap))
  }

  predicate SortedByExpiry(s: seq<TimerEntry>)
  {
    forall i, j :: 0 <= i < j < |s| ==> s[i].expireTime <= s[j].expireTime
  }

  /** The entries in the order repeated `top()`/`pop()` yields them. */
  function PopAll(heap: seq<TimerEntry>): seq<TimerEntry>
    decreases |heap|
  {
    if |heap| == 0 then [] else [Top(heap)] + PopAll(Pop(heap))
  }

  lemma SortedCons(t: TimerEntry, rest: seq<TimerEntry>)
    requires SortedByExpiry(rest)
    requires forall x :: x in rest ==> t.expireTime <= x.expireTime
    ensures SortedByExpiry([t] + rest)
  {
    var s := [t] + rest;
    forall i, j | 0 <= i < j < |s|
      ensures s[i].expireTime <= s[j].expireTime
    {
      assert s[j] == rest[j - 1];
      if i > 0 {
        assert s[i] == rest[i - 1];
      }
    }
  }

  /** Popping the heap empty yields every entry exactly once, earliest
      expiry first. */
  lemma {:induction false} PopAllSortedPermutation(heap: seq<TimerEntry>)
    ensures multiset(PopAll(heap)) == multiset(heap)
    ensures SortedByExpiry(PopAll(heap))
    decreases |heap|
  {
    if |heap| > 0 {
      var t := Top(heap);
      var p := Pop(heap);
      var rest := PopAll(p);
      assert PopAll(heap) == [t] + rest;
      PopAllSortedPermutation(p);
      assert t in multiset(heap);
      assert multiset(PopAll(heap)) == multiset{t} + multiset(p);
      forall x | x in rest
        ensures t.expireTime <= x.expireTime
      {
        assert x in multiset(p);
        assert x in heap;
      }
      SortedCons(t, rest);
    }
  }
}

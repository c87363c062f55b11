/**
  The word cache of the dictionary helper: a map that remembers insertion order, kept in recency
  order by deleting and re-inserting.  Its specification is the full list of touches.
 */
module DictionaryCache {
  import opened Options
  import opened Texts

  datatype Slot<+V> = Slot(word: string, entry: V)

  // ---------------------------------------------------------------- recency

  function Remove(words: seq<string>, w: string): seq<string> {
    if words == [] then [] else
      Remove(words[..|words| - 1], w) + if words[|words| - 1] == w then [] else [words[|words| - 1]]
  }

  /** The touched words, each once, in the order of their last touch. */
  function Recent(touches: seq<string>): seq<string> {
    if touches == [] then [] else
      Remove(Recent(touches[..|touches| - 1]), touches[|touches| - 1]) + [touches[|touches| - 1]]
  }

  function LastK(words: seq<string>, k: nat): seq<string> {
    if |words| <= k then words else words[|words| - k..]
  }

  function MostRecent(touches: seq<string>, k: nat): seq<string> {
    LastK(Recent(touches), k)
  }

  /** The position of the last touch of a word. */
  function LastTouch(touches: seq<string>, w: string): (i: int)
    ensures -1 <= i < |touches|
    ensures i == -1 <==> w !in touches
    ensures i >= 0 ==> touches[i] == w && w !in touches[i + 1..]
  {
    if touches == [] then -1
    else if touches[|touches| - 1] == w then |touches| - 1
    else
      var before := touches[..|touches| - 1];
      var i := LastTouch(before, w);
      assert touches == before + [touches[|touches| - 1]];
      assert i >= 0 ==> touches[i + 1..] == before[i + 1..] + [touches[|touches| - 1]];
      i
  }

  lemma {:induction false} RemoveMembers(words: seq<string>, w: string)
    ensures forall x :: x in Remove(words, w) <==> x in words && x != w
  {
    if words == [] {
    } else {
      RemoveMembers(words[..|words| - 1], w);
      assert words == words[..|words| - 1] + [words[|words| - 1]];
    }
  }

  lemma {:induction false} RemoveAbsent(words: seq<string>, w: string)
    requires w !in words
    ensures Remove(words, w) == words
  {
    if words == [] {
    } else {
      assert words == words[..|words| - 1] + [words[|words| - 1]];
      RemoveAbsent(words[..|words| - 1], w);
    }
  }

  lemma {:induction false} RemoveDistinct(words: seq<string>, w: string)
    requires Distinct(words)
    ensures Distinct(Remove(words, w))
    ensures w in words ==> |Remove(words, w)| == |words| - 1
  {
    if words == [] {
    } else {
      var before, last := words[..|words| - 1], words[|words| - 1];
      RemoveDistinct(before, w);
      RemoveMembers(before, w);
      assert words == before + [last];
      assert last !in before;
      DistinctAppend(Remove(before, w), last);
      if w == last {
        RemoveAbsent(before, w);
      }
    }
  }

  lemma RemoveKeeps(words: seq<string>, w: string)
    ensures forall x :: x in Remove(words, w) <==> x in words && x != w
    ensures w !in words ==> Remove(words, w) == words
    ensures Distinct(words) ==> Distinct(Remove(words, w))
    ensures Distinct(words) && w in words ==> |Remove(words, w)| == |words| - 1
  {
    RemoveMembers(words, w);
    if w !in words {
      RemoveAbsent(words, w);
    }
    if Distinct(words) {
      RemoveDistinct(words, w);
    }
  }

  lemma DistinctAppend(words: seq<string>, w: string)
    requires Distinct(words) && w !in words
    ensures Distinct(words + [w])
  {
  }

  lemma {:induction false} RemoveConcat(a: seq<string>, b: seq<string>, w: string)
    ensures Remove(a + b, w) == Remove(a, w) + Remove(b, w)
    decreases |b|
  {
    if b == [] {
      assert a + b == a;
    } else {
      assert (a + b)[..|a + b| - 1] == a + b[..|b| - 1];
      RemoveConcat(a, b[..|b| - 1], w);
    }
  }

  lemma RecentStep(before: seq<string>, w: string)
    requires Distinct(Recent(before)) && forall x :: x in Recent(before) <==> x in before
    ensures var recent := Recent(before + [w]);
            Distinct(recent) && forall x :: x in recent <==> x in before || x == w
  {
    assert (before + [w])[..|before|] == before;
    RemoveKeeps(Recent(before), w);
    DistinctAppend(Remove(Recent(before), w), w);
  }

  lemma {:induction false} RecentIsDistinct(touches: seq<string>)
    ensures Distinct(Recent(touches)) && forall w :: w in Recent(touches) <==> w in touches
  {
    if touches == [] {
    } else {
      var before, w := touches[..|touches| - 1], touches[|touches| - 1];
      RecentIsDistinct(before);
      RecentStep(before, w);
      assert touches == before + [w];
    }
  }

  ghost predicate ByLastTouch(words: seq<string>, touches: seq<string>) {
    forall i, j | 0 <= i < j < |words| :: LastTouch(touches, words[i]) < LastTouch(touches, words[j])
  }

  lemma ByLastTouchAppend(words: seq<string>, touches: seq<string>, last: string)
    requires ByLastTouch(words, touches)
    requires forall x | x in words :: LastTouch(touches, x) < LastTouch(touches, last)
    ensures ByLastTouch(words + [last], touches)
  {
  }

  lemma {:induction false} RemoveKeepsOrder(words: seq<string>, touches: seq<string>, w: string)
    requires ByLastTouch(words, touches)
    ensures ByLastTouch(Remove(words, w), touches)
  {
    if words == [] {
    } else {
      var before, last := words[..|words| - 1], words[|words| - 1];
      RemoveKeepsOrder(before, touches, w);
      RemoveMembers(before, w);
      ByLastTouchAppend(Remove(before, w), touches, last);
    }
  }

  /** `Recent` really is recency order: oldest last touch first. */
  lemma {:induction false} RecentIsByLastTouch(touches: seq<string>)
    ensures ByLastTouch(Recent(touches), touches)
  {
    if touches == [] {
    } else {
      var before, w := touches[..|touches| - 1], touches[|touches| - 1];
      var others := Remove(Recent(before), w);
      RecentIsByLastTouch(before);
      RecentIsDistinct(before);
      RemoveKeeps(Recent(before), w);
      RemoveKeepsOrder(Recent(before), before, w);
      forall i | 0 <= i < |others| ensures LastTouch(touches, others[i]) == LastTouch(before, others[i]) {
        assert others[i] in others;
      }
    }
  }

  /** Appending a word and dropping its old place, seen through the window of the last `k`. */
  function Moved(held: seq<string>, w: string, k: nat): seq<string> {
    if w in held then Remove(held, w) + [w]
    else if |held| < k then held + [w]
    else (held + [w])[1..]
  }

  lemma DistinctParts(a: seq<string>, b: seq<string>)
    requires Distinct(a + b)
    ensures Distinct(a) && Distinct(b) && forall x | x in b :: x !in a
  {
    var all := a + b;
    forall i, j | 0 <= i < j < |b| ensures b[i] != b[j] {
      assert all[|a| + i] != all[|a| + j];
    }
    forall i, j | 0 <= i < |a| && 0 <= j < |b| ensures a[i] != b[j] {
      assert all[i] != all[|a| + j];
    }
    forall i, j | 0 <= i < j < |a| ensures a[i] != a[j] {
      assert all[i] != all[j];
    }
  }

  lemma LastKOfConcat(a: seq<string>, b: seq<string>, k: nat)
    requires |b| == k || (|b| < k && a == [])
    ensures LastK(a + b, k) == b
  {
  }

  lemma AppendInside(a: seq<string>, b: seq<string>, w: string, k: nat)
    requires |b| + 1 == k || (|b| < k && a == [])
    ensures LastK(a + b + [w], k) == b + [w]
  {
    assert a + b + [w] == a + (b + [w]);
    LastKOfConcat(a, b + [w], k);
  }

  lemma AppendPushes(a: seq<string>, b: seq<string>, w: string)
    ensures LastK(a + b + [w], |b|) == (b + [w])[1..]
  {
    var longer := b + [w];
    assert a + b + [w] == (a + [longer[0]]) + longer[1..];
    LastKOfConcat(a + [longer[0]], longer[1..], |b|);
  }

  lemma WindowMoves(older: seq<string>, held: seq<string>, w: string, k: nat)
    requires Distinct(held) && forall x | x in held :: x !in older
    requires |held| == k || (|held| < k && older == [])
    ensures LastK(Remove(older, w) + Remove(held, w) + [w], k) == Moved(held, w, k)
  {
    RemoveKeeps(held, w);
    if w in held {
      RemoveKeeps(older, w);
      AppendInside(older, Remove(held, w), w, k);
    } else if |held| < k {
      AppendInside([], held, w, k);
    } else {
      AppendPushes(Remove(older, w), held, w);
    }
  }

  /** How one touch moves the `k` most recent words. */
  lemma TouchMovesWindow(touches: seq<string>, w: string, k: nat)
    ensures MostRecent(touches + [w], k) == Moved(MostRecent(touches, k), w, k)
  {
    var all, held := Recent(touches), MostRecent(touches, k);
    var older := all[..|all| - |held|];
    assert (touches + [w])[..|touches|] == touches;
    RecentIsDistinct(touches);
    assert all == older + held;
    RemoveConcat(older, held, w);
    DistinctParts(older, held);
    WindowMoves(older, held, w, k);
  }

  // ---------------------------------------------------------------- the cache

  function WordsOf<V>(cache: seq<Slot<V>>): (words: seq<string>)
    ensures |words| == |cache|
  {
    seq(|cache|, i requires 0 <= i < |cache| => cache[i].word)
  }

  /** `map.get`: the slot under a key. */
  function Find<V>(cache: seq<Slot<V>>, word: string): (slot: Option<Slot<V>>)
    ensures slot == None <==> word !in WordsOf(cache)
    ensures slot.Some? ==> slot.value in cache && slot.value.word == word
  {
    if cache == [] then None
    else if cache[0].word == word then
      assert WordsOf(cache)[0] == word;
      Some(cache[0])
    else
      assert WordsOf(cache) == [cache[0].word] + WordsOf(cache[1..]);
      Find(cache[1..], word)
  }

  /** `map.delete`: the other slots, in order. */
  function Drop<V>(cache: seq<Slot<V>>, word: string): seq<Slot<V>> {
    if cache == [] then [] else
      Drop(cache[..|cache| - 1], word) +
      if cache[|cache| - 1].word == word then [] else [cache[|cache| - 1]]
  }

  lemma {:induction false} DropRemoves<V>(cache: seq<Slot<V>>, word: string)
    ensures WordsOf(Drop(cache, word)) == Remove(WordsOf(cache), word)
    ensures forall s | s in Drop(cache, word) :: s in cache
  {
    if cache == [] {
    } else {
      DropRemoves(cache[..|cache| - 1], word);
      assert WordsOf(cache)[..|cache| - 1] == WordsOf(cache[..|cache| - 1]);
    }
  }

  lemma KeptSlotsHaveOtherWords<V>(cache: seq<Slot<V>>, word: string)
    ensures forall s | s in Drop(cache, word) :: s in cache && s.word != word
  {
    var kept := Drop(cache, word);
    DropRemoves(cache, word);
    RemoveKeeps(WordsOf(cache), word);
    forall i | 0 <= i < |kept| ensures kept[i].word != word {
      assert WordsOf(kept)[i] in WordsOf(kept);
    }
  }

  /** The slots after storing: the new slot last, the oldest gone if there is one too many. */
  function Stored<V>(cache: seq<Slot<V>>, slot: Slot<V>, k: nat): seq<Slot<V>> {
    var longer := Drop(cache, slot.word) + [slot];
    if |longer| > k then longer[1..] else longer
  }

  lemma StoringMovesWindow<V>(cache: seq<Slot<V>>, slot: Slot<V>, k: nat)
    requires Distinct(WordsOf(cache)) && |cache| <= k
    ensures WordsOf(Stored(cache, slot, k)) == Moved(WordsOf(cache), slot.word, k)
  {
    DropRemoves(cache, slot.word);
    RemoveKeeps(WordsOf(cache), slot.word);
    var longer := Drop(cache, slot.word) + [slot];
    WordsOfAppend(Drop(cache, slot.word), slot);
    WordsOfRest(longer);
  }

  lemma WordsOfAppend<V>(cache: seq<Slot<V>>, slot: Slot<V>)
    ensures WordsOf(cache + [slot]) == WordsOf(cache) + [slot.word]
  {
  }

  lemma WordsOfRest<V>(cache: seq<Slot<V>>)
    requires cache != []
    ensures WordsOf(cache[1..]) == WordsOf(cache)[1..]
  {
  }

  lemma WindowIsDistinct(touches: seq<string>, k: nat)
    ensures Distinct(MostRecent(touches, k)) && |MostRecent(touches, k)| <= k
  {
    RecentIsDistinct(touches);
    var all, held := Recent(touches), MostRecent(touches, k);
    assert forall i | 0 <= i < |held| :: held[i] == all[|all| - |held| + i];
  }

  class DictionaryHelper<V(==)> {
    const maxCacheSize: nat
    var cache: seq<Slot<V>>
    /** Every store, and every lookup that hit, in order of time. */
    ghost var touches: seq<string>
    /** The last value stored for each word. */
    ghost var stored: map<string, V>

    /** The cache holds the most recently touched words, in order, with their last stored values. */
    ghost predicate Valid()
      reads this
    {
      && WordsOf(cache) == MostRecent(touches, maxCacheSize)
      && forall s | s in cache :: s.word in stored && stored[s.word] == s.entry
    }

    constructor (maxCacheSize: nat)
      ensures this.maxCacheSize == maxCacheSize && Valid() && touches == [] && stored == map[]
    {
      this.maxCacheSize := maxCacheSize;
      cache, touches, stored := [], [], map[];
    }

    method GetCached(word: string) returns (entry: Option<V>)
      requires Valid()
      modifies this
      ensures Valid() && stored == old(stored)
      ensures if word in MostRecent(old(touches), maxCacheSize)
              then word in stored && entry == Some(stored[word]) && touches == old(touches) + [word]
              else entry == None && touches == old(touches)
    {
      var slot := Find(cache, word);
      if slot == None {
        return None;
      }
      TouchMovesWindow(touches, word, maxCacheSize);
      DropRemoves(cache, word);
      ghost var kept := Drop(cache, word);
      cache := Drop(cache, word) + [slot.value];
      touches := touches + [word];
      assert WordsOf(cache) == WordsOf(kept) + [word];
      entry := Some(slot.value.entry);
    }

    method SetCached(word: string, entry: V)
      requires Valid()
      modifies this
      ensures Valid()
      ensures touches == old(touches) + [word] && stored == old(stored)[word := entry]
    {
      TouchMovesWindow(touches, word, maxCacheSize);
      WindowIsDistinct(touches, maxCacheSize);
      StoringMovesWindow(cache, Slot(word, entry), maxCacheSize);
      KeptSlotsHaveOtherWords(cache, word);
      ghost var after := Stored(cache, Slot(word, entry), maxCacheSize);
      cache := Drop(cache, word);
      cache := cache + [Slot(word, entry)];
      if |cache| > maxCacheSize {
        cache := cache[1..];
      }
      assert cache == after;
      touches := touches + [word];
      stored := stored[word := entry];
    }

    method GetCacheSize() returns (size: nat)
      requires Valid()
      ensures size == |MostRecent(touches, maxCacheSize)| <= maxCacheSize
    {
      size := |cache|;
    }

    method IsCached(word: string) returns (cached: bool)
      requires Valid()
      ensures cached <==> word in MostRecent(touches, maxCacheSize)
    {
      cached := Find(cache, word) != None;
    }
  }
}

/**
 * The cache of parsed messages (apps/mobile/src/components/MessageBubble.tsx): a table in
 * insertion order, where a hit moves to the end and the first key is evicted when it is full.
 */
module ParseCache {
  import opened Common
  import opened OrderedMaps
  import BlockParser

  const FORMATTED_MESSAGE_CACHE_LIMIT: nat := 300

  type Cache = OrderedMap<string, seq<BlockParser.Block>>

  /** Store a value; if there are then too many, drop the oldest key, unless it is the empty string. */
  function Remembered<V>(cache: OrderedMap<string, V>, limit: nat, key: string, value: V): OrderedMap<string, V> {
    var cache1 := cache.Set(key, value);
    if |cache1.entries| > limit && cache1.order != [] && cache1.order[0] != "" then cache1.Delete(cache1.order[0])
    else cache1
  }

  function LookedUp(cache: Cache, text: string): Cache {
    if text in cache.entries then cache.Delete(text).Set(text, cache.entries[text])
    else Remembered(cache, FORMATTED_MESSAGE_CACHE_LIMIT, text, BlockParser.ParseMessage(text))
  }

  /** Every cached value is what parsing its key gives. */
  ghost predicate Faithful(cache: Cache) {
    cache.Valid() && forall text :: text in cache.entries ==> cache.entries[text] == BlockParser.ParseMessage(text)
  }

  class FormattedMessageCache {
    var cache: Cache

    constructor ()
      ensures cache == Empty() && Faithful(cache)
    {
      cache := Empty();
    }

    method RememberCachedValue(limit: nat, key: string, value: seq<BlockParser.Block>)
      modifies this
      ensures cache == Remembered(old(cache), limit, key, value)
    {
      cache := cache.Set(key, value);
      if |cache.entries| > limit {
        if cache.order != [] && cache.order[0] != "" {
          cache := cache.Delete(cache.order[0]);
        }
      }
    }

    method GetFormattedMessageBlocks(text: string) returns (blocks: seq<BlockParser.Block>)
      requires Faithful(cache)
      modifies this
      ensures blocks == BlockParser.ParseMessage(text)
      ensures cache == LookedUp(old(cache), text) && Faithful(cache)
    {
      LookedUpFaithful(cache, text);
      if text in cache.entries {
        blocks := cache.entries[text];
        cache := cache.Delete(text);
        cache := cache.Set(text, blocks);
      } else {
        blocks := BlockParser.ParseFormattedMessage(text);
        RememberCachedValue(FORMATTED_MESSAGE_CACHE_LIMIT, text, blocks);
      }
    }
  }

  lemma HitFaithful(cache: Cache, text: string)
    requires Faithful(cache) && text in cache.entries
    ensures Faithful(cache.Delete(text).Set(text, cache.entries[text]))
  {
    hide BlockParser.ParseMessage;
    DeleteValid(cache, text);
    SetValid(cache.Delete(text), text, cache.entries[text]);
  }

  lemma MissFaithful(cache: Cache, text: string)
    requires Faithful(cache)
    ensures Faithful(Remembered(cache, FORMATTED_MESSAGE_CACHE_LIMIT, text, BlockParser.ParseMessage(text)))
  {
    hide BlockParser.ParseMessage;
    var cache1 := cache.Set(text, BlockParser.ParseMessage(text));
    SetValid(cache, text, BlockParser.ParseMessage(text));
    if cache1.order != [] {
      DeleteValid(cache1, cache1.order[0]);
    }
    hide NoRepeats;
    hide Without;
  }

  lemma LookedUpFaithful(cache: Cache, text: string)
    requires Faithful(cache)
    ensures Faithful(LookedUp(cache, text))
  {
    if text in cache.entries {
      HitFaithful(cache, text);
    } else {
      MissFaithful(cache, text);
    }
    hide BlockParser.ParseMessage;
    hide Faithful;
    hide Remembered;
  }

  // ---- the most recently used texts ----

  /** The distinct texts, by last use, the latest at the end. */
  function ByLastUse(texts: seq<string>): seq<string> {
    if texts == [] then []
    else Without(ByLastUse(texts[..|texts| - 1]), texts[|texts| - 1]) + [texts[|texts| - 1]]
  }

  /** The cache after these lookups, starting empty. */
  function AfterLookups(texts: seq<string>): Cache {
    if texts == [] then Empty() else LookedUp(AfterLookups(texts[..|texts| - 1]), texts[|texts| - 1])
  }

  /** The position of the last use. */
  function LastUse(texts: seq<string>, x: string): (r: nat)
    requires x in texts
    ensures r < |texts| && texts[r] == x && x !in texts[r + 1..]
  {
    if texts[|texts| - 1] == x then |texts| - 1
    else
      assert texts == texts[..|texts| - 1] + [texts[|texts| - 1]];
      var r := LastUse(texts[..|texts| - 1], x);
      assert texts[r + 1..] == texts[..|texts| - 1][r + 1..] + [texts[|texts| - 1]];
      r
  }

  /** The list has each text once, in the order of their last uses. */
  lemma {:induction false} ByLastUseMeaning(texts: seq<string>)
    ensures NoRepeats(ByLastUse(texts))
    ensures forall x :: x in ByLastUse(texts) <==> x in texts
    ensures forall i, j :: 0 <= i < j < |ByLastUse(texts)| ==>
              LastUse(texts, ByLastUse(texts)[i]) < LastUse(texts, ByLastUse(texts)[j])
  {
    if texts != [] {
      var front, last := texts[..|texts| - 1], texts[|texts| - 1];
      ByLastUseMeaning(front);
      assert texts == front + [last];
      var r, r' := ByLastUse(front), ByLastUse(texts);
      WithoutNoRepeats(r, last);
      forall i, j | 0 <= i < j < |r'| ensures LastUse(texts, r'[i]) < LastUse(texts, r'[j]) {
        assert r'[i] in r';
        assert r'[i] == Without(r, last)[i];
        if j < |r'| - 1 {
          WithoutKeepsOrder(r, last, i, j);
        }
      }
    }
  }

  /** Two elements left stand in the order they had. */
  lemma {:induction false} WithoutKeepsOrder(s: seq<string>, x: string, i: nat, j: nat)
    requires i < j < |Without(s, x)|
    ensures exists a, b :: 0 <= a < b < |s| && s[a] == Without(s, x)[i] && s[b] == Without(s, x)[j]
  {
    if s[0] == x {
      WithoutKeepsOrder(s[1..], x, i, j);
      var a, b :| 0 <= a < b < |s[1..]| && s[1..][a] == Without(s, x)[i] && s[1..][b] == Without(s, x)[j];
      assert s[a + 1] == Without(s, x)[i] && s[b + 1] == Without(s, x)[j];
    } else if i == 0 {
      var y := Without(s, x)[j];
      assert y == Without(s[1..], x)[j - 1] && y in s[1..];
      var b :| 0 <= b < |s[1..]| && s[1..][b] == y;
      assert s[0] == Without(s, x)[0] && s[b + 1] == y;
    } else {
      WithoutKeepsOrder(s[1..], x, i - 1, j - 1);
      var a, b :| 0 <= a < b < |s[1..]| && s[1..][a] == Without(s, x)[i] && s[1..][b] == Without(s, x)[j];
      assert s[a + 1] == Without(s, x)[i] && s[b + 1] == Without(s, x)[j];
    }
  }

  lemma ConsAppend(y: string, a: seq<string>, b: seq<string>)
    ensures [y] + (a + b) == [y] + a + b
  {
  }

  lemma WithoutAppendStep(y: string, a: seq<string>, b: seq<string>, x: string)
    requires Without(a + b, x) == Without(a, x) + Without(b, x)
    ensures Without([y] + (a + b), x) == Without([y] + a, x) + Without(b, x)
  {
    hide *;
    WithoutHead(y, a + b, x);
    WithoutHead(y, a, x);
    ConsAppend(y, Without(a, x), Without(b, x));
  }

  lemma {:induction false} WithoutAppend(a: seq<string>, b: seq<string>, x: string)
    ensures Without(a + b, x) == Without(a, x) + Without(b, x)
  {
    if a == [] {
      assert a + b == b;
    } else {
      WithoutAppend(a[1..], b, x);
      WithoutAppendStep(a[0], a[1..], b, x);
      hide *;
      assert a == [a[0]] + a[1..];
      assert a + b == [a[0]] + (a[1..] + b);
    }
  }

  /** What a lookup does to the keys of the cache. */
  function KeysAfter(order: seq<string>, text: string): seq<string> {
    if text in order then Without(order, text) + [text]
    else Last(FORMATTED_MESSAGE_CACHE_LIMIT, order + [text])
  }

  lemma EvictOldest<V>(cache: OrderedMap<string, V>, limit: nat)
    requires cache.Valid() && cache.order != [] && |cache.order| <= limit + 1
    ensures (if |cache.entries| > limit then cache.Delete(cache.order[0]) else cache).order == Last(limit, cache.order)
  {
    SizeIsOrderLength(cache);
    DropFirst(cache.order);
    hide Without;
    hide NoRepeats;
  }

  lemma RememberedKeys<V>(cache: OrderedMap<string, V>, limit: nat, key: string, value: V)
    requires cache.Valid() && key !in cache.entries
    requires key != "" && "" !in cache.order && |cache.order| <= limit
    ensures Remembered(cache, limit, key, value).order == Last(limit, cache.order + [key])
  {
    var cache1 := cache.Set(key, value);
    SetValid(cache, key, value);
    EvictOldest(cache1, limit);
    assert cache1.order[0] in cache1.order;
    hide Last;
    hide Without;
  }

  lemma LookupKeys(cache: Cache, text: string)
    requires cache.Valid() && text != "" && "" !in cache.order && |cache.order| <= FORMATTED_MESSAGE_CACHE_LIMIT
    ensures LookedUp(cache, text).order == KeysAfter(cache.order, text)
  {
    if text !in cache.entries {
      hide Remembered;
      hide Last;
      RememberedKeys(cache, FORMATTED_MESSAGE_CACHE_LIMIT, text, BlockParser.ParseMessage(text));
    }
  }

  /** Of a list of distinct texts, moving one to the end and then cutting is cutting and then looking up. */
  lemma CutThenLookup(all: seq<string>, text: string)
    requires NoRepeats(all)
    ensures KeysAfter(Last(FORMATTED_MESSAGE_CACHE_LIMIT, all), text)
         == Last(FORMATTED_MESSAGE_CACHE_LIMIT, Without(all, text) + [text])
  {
    var kept := Last(FORMATTED_MESSAGE_CACHE_LIMIT, all);
    var cut := all[..|all| - |kept|];
    assert all == cut + kept;
    CutIsFull(all);
    WithoutAppend(cut, kept, text);
    hide Without;
    hide Last;
    if text in kept {
      MovedWithin(cut, kept, text);
    } else {
      WithoutAbsent(kept, text);
      assert cut == [] ==> Without(cut, text) == [];
      LastOfKept(Without(cut, text), kept, text);
    }
  }

  lemma MovedWithin(cut: seq<string>, kept: seq<string>, text: string)
    requires NoRepeats(cut + kept) && text in kept
    requires |kept| == FORMATTED_MESSAGE_CACHE_LIMIT || (cut == [] && |kept| <= FORMATTED_MESSAGE_CACHE_LIMIT)
    requires Without(cut + kept, text) == Without(cut, text) + Without(kept, text)
    ensures Last(FORMATTED_MESSAGE_CACHE_LIMIT, Without(cut + kept, text) + [text]) == Without(kept, text) + [text]
  {
    NoRepeatsParts(cut, kept, text);
    hide Without;
    hide NoRepeats;
    hide Last;
    WithoutAbsent(cut, text);
    WithoutNoRepeats(kept, text);
    var moved := Without(kept, text) + [text];
    assert cut + Without(kept, text) + [text] == cut + moved;
    LastOfAppend(cut, moved);
  }

  lemma NoRepeatsParts(cut: seq<string>, kept: seq<string>, text: string)
    requires NoRepeats(cut + kept) && text in kept
    ensures NoRepeats(kept) && text !in cut
  {
    var all := cut + kept;
    forall i | 0 <= i < |kept| ensures kept[i] == all[|cut| + i] {
    }
    var k :| 0 <= k < |kept| && kept[k] == text;
    forall i | 0 <= i < |cut| ensures cut[i] != text {
      assert all[i] == cut[i] && all[|cut| + k] == text;
    }
  }

  lemma CutIsFull(all: seq<string>)
    ensures var kept := Last(FORMATTED_MESSAGE_CACHE_LIMIT, all);
      |kept| <= FORMATTED_MESSAGE_CACHE_LIMIT && (|kept| == FORMATTED_MESSAGE_CACHE_LIMIT || kept == all)
  {
  }

  lemma LastOfAppend(cut: seq<string>, kept: seq<string>)
    requires |kept| == FORMATTED_MESSAGE_CACHE_LIMIT || (cut == [] && |kept| <= FORMATTED_MESSAGE_CACHE_LIMIT)
    ensures Last(FORMATTED_MESSAGE_CACHE_LIMIT, cut + kept) == kept
  {
  }

  lemma LastOfKept(cut: seq<string>, kept: seq<string>, text: string)
    requires |kept| == FORMATTED_MESSAGE_CACHE_LIMIT || (cut == [] && |kept| <= FORMATTED_MESSAGE_CACHE_LIMIT)
    ensures Last(FORMATTED_MESSAGE_CACHE_LIMIT, kept + [text])
         == Last(FORMATTED_MESSAGE_CACHE_LIMIT, cut + kept + [text])
  {
  }

  /**
   * After any lookups of texts that are not empty, the cached keys in order are the up to 300
   * most recently used texts, and every cached value is what parsing gives.
   */
  lemma {:induction false} CacheIsMostRecent(texts: seq<string>)
    requires "" !in texts
    ensures Faithful(AfterLookups(texts))
    ensures AfterLookups(texts).order == Last(FORMATTED_MESSAGE_CACHE_LIMIT, ByLastUse(texts))
  {
    if texts != [] {
      var front, last := texts[..|texts| - 1], texts[|texts| - 1];
      CacheIsMostRecent(front);
      var cache := AfterLookups(front);
      LookedUpFaithful(cache, last);
      ByLastUseMeaning(front);
      assert last in texts;
      hide LookedUp;
      hide Faithful;
      LookupKeys(cache, last);
      CutThenLookup(ByLastUse(front), last);
    }
  }

  /** A lookup leaves at most 300 keys unless the cache is full, the text new and the oldest key empty. */
  lemma LookupIsBounded(cache: Cache, text: string)
    requires cache.Valid() && |cache.order| <= FORMATTED_MESSAGE_CACHE_LIMIT
    ensures |LookedUp(cache, text).order| <= FORMATTED_MESSAGE_CACHE_LIMIT <==>
      (text in cache.order || |cache.order| < FORMATTED_MESSAGE_CACHE_LIMIT || cache.order[0] != "")
  {
    if text in cache.entries {
      WithoutNoRepeats(cache.order, text);
    } else {
      var value := BlockParser.ParseMessage(text);
      SetValid(cache, text, value);
      SizeIsOrderLength(cache.Set(text, value));
      var order1 := cache.order + [text];
      WithoutNoRepeats(order1, order1[0]);
    }
  }

  /** Once the empty text was looked up first, nothing is evicted any more. */
  lemma {:induction false} EmptyTextStopsEviction(texts: seq<string>)
    requires NoRepeats(texts) && "" !in texts
    ensures AfterLookups([""] + texts).Valid()
    ensures AfterLookups([""] + texts).order == [""] + texts
  {
    hide LookedUp;
    if texts == [] {
      OnlyEmptyText();
      assert [""] + texts == [""];
    } else {
      var front, last := texts[..|texts| - 1], texts[|texts| - 1];
      EmptyTextStopsEviction(front);
      LastLookup([""] + front, last);
      NewKeyAfterEmpty(AfterLookups([""] + front), last);
      hide AfterLookups;
      assert [""] + texts == [""] + front + [last];
    }
  }

  lemma LastLookup(texts: seq<string>, text: string)
    ensures AfterLookups(texts + [text]) == LookedUp(AfterLookups(texts), text)
  {
    assert (texts + [text])[..|texts|] == texts;
    hide LookedUp;
  }

  lemma OnlyEmptyText()
    ensures AfterLookups([""]).order == [""] && AfterLookups([""]).Valid()
  {
    assert [""][..0] == [];
  }

  lemma NewKeyAfterEmpty(cache: Cache, text: string)
    requires cache.Valid() && cache.order != [] && cache.order[0] == "" && text !in cache.order
    ensures LookedUp(cache, text).Valid() && LookedUp(cache, text).order == cache.order + [text]
  {
    SetValid(cache, text, BlockParser.ParseMessage(text));
  }

  /** "a", "aa" and so on. */
  function Lengthening(n: nat): (r: seq<string>)
    ensures |r| == n
    ensures forall i :: 0 <= i < n ==> |r[i]| == i + 1
  {
    if n == 0 then [] else Lengthening(n - 1) + [seq(n, _ => 'a')]
  }

  /** The empty text and then 300 others: 301 keys. */
  lemma GrowsPastLimit()
    ensures var texts := Lengthening(FORMATTED_MESSAGE_CACHE_LIMIT);
      |AfterLookups([""] + texts).order| == FORMATTED_MESSAGE_CACHE_LIMIT + 1
  {
    var texts := Lengthening(FORMATTED_MESSAGE_CACHE_LIMIT);
    forall i, j | 0 <= i < j < |texts| ensures texts[i] != texts[j] {
      assert |texts[i]| == i + 1 && |texts[j]| == j + 1;
    }
    EmptyTextStopsEviction(texts);
  }
}

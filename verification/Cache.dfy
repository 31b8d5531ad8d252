/** The price cache, which must be indistinguishable from the provider behind it. */
module Cache {
  import opened Templates
  import opened Diff

  datatype PriceKey = PriceKey(service: string, dimension: string, region: string, attributes: map<string, string>)

  datatype Index = Index(service: string, dimension: string, region: string, attributes: seq<(string, string)>)

  ghost function Pairs(names: seq<string>, attributes: map<string, string>): seq<(string, string)>
    requires forall n :: n in names ==> n in attributes
  {
    seq(|names|, i requires 0 <= i < |names| => (names[i], attributes[names[i]]))
  }

  /** The hashable form of a key: its attributes in order of name. */
  ghost function CanonicalIndex(key: PriceKey): Index {
    ArrangedMembers(key.attributes.Keys);
    Index(key.service, key.dimension, key.region, Pairs(Arranged(key.attributes.Keys), key.attributes))
  }

  method ComputeIndex(key: PriceKey) returns (index: Index)
    ensures index == CanonicalIndex(key)
  {
    hide Arranged;
    var names := SortedPaths(key.attributes.Keys);
    ArrangedMembers(key.attributes.Keys);
    var pairs: seq<(string, string)> := [];
    for i := 0 to |names|
      invariant |pairs| == i && forall j :: 0 <= j < i ==> names[j] in key.attributes && pairs[j] == (names[j], key.attributes[names[j]])
    {
      assert names[i] in key.attributes.Keys;
      pairs := pairs + [(names[i], key.attributes[names[i]])];
    }
    assert pairs == Pairs(names, key.attributes);
    index := Index(key.service, key.dimension, key.region, pairs);
  }

  /** Different keys never share an index. */
  lemma IndexIsInjective(k: PriceKey, l: PriceKey)
    requires CanonicalIndex(k) == CanonicalIndex(l)
    ensures k == l
  {
    hide Arranged;
    ArrangedMembers(k.attributes.Keys);
    ArrangedMembers(l.attributes.Keys);
    var ns, ms := Arranged(k.attributes.Keys), Arranged(l.attributes.Keys);
    var ps, qs := Pairs(ns, k.attributes), Pairs(ms, l.attributes);
    assert |ns| == |ps| == |qs| == |ms|;
    forall i | 0 <= i < |ns| ensures ns[i] == ms[i] && k.attributes[ns[i]] == l.attributes[ns[i]] {
      assert ps[i] == qs[i];
    }
    forall n ensures n in k.attributes <==> n in l.attributes {
      assert n in ns <==> n in k.attributes.Keys;
      assert n in ms <==> n in l.attributes.Keys;
    }
    forall n | n in k.attributes ensures k.attributes[n] == l.attributes[n] {
      assert n in ns;
    }
    assert k.attributes == l.attributes;
  }

  datatype PriceResult = Quote(key: PriceKey, unitPrice: real, unit: string) | NotFound(key: PriceKey, reason: string)

  /** A provider answers, or cannot operate at all. */
  datatype Answer = Priced(result: PriceResult) | Broken

  /** A provider may answer each of its calls differently; calls are numbered. */
  type Provider = (PriceKey, nat) -> Answer

  ghost predicate Pure(provider: Provider) {
    forall k, i, j :: provider(k, i) == provider(k, j)
  }

  datatype CacheEntry = CacheEntry(result: PriceResult, storedAt: int)

  /** What the inner provider once said, on which call, and when that was stored. */
  datatype Stored = Stored(key: PriceKey, call: nat, result: PriceResult, storedAt: int)

  class CachingProvider {
    const inner: Provider
    const clock: nat -> int
    const ttl: int
    /** How often the inner provider has been asked and the clock read. */
    var asked: nat
    var ticks: nat
    var entries: map<Index, CacheEntry>
    var hits: nat
    var misses: nat
    var expirations: nat
    ghost var calls: nat
    ghost var history: set<Stored>

    ghost predicate Remembered(index: Index, e: CacheEntry)
      reads this`history
    {
      exists s :: s in history && CanonicalIndex(s.key) == index && s.result == e.result && s.storedAt == e.storedAt
    }

    /** Nothing is remembered that the inner provider did not say. */
    ghost predicate Faithful()
      reads this`history, this`asked, this`entries
    {
      && (forall s :: s in history ==> s.call < asked && inner(s.key, s.call) == Priced(s.result))
      && (forall index :: index in entries ==> Remembered(index, entries[index]))
    }

    ghost predicate Valid()
      reads this
    {
      && hits + misses == calls
      && misses == asked
      && expirations <= misses
      && Faithful()
    }

    constructor (inner: Provider, clock: nat -> int, ttl: int)
      ensures Valid() && fresh(this)
      ensures this.inner == inner && this.clock == clock && this.ttl == ttl
      ensures hits == misses == expirations == 0 && calls == 0 && asked == 0 && entries == map[]
    {
      this.inner, this.clock, this.ttl := inner, clock, ttl;
      asked, ticks, entries := 0, 0, map[];
      hits, misses, expirations := 0, 0, 0;
      calls, history := 0, {};
    }

    method ReadClock() returns (now: int)
      modifies this`ticks
      ensures now == clock(old(ticks)) && ticks == old(ticks) + 1
    {
      now := clock(ticks);
      ticks := ticks + 1;
    }

    method AskInner(key: PriceKey) returns (answer: Answer)
      modifies this`asked
      ensures answer == inner(key, old(asked)) && asked == old(asked) + 1
    {
      answer := inner(key, asked);
      asked := asked + 1;
    }

    /** An answer given earlier for an equal key and stored less than `ttl` ago. */
    ghost predicate StillGood(s: Stored, key: PriceKey, answer: Answer, now: int) {
      s.key == key && answer == Priced(s.result) && now - s.storedAt < ttl
    }

    /** Ask the inner provider, and remember what it says unless it is broken. */
    method Miss(key: PriceKey, index: Index) returns (answer: Answer)
      requires Faithful() && index == CanonicalIndex(key)
      modifies `misses, `asked, `ticks, `entries, `history
      ensures Faithful() && misses == old(misses) + 1 && asked == old(asked) + 1
      ensures answer == inner(key, old(asked))
      ensures if answer.Priced? then
                ticks == old(ticks) + 1 && entries == old(entries)[index := CacheEntry(answer.result, clock(old(ticks)))]
              else
                ticks == old(ticks) && entries == old(entries)
    {
      hide CanonicalIndex;
      misses := misses + 1;
      ghost var call := asked;
      answer := AskInner(key);
      if answer.Broken? {
        return;
      }
      var now := ReadClock();
      ghost var s := Stored(key, call, answer.result, now);
      history := history + {s};
      entries := entries[index := CacheEntry(answer.result, now)];
      assert s in history && CanonicalIndex(s.key) == index;
    }

    /** Stored less than `ttl` ago. */
    predicate IsFresh(entries: map<Index, CacheEntry>, index: Index, now: int) {
      index in entries && now - entries[index].storedAt < ttl
    }

    /** The remembered answer, if it is still good; one that is not is forgotten. */
    method Recall(key: PriceKey, index: Index) returns (found: Option<PriceResult>)
      requires Faithful() && index == CanonicalIndex(key)
      modifies `hits, `expirations, `ticks, `entries
      ensures Faithful()
      ensures found.Some? <==> IsFresh(old(entries), index, clock(old(ticks)))
      ensures ticks == old(ticks) + if index in old(entries) then 1 else 0
      ensures match found
              case Some(result) =>
                && hits == old(hits) + 1 && expirations == old(expirations) && entries == old(entries)
                && exists s :: s in history && StillGood(s, key, Priced(result), clock(old(ticks)))
              case None =>
                && hits == old(hits) && entries == old(entries) - {index}
                && expirations == old(expirations) + if index in old(entries) then 1 else 0
    {
      hide CanonicalIndex;
      if index !in entries {
        assert entries == entries - {index};
        return None;
      }
      var cached := entries[index];
      var now := ReadClock();
      if now - cached.storedAt < ttl {
        hits := hits + 1;
        ghost var s :| s in history && CanonicalIndex(s.key) == index && s.result == cached.result && s.storedAt == cached.storedAt;
        IndexIsInjective(s.key, key);
        assert StillGood(s, key, Priced(cached.result), now);
        return Some(cached.result);
      }
      expirations := expirations + 1;
      entries := entries - {index};
      found := None;
    }

    /** Every answer is the inner provider's own, or is recent; nothing else is forgotten. */
    method Lookup(key: PriceKey) returns (answer: Answer)
      requires Valid()
      modifies this
      ensures Valid() && calls == old(calls) + 1
      ensures hits > old(hits) <==> IsFresh(old(entries), CanonicalIndex(key), clock(old(ticks)))
      ensures if hits > old(hits) then
                && asked == old(asked) && entries == old(entries)
                && exists s :: s in old(history) && StillGood(s, key, answer, clock(old(ticks)))
              else
                && asked == old(asked) + 1 && answer == inner(key, old(asked))
                && entries - {CanonicalIndex(key)} == old(entries) - {CanonicalIndex(key)}
                && (answer.Priced? <==> CanonicalIndex(key) in entries)
                && (answer.Priced? ==> entries[CanonicalIndex(key)].result == answer.result
                                       && ticks > 0 && entries[CanonicalIndex(key)].storedAt == clock((ticks - 1) as nat))
      ensures Pure(inner) ==> answer == inner(key, 0)
    {
      hide CanonicalIndex, Faithful;
      calls := calls + 1;
      var index := ComputeIndex(key);
      var found := Recall(key, index);
      if found.Some? {
        answer := Priced(found.value);
        GoodIsInner(key, answer, clock(old(ticks)));
      } else {
        answer := Miss(key, index);
      }
    }

    lemma GoodIsInner(key: PriceKey, answer: Answer, now: int)
      requires Faithful() && exists s :: s in history && StillGood(s, key, answer, now)
      ensures Pure(inner) ==> answer == inner(key, 0)
    {
      hide CanonicalIndex;
      var s :| s in history && StillGood(s, key, answer, now);
      if Pure(inner) { assert inner(key, s.call) == inner(key, 0); }
    }

    method Clear()
      requires Valid()
      modifies this
      ensures Valid() && entries == map[]
      ensures hits == old(hits) && misses == old(misses) && calls == old(calls)
    {
      entries := map[];
    }

    /** A whole run: against a pure provider the cache is invisible, and its counters add up. */
    method Serve(keys: seq<PriceKey>) returns (answers: seq<Answer>)
      requires Valid()
      modifies this
      ensures Valid() && |answers| == |keys|
      ensures hits + misses == old(hits) + old(misses) + |keys|
      ensures Pure(inner) ==> forall i :: 0 <= i < |keys| ==> answers[i] == inner(keys[i], 0)
    {
      hide Pure, Faithful, IsFresh, CanonicalIndex, StillGood;
      answers := [];
      for i := 0 to |keys|
        invariant Valid() && |answers| == i
        invariant hits + misses == old(hits) + old(misses) + i
        invariant Pure(inner) ==> forall j :: 0 <= j < i ==> answers[j] == inner(keys[j], 0)
      {
        var answer := Lookup(keys[i]);
        answers := answers + [answer];
      }
    }
  }

  // ----- chains -----

  /** A member of a chain, asked directly or through a cache. */
  datatype Member = Plain(ask: PriceKey -> Answer) | Cached(cache: CachingProvider)

  /** What a member would say without its cache. */
  function Underlying(m: Member): PriceKey -> Answer {
    match m
    case Plain(ask) => ask
    case Cached(cache) => key => cache.inner(key, 0)
  }

  predicate IsMiss(a: Answer) {
    a.Priced? && a.result.NotFound?
  }

  /** The first answer that is not a miss, or else the first miss. */
  function ChainAnswer(members: seq<PriceKey -> Answer>, key: PriceKey, firstMiss: Option<Answer>): Answer {
    if members == [] then
      match firstMiss
      case None => Priced(NotFound(key, "the pricing chain contains no providers"))
      case Some(miss) => miss
    else
      var answer := members[0](key);
      if !IsMiss(answer) then answer
      else ChainAnswer(members[1..], key, if firstMiss.None? then Some(answer) else firstMiss)
  }

  /** Later members only matter while every earlier one misses. */
  lemma {:induction false} ChainTakesFirstQuote(members: seq<PriceKey -> Answer>, key: PriceKey, n: nat)
    requires n < |members| && forall i :: 0 <= i < n ==> IsMiss(members[i](key))
    ensures !IsMiss(members[n](key)) ==> ChainAnswer(members, key, None) == members[n](key)
    ensures n == |members| - 1 && IsMiss(members[n](key)) ==> ChainAnswer(members, key, None) == members[0](key)
  {
    if n == 0 {
      assert members[1..] == [] || |members| > 1;
      assert |members| == 1 ==> members[1..] == [];
    } else {
      ChainFrom(members[1..], key, n - 1, members[0](key));
    }
  }

  lemma {:induction false} ChainFrom(members: seq<PriceKey -> Answer>, key: PriceKey, n: nat, miss: Answer)
    requires n < |members| && forall i :: 0 <= i < n ==> IsMiss(members[i](key))
    ensures !IsMiss(members[n](key)) ==> ChainAnswer(members, key, Some(miss)) == members[n](key)
    ensures n == |members| - 1 && IsMiss(members[n](key)) ==> ChainAnswer(members, key, Some(miss)) == miss
    decreases n
  {
    if n > 0 {
      ChainFrom(members[1..], key, n - 1, miss);
    } else if |members| == 1 {
      assert members[1..] == [];
    }
  }

  /** A provider that quotes a price, or is broken, ends the search; one that finds nothing does
      not, and an empty chain finds nothing. */
  lemma ChainInFields(members: seq<PriceKey -> Answer>, key: PriceKey, n: nat)
    requires forall i :: 0 <= i < |members| && i < n ==> members[i](key).Priced? && members[i](key).result.NotFound?
    ensures n < |members| && (members[n](key).Broken? || members[n](key).result.Quote?) ==> ChainAnswer(members, key, None) == members[n](key)
    ensures n >= |members| > 0 ==> ChainAnswer(members, key, None) == members[0](key)
    ensures members == [] ==> ChainAnswer(members, key, None).Priced? && ChainAnswer(members, key, None).result.NotFound?
                              && ChainAnswer(members, key, None).result.key == key
  {
    hide ChainAnswer;
    if n < |members| {
      ChainTakesFirstQuote(members, key, n);
    } else if members != [] {
      ChainTakesFirstQuote(members, key, |members| - 1);
    } else {
      EmptyChain(members, key);
    }
  }

  lemma EmptyChain(members: seq<PriceKey -> Answer>, key: PriceKey)
    requires members == []
    ensures ChainAnswer(members, key, None) == Priced(NotFound(key, "the pricing chain contains no providers"))
  {
  }

  function AllUnderlying(members: seq<Member>): seq<PriceKey -> Answer> {
    if members == [] then [] else [Underlying(members[0])] + AllUnderlying(members[1..])
  }

  ghost function Caches(members: seq<Member>): set<CachingProvider> {
    set m | m in members && m.Cached? :: m.cache
  }

  /** Caching any members of a chain of pure providers leaves every answer as it was. */
  method ChainLookup(members: seq<Member>, key: PriceKey) returns (answer: Answer)
    requires members != []
    requires forall c :: c in Caches(members) ==> c.Valid() && Pure(c.inner)
    modifies Caches(members)
    ensures forall c :: c in Caches(members) ==> c.Valid()
    ensures answer == ChainAnswer(AllUnderlying(members), key, None)
  {
    hide Pure, ChainAnswer, AllUnderlying;
    var firstMiss: Option<Answer> := None;
    ghost var all := Caches(members);
    assert members[0..] == members;
    for i := 0 to |members|
      invariant forall c :: c in all ==> c.Valid()
      invariant i > 0 ==> firstMiss.Some?
      invariant ChainAnswer(AllUnderlying(members), key, None) == ChainAnswer(AllUnderlying(members[i..]), key, firstMiss)
    {
      var result: Answer;
      ChainStep(members, i, key, firstMiss);
      match members[i] {
        case Plain(ask) =>
          result := ask(key);
        case Cached(cache) =>
          assert members[i] in members && cache in all;
          result := cache.Lookup(key);
      }
      assert result == Underlying(members[i])(key);
      if !IsMiss(result) {
        return result;
      }
      if firstMiss.None? {
        firstMiss := Some(result);
      }
    }
    ChainEnds(members, key, firstMiss);
    answer := firstMiss.value;
  }

  lemma ChainStep(members: seq<Member>, i: nat, key: PriceKey, firstMiss: Option<Answer>)
    requires i < |members|
    ensures var answer := Underlying(members[i])(key);
            ChainAnswer(AllUnderlying(members[i..]), key, firstMiss)
            == if !IsMiss(answer) then answer
               else ChainAnswer(AllUnderlying(members[i + 1..]), key, if firstMiss.None? then Some(answer) else firstMiss)
  {
    assert members[i..][1..] == members[i + 1..];
    assert AllUnderlying(members[i..])[1..] == AllUnderlying(members[i + 1..]);
  }

  lemma ChainEnds(members: seq<Member>, key: PriceKey, firstMiss: Option<Answer>)
    ensures firstMiss.Some? ==> ChainAnswer(AllUnderlying(members[|members|..]), key, firstMiss) == firstMiss.value
  {
  }
}

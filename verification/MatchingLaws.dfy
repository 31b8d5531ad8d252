/** What the greedy assignment guarantees, for every pair of graphs. */
module MatchingLaws {
  import opened Ordering
  import opened Resources
  import opened Matching

  /** There is only one stable way to take candidates: the greedy loop has no choice. */
  lemma StableIsUnique(taken: seq<Match>, taken': seq<Match>,
                       baseline: seq<Resource>, proposed: seq<Resource>, baseline': seq<Resource>, proposed': seq<Resource>)
    requires Stable(taken, baseline, proposed) && Stable(taken', baseline', proposed')
    requires forall c :: Candidate(c, baseline, proposed) <==> Candidate(c, baseline', proposed')
    ensures forall m :: m in taken <==> m in taken'
  {
    forall m | m in taken || m in taken'
      ensures m in taken && m in taken'
    {
      SameFate(m, taken, taken', baseline, proposed, baseline', proposed');
    }
  }

  ghost function EarlierOnes(c: Match, taken: seq<Match>, taken': seq<Match>): set<Match> {
    set x | x in taken + taken' && Earlier(x, c)
  }

  /** A candidate taken on one side is taken on the other, since whatever could keep it out
      comes earlier and shares its fate. */
  lemma {:induction false} SameFate(c: Match, taken: seq<Match>, taken': seq<Match>,
                                    baseline: seq<Resource>, proposed: seq<Resource>, baseline': seq<Resource>, proposed': seq<Resource>)
    requires Stable(taken, baseline, proposed) && Stable(taken', baseline', proposed')
    requires forall c :: Candidate(c, baseline, proposed) <==> Candidate(c, baseline', proposed')
    ensures c in taken <==> c in taken'
    decreases EarlierOnes(c, taken, taken')
  {
    hide Earlier, Offered;
    if (c in taken) != (c in taken') {
      var m :| m in taken + taken' && Conflict(m, c) && Earlier(m, c) && (c in taken ==> m in taken') && (c in taken' ==> m in taken);
      FewerAreEarlier(m, c, taken, taken');
      SameFate(m, taken, taken', baseline, proposed, baseline', proposed');
      EarlierIrreflexive(c);
    }
  }

  lemma FewerAreEarlier(m: Match, c: Match, taken: seq<Match>, taken': seq<Match>)
    requires m in taken + taken' && Earlier(m, c)
    ensures EarlierOnes(m, taken, taken') < EarlierOnes(c, taken, taken')
  {
    hide Earlier;
    forall x | x in EarlierOnes(m, taken, taken')
      ensures x in EarlierOnes(c, taken, taken')
    {
      EarlierTransitive(x, m, c);
    }
    EarlierIrreflexive(m);
    assert m in EarlierOnes(c, taken, taken') && m !in EarlierOnes(m, taken, taken');
  }

  lemma SameMembersSameSequence(xs: seq<Match>, ys: seq<Match>)
    requires OneToOne(xs) && OneToOne(ys) && (forall m :: m in xs <==> m in ys)
    requires SortedBy(xs, KeyAtMost) && SortedBy(ys, KeyAtMost)
    ensures xs == ys
  {
    SameMembersSameCounts(xs, ys);
    forall i, j | 0 <= i < |xs| && 0 <= j < |xs| && KeyAtMost(xs[i], xs[j]) && KeyAtMost(xs[j], xs[i])
      ensures xs[i] == xs[j]
    {
      KeyOrderAsymmetric(xs[i].after.key, xs[j].after.key);
      assert Conflict(xs[i], xs[j]);
    }
    SortedIsUnique(xs, ys, KeyAtMost);
  }

  /** The two graphs determine the matching. */
  lemma MatchingIsDetermined(baseline: seq<Resource>, proposed: seq<Resource>, r: MatchResult, r': MatchResult)
    requires IsMatching(baseline, proposed, r) && IsMatching(baseline, proposed, r')
    ensures r == r'
  {
    StableIsUnique(r.matches, r'.matches, baseline, proposed, baseline, proposed);
    SameMembersSameSequence(r.matches, r'.matches);
  }

  /** The order in which either graph lists its resources is irrelevant. */
  lemma MatchingIgnoresInputOrder(baseline: seq<Resource>, proposed: seq<Resource>, r: MatchResult,
                                  baseline': seq<Resource>, proposed': seq<Resource>, r': MatchResult)
    requires multiset(baseline) == multiset(baseline') && multiset(proposed) == multiset(proposed')
    requires IsMatching(baseline, proposed, r) && IsMatching(baseline', proposed', r')
    ensures r.matches == r'.matches
    ensures multiset(r.removed) == multiset(r'.removed) && multiset(r.added) == multiset(r'.added)
  {
    hide Offered, Earlier;
    assert forall x :: x in baseline <==> x in multiset(baseline);
    assert forall x :: x in baseline' <==> x in multiset(baseline');
    assert forall x :: x in proposed <==> x in multiset(proposed);
    assert forall x :: x in proposed' <==> x in multiset(proposed');
    StableIsUnique(r.matches, r'.matches, baseline, proposed, baseline', proposed');
    SameMembersSameSequence(r.matches, r'.matches);
    UnmatchedIgnoresOrder(baseline, baseline', BeforeKeys(r.matches));
    UnmatchedIgnoresOrder(proposed, proposed', AfterKeys(r.matches));
  }

  lemma {:induction false} UnmatchedCounts(rs: seq<Resource>, keys: set<ResourceKey>, x: Resource)
    ensures multiset(Unmatched(rs, keys))[x] == if x.key in keys then 0 else multiset(rs)[x]
  {
    if rs != [] {
      UnmatchedCounts(rs[1..], keys, x);
      CountOfFirst(rs[0], rs[1..], x);
      CountOfFirst(rs[0], Unmatched(rs[1..], keys), x);
      assert rs == [rs[0]] + rs[1..];
      assert Unmatched(rs, keys) == (if rs[0].key in keys then Unmatched(rs[1..], keys) else [rs[0]] + Unmatched(rs[1..], keys));
    }
  }

  lemma CountOfFirst(first: Resource, rest: seq<Resource>, x: Resource)
    ensures multiset([first] + rest)[x] == (if x == first then 1 else 0) + multiset(rest)[x]
  {
  }

  lemma UnmatchedIgnoresOrder(rs: seq<Resource>, rs': seq<Resource>, keys: set<ResourceKey>)
    requires multiset(rs) == multiset(rs')
    ensures multiset(Unmatched(rs, keys)) == multiset(Unmatched(rs', keys))
  {
    forall x
      ensures multiset(Unmatched(rs, keys))[x] == multiset(Unmatched(rs', keys))[x]
    {
      UnmatchedCounts(rs, keys, x);
      UnmatchedCounts(rs', keys, x);
    }
  }

  // ----- exchanging the two graphs -----

  function Flip(m: Match): Match {
    Match(m.after, m.before, m.how)
  }

  function FlipAll(ms: seq<Match>): seq<Match> {
    seq(|ms|, i requires 0 <= i < |ms| => Flip(ms[i]))
  }

  lemma FlipMembers(ms: seq<Match>)
    ensures forall m :: Flip(m) in FlipAll(ms) <==> m in ms
    ensures forall m :: m in FlipAll(ms) <==> Flip(m) in ms
  {
    forall m
      ensures m in FlipAll(ms) <==> Flip(m) in ms
    {
      if Flip(m) in ms {
        var i :| 0 <= i < |ms| && ms[i] == Flip(m);
        assert FlipAll(ms)[i] == m;
      }
    }
    assert forall m :: Flip(Flip(m)) == m;
  }

  lemma {:induction false} FlipKeepsCounts(ms: seq<Match>, m: Match)
    ensures multiset(FlipAll(ms))[Flip(m)] == multiset(ms)[m]
    decreases |ms|
  {
    if ms != [] {
      FlipKeepsCounts(ms[1..], m);
      assert FlipAll(ms) == [Flip(ms[0])] + FlipAll(ms[1..]);
      assert ms == [ms[0]] + ms[1..];
    }
  }

  /** Among candidates that compete for a resource, the order is the same from either side. */
  lemma CompetitionIsSymmetric(m: Match, c: Match)
    requires Conflict(m, c)
    ensures Conflict(Flip(m), Flip(c)) && Earlier(Flip(m), Flip(c)) == Earlier(m, c)
  {
    TextLessIrreflexive(KeyText(c.before.key));
    TextLessIrreflexive(KeyText(c.after.key));
  }

  lemma FlippedIsStable(taken: seq<Match>, baseline: seq<Resource>, proposed: seq<Resource>)
    requires Stable(taken, baseline, proposed)
    ensures Stable(FlipAll(taken), proposed, baseline)
  {
    hide Earlier, Offered, FlipAll, OneToOne;
    var flipped := FlipAll(taken);
    FlippedIsOneToOne(taken);
    FlipMembers(taken);
    forall c
      ensures Candidate(c, proposed, baseline) == Candidate(Flip(c), baseline, proposed)
    {
      OfferIsSymmetric(c);
    }
    forall c | Candidate(c, proposed, baseline) && c !in flipped
      ensures exists m :: m in flipped && Conflict(m, c) && Earlier(m, c)
    {
      var m :| m in taken && Conflict(m, Flip(c)) && Earlier(m, Flip(c));
      CompetitionIsSymmetric(m, Flip(c));
      assert Flip(m) in flipped;
    }
  }

  lemma OfferIsSymmetric(c: Match)
    ensures Offered(c.before, c.after, c.how) == Offered(c.after, c.before, c.how)
  {
  }

  lemma FlippedIsOneToOne(taken: seq<Match>)
    requires OneToOne(taken)
    ensures OneToOne(FlipAll(taken))
  {
    hide FlipAll;
    var flipped := FlipAll(taken);
    FlipMembers(taken);
    forall m | m in flipped
      ensures multiset(flipped)[m] == 1
    {
      FlipKeepsCounts(taken, Flip(m));
    }
    forall x, y | x in flipped && y in flipped && Conflict(x, y)
      ensures x == y
    {
      assert Flip(x) in taken && Flip(y) in taken && Conflict(Flip(x), Flip(y));
    }
  }

  /** Two lists without repetition and with the same members are arrangements of each other. */
  lemma SameMembersSameCounts(xs: seq<Match>, ys: seq<Match>)
    requires OneToOne(xs) && OneToOne(ys) && (forall m :: m in xs <==> m in ys)
    ensures multiset(xs) == multiset(ys)
    ensures BeforeKeys(xs) == BeforeKeys(ys) && AfterKeys(xs) == AfterKeys(ys)
  {
    forall m
      ensures multiset(xs)[m] == multiset(ys)[m]
    {
      if m in xs { assert m in ys; } else { assert m !in multiset(xs) && m !in multiset(ys); }
    }
  }

  /** Comparing the other way round yields exactly the transpose: the same pairs by the same
      methods, with added and removed exchanged. */
  lemma MatchingIsSwapSymmetric(baseline: seq<Resource>, proposed: seq<Resource>, forward: MatchResult, backward: MatchResult)
    requires IsMatching(baseline, proposed, forward) && IsMatching(proposed, baseline, backward)
    ensures forall m :: m in backward.matches <==> Flip(m) in forward.matches
    ensures multiset(backward.matches) == multiset(FlipAll(forward.matches))
    ensures backward.removed == forward.added && backward.added == forward.removed
  {
    hide Offered, Earlier, FlipAll, OneToOne, SortedBy, Unmatched, BeforeKeys, AfterKeys;
    var flipped := FlipAll(forward.matches);
    FlippedIsStable(forward.matches, baseline, proposed);
    StableIsUnique(backward.matches, flipped, proposed, baseline, proposed, baseline);
    FlipMembers(forward.matches);
    SameMembersSameCounts(backward.matches, flipped);
    FlipSwapsKeys(forward.matches);
  }

  lemma FlipSwapsKeys(ms: seq<Match>)
    ensures BeforeKeys(FlipAll(ms)) == AfterKeys(ms) && AfterKeys(FlipAll(ms)) == BeforeKeys(ms)
  {
    FlipMembers(ms);
    forall m | m in ms
      ensures m.after.key in BeforeKeys(FlipAll(ms)) && m.before.key in AfterKeys(FlipAll(ms))
    {
      assert Flip(m) in FlipAll(ms);
    }
  }

  // ----- conservation -----

  lemma {:induction false} UnmatchedComplements(rs: seq<Resource>, keys: set<ResourceKey>)
    requires UniqueKeys(rs) && forall k :: k in keys ==> exists i :: 0 <= i < |rs| && rs[i].key == k
    ensures |Unmatched(rs, keys)| + |keys| == |rs|
    decreases |rs|
  {
    if rs == [] {
      assert keys == {};
    } else {
      var rest, keys' := rs[1..], keys - {rs[0].key};
      forall k | k in keys'
        ensures exists i :: 0 <= i < |rest| && rest[i].key == k
      {
        var i :| 0 <= i < |rs| && rs[i].key == k;
        assert rest[i - 1].key == k;
      }
      UnmatchedComplements(rest, keys');
      assert forall i :: 0 <= i < |rest| ==> rest[i].key != rs[0].key;
      UnmatchedSkips(rest, keys, rs[0].key);
    }
  }

  lemma {:induction false} UnmatchedSkips(rs: seq<Resource>, keys: set<ResourceKey>, k: ResourceKey)
    requires forall i :: 0 <= i < |rs| ==> rs[i].key != k
    ensures Unmatched(rs, keys) == Unmatched(rs, keys - {k})
  {
    if rs != [] { UnmatchedSkips(rs[1..], keys, k); }
  }

  lemma {:induction false} KeysCountMatches(ms: seq<Match>)
    requires OneToOne(ms)
    ensures |BeforeKeys(ms)| == |ms| && |AfterKeys(ms)| == |ms|
    decreases |ms|
  {
    hide OneToOne;
    if ms != [] {
      var m, rest := ms[0], ms[1..];
      RestIsOneToOne(ms);
      KeysCountMatches(rest);
      assert ms == [m] + rest;
      assert BeforeKeys(ms) == BeforeKeys(rest) + {m.before.key};
      assert AfterKeys(ms) == AfterKeys(rest) + {m.after.key};
    }
  }

  lemma RestIsOneToOne(ms: seq<Match>)
    requires OneToOne(ms) && ms != []
    ensures OneToOne(ms[1..])
    ensures ms[0].before.key !in BeforeKeys(ms[1..]) && ms[0].after.key !in AfterKeys(ms[1..])
  {
    var m, rest := ms[0], ms[1..];
    assert ms == [m] + rest;
    assert multiset(ms) == multiset{m} + multiset(rest);
    assert m in ms && multiset(ms)[m] == 1;
    assert m !in multiset(rest);
    forall x | x in rest
      ensures !Conflict(x, m) && multiset(rest)[x] == 1
    {
      assert x in multiset(rest) && x in ms && multiset(ms)[x] == 1;
    }
  }

  /** Matched and removed split the baseline, matched and added split the proposal, and every
      pair keeps its stack and type. */
  lemma MatchingPartitions(baseline: seq<Resource>, proposed: seq<Resource>, r: MatchResult)
    requires UniqueKeys(baseline) && UniqueKeys(proposed)
    requires OneToOne(r.matches) && forall m :: m in r.matches ==> Candidate(m, baseline, proposed)
    requires r.removed == Unmatched(baseline, BeforeKeys(r.matches)) && r.added == Unmatched(proposed, AfterKeys(r.matches))
    ensures |baseline| == |r.matches| + |r.removed| && |proposed| == |r.matches| + |r.added|
    ensures forall b :: b in baseline ==> (b in r.removed <==> !exists m :: m in r.matches && m.before == b)
    ensures forall a :: a in proposed ==> (a in r.added <==> !exists m :: m in r.matches && m.after == a)
    ensures forall m :: m in r.matches ==>
              m.before.key.stack == m.after.key.stack && m.before.resourceType == m.after.resourceType
  {
    KeysCountMatches(r.matches);
    MatchedKeysOccur(baseline, proposed, r.matches);
    UnmatchedComplements(baseline, BeforeKeys(r.matches));
    UnmatchedComplements(proposed, AfterKeys(r.matches));
    RemovedMeansUnmatched(baseline, proposed, r.matches);
  }

  lemma {:induction false} MatchedKeysOccur(baseline: seq<Resource>, proposed: seq<Resource>, ms: seq<Match>)
    requires forall m :: m in ms ==> Candidate(m, baseline, proposed)
    ensures forall k :: k in BeforeKeys(ms) ==> exists i :: 0 <= i < |baseline| && baseline[i].key == k
    ensures forall k :: k in AfterKeys(ms) ==> exists i :: 0 <= i < |proposed| && proposed[i].key == k
  {
    forall m | m in ms
      ensures exists i :: 0 <= i < |baseline| && baseline[i].key == m.before.key
      ensures exists i :: 0 <= i < |proposed| && proposed[i].key == m.after.key
    {
      var i :| 0 <= i < |baseline| && baseline[i] == m.before;
      var j :| 0 <= j < |proposed| && proposed[j] == m.after;
    }
  }

  lemma {:induction false} RemovedMeansUnmatched(baseline: seq<Resource>, proposed: seq<Resource>, ms: seq<Match>)
    requires UniqueKeys(baseline) && UniqueKeys(proposed) && forall m :: m in ms ==> Candidate(m, baseline, proposed)
    ensures forall b :: b in baseline ==> (b in Unmatched(baseline, BeforeKeys(ms)) <==> !exists m :: m in ms && m.before == b)
    ensures forall a :: a in proposed ==> (a in Unmatched(proposed, AfterKeys(ms)) <==> !exists m :: m in ms && m.after == a)
  {
    hide Offered;
    forall b | b in baseline
      ensures b in Unmatched(baseline, BeforeKeys(ms)) <==> !exists m :: m in ms && m.before == b
    {
      UnmatchedCounts(baseline, BeforeKeys(ms), b);
      assert b in multiset(baseline);
      assert b in Unmatched(baseline, BeforeKeys(ms)) <==> b in multiset(Unmatched(baseline, BeforeKeys(ms)));
      assert forall m :: m in ms && m.before.key == b.key ==> m.before == b;
    }
    forall a | a in proposed
      ensures a in Unmatched(proposed, AfterKeys(ms)) <==> !exists m :: m in ms && m.after == a
    {
      UnmatchedCounts(proposed, AfterKeys(ms), a);
      assert a in multiset(proposed);
      assert a in Unmatched(proposed, AfterKeys(ms)) <==> a in multiset(Unmatched(proposed, AfterKeys(ms)));
      assert forall m :: m in ms && m.after.key == a.key ==> m.after == a;
    }
  }

  /** Of every pair that a tier offers, taken or not, one end is held by a match that does not
      come later in the order; so what is reported removed and added could not have been paired. */
  lemma NoBlockingPair(baseline: seq<Resource>, proposed: seq<Resource>, r: MatchResult, b: Resource, a: Resource, how: MatchMethod)
    requires UniqueKeys(baseline) && UniqueKeys(proposed) && IsMatching(baseline, proposed, r)
    requires b in baseline && a in proposed && Offered(b, a, how)
    ensures exists m :: m in r.matches && (m.before == b || m.after == a) && NotLater(m, Match(b, a, how))
    ensures !(b in r.removed && a in r.added)
  {
    hide Offered, NotLater;
    var c := Match(b, a, how);
    assert Candidate(c, baseline, proposed);
    var m := if c in r.matches then c else var m :| m in r.matches && Conflict(m, c) && Earlier(m, c); m;
    assert NotLater(m, c) by { EarlierRanks(); NotLaterThanItself(c); EarlierIsNotLater(m, c); }
    assert m.before == b || m.after == a;
    RemovedMeansUnmatched(baseline, proposed, r.matches);
  }

  lemma NotLaterThanItself(c: Match)
    ensures NotLater(c, c)
  {
    EarlierIrreflexive(c);
  }

  lemma EarlierIsNotLater(x: Match, y: Match)
    ensures Earlier(x, y) ==> NotLater(x, y)
  {
    if Earlier(x, y) && Earlier(y, x) {
      EarlierTransitive(x, y, x);
      EarlierIrreflexive(x);
    }
  }

  // ----- identity and rename -----

  function SelfMethod(x: Resource): MatchMethod {
    if PathKey(x).Some? then ConstructPath else LogicalId
  }

  /** Pair the resources of two graphs position by position. */
  function PairUp(g: seq<Resource>, g': seq<Resource>, how: Resource -> MatchMethod): seq<Match>
    requires |g| == |g'|
  {
    seq(|g|, i requires 0 <= i < |g| => Match(g[i], g'[i], how(g[i])))
  }

  lemma PairUpIsOneToOne(g: seq<Resource>, g': seq<Resource>, how: Resource -> MatchMethod)
    requires |g| == |g'| && UniqueKeys(g) && UniqueKeys(g')
    ensures OneToOne(PairUp(g, g', how))
  {
    var ms := PairUp(g, g', how);
    forall m | m in ms
      ensures multiset(ms)[m] == 1
    {
      var i :| 0 <= i < |ms| && ms[i] == m;
      assert ms == ms[..i] + [m] + ms[i + 1..];
      forall j | 0 <= j < |ms| && j != i ensures ms[j] != m {
        assert ms[j].before == g[j] && m.before == g[i];
      }
      assert m !in ms[..i] && m !in ms[i + 1..];
    }
    forall x, y | x in ms && y in ms && Conflict(x, y)
      ensures x == y
    {
      var i :| 0 <= i < |ms| && ms[i] == x;
      var j :| 0 <= j < |ms| && ms[j] == y;
    }
  }

  lemma NothingLeft(g: seq<Resource>, g': seq<Resource>, how: Resource -> MatchMethod)
    requires |g| == |g'| && UniqueKeys(g) && UniqueKeys(g')
    ensures Unmatched(g, BeforeKeys(PairUp(g, g', how))) == []
    ensures Unmatched(g', AfterKeys(PairUp(g, g', how))) == []
  {
    var ms := PairUp(g, g', how);
    PairUpIsOneToOne(g, g', how);
    KeysCountMatches(ms);
    forall k | k in BeforeKeys(ms) ensures exists i :: 0 <= i < |g| && g[i].key == k {
      var m :| m in ms && m.before.key == k;
      var i :| 0 <= i < |ms| && ms[i] == m;
      assert g[i].key == k;
    }
    forall k | k in AfterKeys(ms) ensures exists i :: 0 <= i < |g'| && g'[i].key == k {
      var m :| m in ms && m.after.key == k;
      var i :| 0 <= i < |ms| && ms[i] == m;
      assert g'[i].key == k;
    }
    UnmatchedComplements(g, BeforeKeys(ms));
    UnmatchedComplements(g', AfterKeys(ms));
  }

  /** A graph compared with itself pairs every resource with itself, even where construct
      paths repeat. */
  lemma SelfMatching(g: seq<Resource>, r: MatchResult)
    requires UniqueKeys(g) && NamesTellApart(g, g) && IsMatching(g, g, r)
    ensures r.removed == [] && r.added == []
    ensures forall m :: m in r.matches <==> m in PairUp(g, g, SelfMethod)
    ensures forall m :: m in r.matches ==> m.before == m.after
  {
    hide Stable, PairUp, SelfMethod, Unmatched, SortedBy, BeforeKeys, AfterKeys, NamesTellApart, UniqueKeys, Offered;
    SelfPairsAreStable(g);
    StableIsUnique(r.matches, PairUp(g, g, SelfMethod), g, g, g, g);
    NothingLeft(g, g, SelfMethod);
    OnlyMembersMatter(g, g, r, PairUp(g, g, SelfMethod));
    SelfPairs(g);
  }

  lemma SelfPairs(g: seq<Resource>)
    ensures forall m :: m in PairUp(g, g, SelfMethod) ==> m.before == m.after
    ensures forall x :: x in g ==> Match(x, x, SelfMethod(x)) in PairUp(g, g, SelfMethod)
    ensures forall m :: m in PairUp(g, g, SelfMethod) ==> m.before in g && m == Match(m.before, m.before, SelfMethod(m.before))
  {
    var ms := PairUp(g, g, SelfMethod);
    forall x | x in g
      ensures Match(x, x, SelfMethod(x)) in ms
    {
      var i :| 0 <= i < |g| && g[i] == x;
      assert ms[i] == Match(x, x, SelfMethod(x));
    }
  }

  lemma SelfPairsAreStable(g: seq<Resource>)
    requires UniqueKeys(g) && NamesTellApart(g, g)
    ensures Stable(PairUp(g, g, SelfMethod), g, g)
  {
    hide Earlier, Offered, PairUp, SelfMethod;
    var ms := PairUp(g, g, SelfMethod);
    PairUpIsOneToOne(g, g, SelfMethod);
    SelfPairs(g);
    forall m | m in ms
      ensures Candidate(m, g, g)
    {
      SelfOffer(m.before);
    }
    forall c | Candidate(c, g, g) && c !in ms
      ensures exists m :: m in ms && Conflict(m, c) && Earlier(m, c)
    {
      var mb, ma := Match(c.before, c.before, SelfMethod(c.before)), Match(c.after, c.after, SelfMethod(c.after));
      SelfBeatsOthers(c, g);
      assert mb in ms && ma in ms && Conflict(mb, c) && Conflict(ma, c);
    }
  }

  /** What is left over depends only on which pairs were taken. */
  lemma OnlyMembersMatter(g: seq<Resource>, g': seq<Resource>, r: MatchResult, ms: seq<Match>)
    requires IsMatching(g, g', r) && forall m :: m in r.matches <==> m in ms
    ensures r.removed == Unmatched(g, BeforeKeys(ms)) && r.added == Unmatched(g', AfterKeys(ms))
  {
    assert BeforeKeys(r.matches) == BeforeKeys(ms) && AfterKeys(r.matches) == AfterKeys(ms);
  }

  lemma SelfOffer(x: Resource)
    ensures Offered(x, x, SelfMethod(x))
  {
  }

  lemma SelfBeatsOthers(c: Match, g: seq<Resource>)
    requires UniqueKeys(g) && NamesTellApart(g, g) && Candidate(c, g, g)
    requires c != Match(c.before, c.before, SelfMethod(c.before))
    ensures Earlier(Match(c.before, c.before, SelfMethod(c.before)), c)
            || Earlier(Match(c.after, c.after, SelfMethod(c.after)), c)
  {
    var b, a := c.before, c.after;
    TextLessTotal(KeyText(b.key), KeyText(a.key));
    assert b in g + g && a in g + g;
    if KeyText(b.key) == KeyText(a.key) { assert b == a; }
  }

  /** The second graph holds, position by position, the same stack, type and construct path. */
  ghost predicate Relabelled(g: seq<Resource>, g': seq<Resource>) {
    |g| == |g'| && forall i :: 0 <= i < |g| ==> Pairable(g[i], g'[i]) && PathKey(g[i]) == PathKey(g'[i])
  }

  /** Construct paths are present, and distinct within a stack and type. */
  ghost predicate DistinctPaths(g: seq<Resource>) {
    && (forall i :: 0 <= i < |g| ==> PathKey(g[i]).Some?)
    && (forall i, j :: 0 <= i < |g| && 0 <= j < |g| && Pairable(g[i], g[j]) && PathKey(g[i]) == PathKey(g[j]) ==> i == j)
  }

  /** Whatever happens to logical IDs and properties, resources with distinct construct paths
      are each paired with themselves, by path, and nothing is added or removed. */
  lemma RenameIsRecognised(g: seq<Resource>, g': seq<Resource>, r: MatchResult)
    requires UniqueKeys(g) && UniqueKeys(g') && Relabelled(g, g') && DistinctPaths(g) && IsMatching(g, g', r)
    ensures forall m :: m in r.matches <==> m in PairUp(g, g', x => ConstructPath)
    ensures r.removed == [] && r.added == []
  {
    var how := (x: Resource) => ConstructPath;
    PathPairsAreStable(g, g', how);
    StableIsUnique(r.matches, PairUp(g, g', how), g, g', g, g');
    NothingLeft(g, g', how);
    OnlyMembersMatter(g, g', r, PairUp(g, g', how));
  }

  lemma PathPairsAreStable(g: seq<Resource>, g': seq<Resource>, how: Resource -> MatchMethod)
    requires UniqueKeys(g) && UniqueKeys(g') && Relabelled(g, g') && DistinctPaths(g)
    requires forall x :: how(x) == ConstructPath
    ensures Stable(PairUp(g, g', how), g, g')
  {
    hide PathKey, BaseKey, KeyText, TextLess;
    var ms := PairUp(g, g', how);
    PairUpIsOneToOne(g, g', how);
    forall m | m in ms ensures Candidate(m, g, g') {
      var i :| 0 <= i < |ms| && ms[i] == m;
      assert m.before == g[i] && m.after == g'[i];
    }
    forall c | Candidate(c, g, g') && c !in ms
      ensures exists m :: m in ms && Conflict(m, c) && Earlier(m, c)
    {
      PathPairWins(c, g, g', how);
    }
  }

  lemma PathPairWins(c: Match, g: seq<Resource>, g': seq<Resource>, how: Resource -> MatchMethod)
    requires UniqueKeys(g) && UniqueKeys(g') && Relabelled(g, g') && DistinctPaths(g)
    requires forall x :: how(x) == ConstructPath
    requires Candidate(c, g, g') && c !in PairUp(g, g', how)
    ensures exists m :: m in PairUp(g, g', how) && Conflict(m, c) && Earlier(m, c)
  {
    hide PathKey, BaseKey, KeyText, TextLess, UniqueKeys;
    var ms := PairUp(g, g', how);
    var i :| 0 <= i < |g| && g[i] == c.before;
    var j :| 0 <= j < |g'| && g'[j] == c.after;
    assert ms[i] == Match(g[i], g'[i], ConstructPath);
    assert ms[i] in ms && Conflict(ms[i], c);
    if c.how == ConstructPath { SamePathSamePlace(c, g, g', i, j); }
  }

  lemma SamePathSamePlace(c: Match, g: seq<Resource>, g': seq<Resource>, i: nat, j: nat)
    requires Relabelled(g, g') && DistinctPaths(g) && i < |g| && j < |g|
    requires c.how == ConstructPath && Offered(c.before, c.after, c.how) && c.before == g[i] && c.after == g'[j]
    ensures i == j
  {
    assert Pairable(g[i], g[j]) && PathKey(g[i]) == PathKey(g[j]);
  }
}

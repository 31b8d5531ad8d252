/** Pairing baseline resources with proposed ones: offers by tier, then greedy assignment. */
module Matching {
  import opened Templates
  import opened Ordering
  import opened Resources

  datatype MatchMethod = ConstructPath | LogicalId | Heuristic

  function Score(m: MatchMethod): nat {
    match m
    case ConstructPath => 3
    case LogicalId => 2
    case Heuristic => 1
  }

  datatype Match = Match(before: Resource, after: Resource, how: MatchMethod)

  datatype MatchResult = MatchResult(matches: seq<Match>, removed: seq<Resource>, added: seq<Resource>)

  predicate UpperHex(c: char) {
    '0' <= c <= '9' || 'A' <= c <= 'F'
  }

  /** The logical ID without eight trailing upper-case hex digits, if something is left. */
  function StripHashSuffix(id: string): Option<string> {
    if |id| > 8 && forall i :: |id| - 8 <= i < |id| ==> UpperHex(id[i]) then Some(id[..|id| - 8]) else None
  }

  predicate Pairable(b: Resource, a: Resource) {
    b.key.stack == a.key.stack && b.resourceType == a.resourceType
  }

  function PathKey(r: Resource): Option<(string, string)> {
    if r.constructPath.Some? && r.constructPath.value != "" then Some((r.key.stack, r.constructPath.value)) else None
  }

  function BaseKey(r: Resource): Option<(string, string, string)> {
    match StripHashSuffix(r.key.logicalId)
    case None => None
    case Some(base) => Some((r.key.stack, r.resourceType, base))
  }

  /** When a tier proposes a pair. */
  predicate Offered(b: Resource, a: Resource, how: MatchMethod) {
    && Pairable(b, a)
    && match how
       case ConstructPath => PathKey(b).Some? && PathKey(b) == PathKey(a)
       case LogicalId => b.key == a.key
       case Heuristic => BaseKey(b).Some? && BaseKey(b) == BaseKey(a)
  }

  ghost predicate Candidate(c: Match, baseline: seq<Resource>, proposed: seq<Resource>) {
    c.before in baseline && c.after in proposed && Offered(c.before, c.after, c.how)
  }

  type OfferIdentity = (string, string, MatchMethod)

  function Identity(c: Match): OfferIdentity {
    (KeyText(c.before.key), KeyText(c.after.key), c.how)
  }

  /** The offers made so far, each identity at most once. */
  class Offers {
    var found: seq<Match>
    var seen: set<OfferIdentity>

    constructor ()
      ensures found == [] && seen == {}
    {
      found, seen := [], {};
    }

    method Offer(before: Resource, after: Resource, how: MatchMethod)
      modifies this
      ensures var c := Match(before, after, how);
              if Pairable(before, after) && Identity(c) !in old(seen) then
                found == old(found) + [c] && seen == old(seen) + {Identity(c)}
              else found == old(found) && seen == old(seen)
    {
      if !Pairable(before, after) {
        return;
      }
      var identity := Identity(Match(before, after, how));
      if identity in seen {
        return;
      }
      seen := seen + {identity};
      found := found + [Match(before, after, how)];
    }
  }

  /** Every offer is justified, recorded and made once. */
  ghost predicate Sound(found: seq<Match>, seen: set<OfferIdentity>, baseline: seq<Resource>, proposed: seq<Resource>) {
    && (forall i :: 0 <= i < |found| ==> Candidate(found[i], baseline, proposed) && Identity(found[i]) in seen)
    && (forall id :: id in seen ==> exists i :: 0 <= i < |found| && Identity(found[i]) == id)
    && (forall i, j :: 0 <= i < |found| && 0 <= j < |found| && Identity(found[i]) == Identity(found[j]) ==> i == j)
  }

  lemma OneMore(found: seq<Match>, seen: set<OfferIdentity>, c: Match, baseline: seq<Resource>, proposed: seq<Resource>)
    requires Sound(found, seen, baseline, proposed) && Candidate(c, baseline, proposed) && Identity(c) !in seen
    ensures Sound(found + [c], seen + {Identity(c)}, baseline, proposed)
  {
    var found', seen' := found + [c], seen + {Identity(c)};
    forall id | id in seen'
      ensures exists i :: 0 <= i < |found'| && Identity(found'[i]) == id
    {
      if id == Identity(c) {
        assert found'[|found|] == c;
      } else {
        var i :| 0 <= i < |found| && Identity(found[i]) == id;
        assert found'[i] == found[i];
      }
    }
  }

  /** Group resources by a key, in order, leaving out those without one. */
  method GroupBy<K(==)>(resources: seq<Resource>, keyOf: Resource -> Option<K>) returns (groups: map<K, seq<Resource>>)
    ensures forall k, r :: k in groups && r in groups[k] ==> r in resources && keyOf(r) == Some(k)
    ensures forall r :: r in resources && keyOf(r).Some? ==> keyOf(r).value in groups && r in groups[keyOf(r).value]
  {
    groups := map[];
    for i := 0 to |resources|
      invariant forall k, r :: k in groups && r in groups[k] ==> r in resources && keyOf(r) == Some(k)
      invariant forall j :: 0 <= j < i && keyOf(resources[j]).Some? ==>
                  keyOf(resources[j]).value in groups && resources[j] in groups[keyOf(resources[j]).value]
    {
      var key := keyOf(resources[i]);
      if key.Some? {
        var k := key.value;
        groups := groups[k := (if k in groups then groups[k] else []) + [resources[i]]];
      }
    }
  }

  predicate Linked<K(==)>(b: Resource, a: Resource, keyOf: Resource -> Option<K>) {
    Pairable(b, a) && keyOf(b).Some? && keyOf(b) == keyOf(a)
  }

  /** Offer every baseline resource to the proposed resources that share its key. */
  method OfferGroups<K(==)>(offers: Offers, baseline: seq<Resource>, ghost proposed: seq<Resource>,
                            groups: map<K, seq<Resource>>, keyOf: Resource -> Option<K>, how: MatchMethod)
    requires Sound(offers.found, offers.seen, baseline, proposed)
    requires forall k, r :: k in groups && r in groups[k] ==> r in proposed && keyOf(r) == Some(k)
    requires forall r :: r in proposed && keyOf(r).Some? ==> keyOf(r).value in groups && r in groups[keyOf(r).value]
    requires forall b, a :: Linked(b, a, keyOf) ==> Offered(b, a, how)
    modifies offers
    ensures Sound(offers.found, offers.seen, baseline, proposed) && old(offers.seen) <= offers.seen
    ensures forall b, a :: b in baseline && a in proposed && Linked(b, a, keyOf) ==>
              Identity(Match(b, a, how)) in offers.seen
  {
    hide Sound, Pairable;
    for i := 0 to |baseline|
      invariant Sound(offers.found, offers.seen, baseline, proposed) && old(offers.seen) <= offers.seen
      invariant forall j, a :: 0 <= j < i && a in proposed && Linked(baseline[j], a, keyOf) ==>
                  Identity(Match(baseline[j], a, how)) in offers.seen
    {
      var b := baseline[i];
      var key := keyOf(b);
      if key.Some? && key.value in groups {
        forall a | a in groups[key.value] && Pairable(b, a)
          ensures Offered(b, a, how)
        {
          assert Linked(b, a, keyOf);
        }
        OfferGroup(offers, b, groups[key.value], how, baseline, proposed);
      }
    }
  }

  method OfferGroup(offers: Offers, b: Resource, group: seq<Resource>, how: MatchMethod, ghost baseline: seq<Resource>, ghost proposed: seq<Resource>)
    requires Sound(offers.found, offers.seen, baseline, proposed)
    requires b in baseline && forall a :: a in group ==> a in proposed && (Pairable(b, a) ==> Offered(b, a, how))
    modifies offers
    ensures Sound(offers.found, offers.seen, baseline, proposed) && old(offers.seen) <= offers.seen
    ensures forall a :: a in group && Pairable(b, a) ==> Identity(Match(b, a, how)) in offers.seen
  {
    hide Sound, Pairable, Offered;
    for k := 0 to |group|
      invariant Sound(offers.found, offers.seen, baseline, proposed) && old(offers.seen) <= offers.seen
      invariant forall l :: 0 <= l < k && Pairable(b, group[l]) ==> Identity(Match(b, group[l], how)) in offers.seen
    {
      OfferOne(offers, b, group[k], how, baseline, proposed);
    }
  }

  method OfferOne(offers: Offers, b: Resource, a: Resource, how: MatchMethod, ghost baseline: seq<Resource>, ghost proposed: seq<Resource>)
    requires Sound(offers.found, offers.seen, baseline, proposed)
    requires b in baseline && a in proposed && (Pairable(b, a) ==> Offered(b, a, how))
    modifies offers
    ensures Sound(offers.found, offers.seen, baseline, proposed) && old(offers.seen) <= offers.seen
    ensures Pairable(b, a) ==> Identity(Match(b, a, how)) in offers.seen
  {
    var c := Match(b, a, how);
    if Pairable(b, a) && Identity(c) !in offers.seen {
      OneMore(offers.found, offers.seen, c, baseline, proposed);
    }
    offers.Offer(b, a, how);
  }

  ghost function Identities(found: seq<Match>): set<OfferIdentity> {
    set c | c in found :: Identity(c)
  }

  /** Every plausible pairing, with the tier that justifies it. */
  method Candidates(baseline: seq<Resource>, proposed: seq<Resource>) returns (found: seq<Match>)
    requires UniqueKeys(proposed)
    ensures Sound(found, Identities(found), baseline, proposed)
    ensures forall c :: Candidate(c, baseline, proposed) ==> Identity(c) in Identities(found)
  {
    hide Sound, Identity, StripHashSuffix;
    var offers := new Offers();
    NothingOffered(baseline, proposed);

    var byPath := GroupBy(proposed, PathKey);
    OfferGroups(offers, baseline, proposed, byPath, PathKey, ConstructPath);
    ghost var seen1 := offers.seen;

    var byKey: map<ResourceKey, Resource> := map[];
    for i := 0 to |proposed|
      invariant forall k :: k in byKey ==> byKey[k] in proposed && byKey[k].key == k
      invariant forall j :: 0 <= j < i ==> proposed[j].key in byKey
    {
      byKey := byKey[proposed[i].key := proposed[i]];
    }
    for i := 0 to |baseline|
      invariant Sound(offers.found, offers.seen, baseline, proposed) && seen1 <= offers.seen
      invariant forall j, a :: 0 <= j < i && a in proposed && Offered(baseline[j], a, LogicalId) ==>
                  Identity(Match(baseline[j], a, LogicalId)) in offers.seen
    {
      if baseline[i].key in byKey {
        var sameId := byKey[baseline[i].key];
        assert forall a :: a in proposed && a.key == baseline[i].key ==> a == sameId;
        OfferOne(offers, baseline[i], sameId, LogicalId, baseline, proposed);
      }
    }
    ghost var seen2 := offers.seen;

    var byBase := GroupBy(proposed, BaseKey);
    OfferGroups(offers, baseline, proposed, byBase, BaseKey, Heuristic);
    found := offers.found;
    ghost var seen := offers.seen;
    SeenAreIdentities(found, seen, baseline, proposed);
    forall c | Candidate(c, baseline, proposed)
      ensures Identity(c) in seen
    {
      assert c == Match(c.before, c.after, c.how);
      match c.how
      case ConstructPath => assert Identity(c) in seen1;
      case LogicalId => assert Identity(c) in seen2;
      case Heuristic =>
    }
  }

  lemma SeenAreIdentities(found: seq<Match>, seen: set<OfferIdentity>, baseline: seq<Resource>, proposed: seq<Resource>)
    requires Sound(found, seen, baseline, proposed)
    ensures seen == Identities(found)
  {
    forall id | id in Identities(found) ensures id in seen {
      var c :| c in found && Identity(c) == id;
      var i :| 0 <= i < |found| && found[i] == c;
    }
    forall id | id in seen ensures id in Identities(found) {
      var i :| 0 <= i < |found| && Identity(found[i]) == id;
      assert found[i] in found;
    }
  }

  lemma NothingOffered(baseline: seq<Resource>, proposed: seq<Resource>)
    ensures Sound([], {}, baseline, proposed)
  {
  }

  // ----- greedy assignment -----

  /** Best score first, then by the rendered keys. */
  predicate Earlier(x: Match, y: Match) {
    || Score(x.how) > Score(y.how)
    || (x.how == y.how
        && (|| TextLess(KeyText(x.before.key), KeyText(y.before.key))
            || (KeyText(x.before.key) == KeyText(y.before.key) && TextLess(KeyText(x.after.key), KeyText(y.after.key)))))
  }

  predicate NotLater(x: Match, y: Match) {
    !Earlier(y, x)
  }

  predicate Conflict(x: Match, y: Match) {
    x.before.key == y.before.key || x.after.key == y.after.key
  }

  predicate KeyAtMost(x: Match, y: Match) {
    var kx, ky := x.after.key, y.after.key;
    !(TextLess(ky.stack, kx.stack) || (ky.stack == kx.stack && TextLess(ky.logicalId, kx.logicalId)))
  }

  function Unmatched(resources: seq<Resource>, matched: set<ResourceKey>): seq<Resource> {
    if resources == [] then []
    else (if resources[0].key in matched then [] else [resources[0]]) + Unmatched(resources[1..], matched)
  }

  ghost function BeforeKeys(matches: seq<Match>): set<ResourceKey> {
    set m | m in matches :: m.before.key
  }

  ghost function AfterKeys(matches: seq<Match>): set<ResourceKey> {
    set m | m in matches :: m.after.key
  }

  /** No match is listed twice, and no resource takes part in two matches. */
  ghost predicate OneToOne(matches: seq<Match>) {
    && (forall m :: m in matches ==> multiset(matches)[m] == 1)
    && (forall x, y :: x in matches && y in matches && Conflict(x, y) ==> x == y)
  }

  /** Sorted candidates, taken greedily: what is taken, and why the rest is not. */
  ghost predicate Greedy(taken: seq<Match>, candidates: seq<Match>) {
    && OneToOne(taken)
    && (forall m :: m in taken ==> m in candidates)
    && (forall j :: 0 <= j < |candidates| && candidates[j] !in taken ==>
          exists k :: 0 <= k < j && candidates[k] in taken && Conflict(candidates[k], candidates[j]))
  }

  method AssignGreedily(candidates: seq<Match>) returns (matches: seq<Match>, before: set<ResourceKey>, after: set<ResourceKey>)
    ensures Greedy(matches, candidates)
    ensures before == BeforeKeys(matches) && after == AfterKeys(matches)
  {
    hide Greedy, Conflict;
    before, after, matches := {}, {}, [];
    assert Greedy([], candidates[..0]) by { NothingTaken(candidates[..0]); }
    for i := 0 to |candidates|
      invariant Greedy(matches, candidates[..i])
      invariant before == BeforeKeys(matches) && after == AfterKeys(matches)
    {
      var c := candidates[i];
      assert candidates[..i + 1] == candidates[..i] + [c];
      if c.before.key in before || c.after.key in after {
        OneIsRejected(matches, candidates[..i], c);
        continue;
      }
      OneIsTaken(matches, candidates[..i], c);
      before := before + {c.before.key};
      after := after + {c.after.key};
      matches := matches + [c];
    }
    assert candidates[..|candidates|] == candidates;
  }

  lemma NothingTaken(candidates: seq<Match>)
    requires candidates == []
    ensures Greedy([], candidates)
  {
  }

  lemma OneIsRejected(taken: seq<Match>, candidates: seq<Match>, c: Match)
    requires Greedy(taken, candidates) && (c.before.key in BeforeKeys(taken) || c.after.key in AfterKeys(taken))
    ensures Greedy(taken, candidates + [c])
  {
    var longer := candidates + [c];
    var m :| m in taken && Conflict(m, c);
    var k :| 0 <= k < |candidates| && candidates[k] == m;
    assert longer[k] == m && longer[|candidates|] == c;
    forall j | 0 <= j < |candidates| && longer[j] !in taken
      ensures exists k :: 0 <= k < j && longer[k] in taken && Conflict(longer[k], longer[j])
    {
      assert candidates[j] !in taken;
      var k :| 0 <= k < j && candidates[k] in taken && Conflict(candidates[k], candidates[j]);
      assert longer[k] == candidates[k];
    }
  }

  lemma OneIsTaken(taken: seq<Match>, candidates: seq<Match>, c: Match)
    requires Greedy(taken, candidates) && c.before.key !in BeforeKeys(taken) && c.after.key !in AfterKeys(taken)
    ensures Greedy(taken + [c], candidates + [c])
    ensures BeforeKeys(taken + [c]) == BeforeKeys(taken) + {c.before.key}
    ensures AfterKeys(taken + [c]) == AfterKeys(taken) + {c.after.key}
  {
    hide Conflict, OneToOne;
    var longer, more := candidates + [c], taken + [c];
    assert forall m :: m in more <==> m in taken || m == c;
    OneMoreIsOneToOne(taken, c);
    forall j | 0 <= j < |longer| && longer[j] !in more
      ensures exists k :: 0 <= k < j && longer[k] in more && Conflict(longer[k], longer[j])
    {
      assert j < |candidates| && candidates[j] !in taken;
      var k :| 0 <= k < j && candidates[k] in taken && Conflict(candidates[k], candidates[j]);
      assert longer[k] == candidates[k];
    }
    assert longer[|candidates|] == c;
    assert forall m :: m in candidates ==> m in longer;
  }

  lemma OneMoreIsOneToOne(taken: seq<Match>, c: Match)
    requires OneToOne(taken) && c.before.key !in BeforeKeys(taken) && c.after.key !in AfterKeys(taken)
    ensures OneToOne(taken + [c])
    ensures BeforeKeys(taken + [c]) == BeforeKeys(taken) + {c.before.key}
    ensures AfterKeys(taken + [c]) == AfterKeys(taken) + {c.after.key}
  {
    hide OneToOne, Conflict;
    KeysOfOneMore(taken, c);
    assert c !in taken ==> OneToOne(taken + [c]) by {
      forall m | m in taken ensures !Conflict(m, c) { KeysDiffer(taken, m, c); }
      ApartIsOneToOne(taken, c);
    }
  }

  lemma KeysOfOneMore(taken: seq<Match>, c: Match)
    ensures BeforeKeys(taken + [c]) == BeforeKeys(taken) + {c.before.key}
    ensures AfterKeys(taken + [c]) == AfterKeys(taken) + {c.after.key}
    ensures c in taken ==> c.before.key in BeforeKeys(taken)
  {
    assert forall m :: m in taken + [c] <==> m in taken || m == c;
  }

  lemma KeysDiffer(taken: seq<Match>, m: Match, c: Match)
    requires m in taken && c.before.key !in BeforeKeys(taken) && c.after.key !in AfterKeys(taken)
    ensures !Conflict(m, c)
  {
    assert m.before.key in BeforeKeys(taken) && m.after.key in AfterKeys(taken);
  }

  lemma ApartIsOneToOne(taken: seq<Match>, c: Match)
    requires OneToOne(taken) && forall m :: m in taken ==> !Conflict(m, c)
    ensures c !in taken ==> OneToOne(taken + [c])
  {
    assert forall m :: m in taken + [c] <==> m in taken || m == c;
    assert forall m :: m in taken ==> !Conflict(c, m);
  }

  method MatchResources(baseline: seq<Resource>, proposed: seq<Resource>) returns (r: MatchResult)
    requires UniqueKeys(baseline) && UniqueKeys(proposed)
    ensures OneToOne(r.matches) && (forall m :: m in r.matches ==> Candidate(m, baseline, proposed))
    ensures SortedBy(r.matches, KeyAtMost)
    ensures r.removed == Unmatched(baseline, BeforeKeys(r.matches))
    ensures r.added == Unmatched(proposed, AfterKeys(r.matches))
    ensures NamesTellApart(baseline, proposed) ==> IsMatching(baseline, proposed, r)
    ensures NoSlashes(baseline + proposed) ==> IsMatching(baseline, proposed, r)
    ensures NoSlashes(baseline + proposed) ==> forall b, a, how :: b in r.removed && a in r.added ==> !Offered(b, a, how)
  {
    hide Offered, Conflict, OneToOne, Stable, NamesTellApart, NoSlashes, NotLater, KeyAtMost, Greedy, UniqueKeys, Unmatched;
    var found := Candidates(baseline, proposed);
    var candidates := SortBy(found, NotLater);
    SortKeepsItems(found, NotLater);
    SortSorts(found, NotLater) by { EarlierRanks(); }
    var matches, before, after := AssignGreedily(candidates);
    TakenAreCandidates(matches, candidates, found, baseline, proposed);
    var sorted := SortBy(matches, KeyAtMost);
    SortKeepsItems(matches, KeyAtMost);
    SortSorts(matches, KeyAtMost) by { KeyRanks(); }
    SameItems(matches, sorted);
    r := MatchResult(sorted, Unmatched(baseline, before), Unmatched(proposed, after));
    if NoSlashes(baseline + proposed) { NoSlashTellsApart(baseline, proposed); }
    if NamesTellApart(baseline, proposed) {
      GreedyIsStable(matches, candidates, found, Identities(found), baseline, proposed);
      SameItemsAreStable(matches, sorted, baseline, proposed);
      NothingLeftToPair(baseline, proposed, r);
    }
  }

  // ----- the outcome, stated without the loop -----

  /** Rendered keys identify resources across both graphs. */
  ghost predicate NamesTellApart(baseline: seq<Resource>, proposed: seq<Resource>) {
    forall x, y :: x in baseline + proposed && y in baseline + proposed && KeyText(x.key) == KeyText(y.key) ==> x.key == y.key
  }

  /** A candidate is taken exactly when no earlier taken candidate shares a resource with it. */
  ghost predicate Stable(taken: seq<Match>, baseline: seq<Resource>, proposed: seq<Resource>) {
    && OneToOne(taken)
    && (forall m :: m in taken ==> Candidate(m, baseline, proposed))
    && (forall c :: Candidate(c, baseline, proposed) && c !in taken ==>
          exists m :: m in taken && Conflict(m, c) && Earlier(m, c))
  }

  ghost predicate IsMatching(baseline: seq<Resource>, proposed: seq<Resource>, r: MatchResult) {
    && Stable(r.matches, baseline, proposed)
    && SortedBy(r.matches, KeyAtMost)
    && r.removed == Unmatched(baseline, BeforeKeys(r.matches))
    && r.added == Unmatched(proposed, AfterKeys(r.matches))
  }

  predicate NoSlashes(resources: seq<Resource>) {
    forall x :: x in resources ==> '/' !in x.key.stack
  }

  /** Stack names without a slash are enough for names to tell resources apart. */
  lemma NoSlashTellsApart(baseline: seq<Resource>, proposed: seq<Resource>)
    requires NoSlashes(baseline + proposed)
    ensures NamesTellApart(baseline, proposed)
  {
    forall x, y | x in baseline + proposed && y in baseline + proposed && KeyText(x.key) == KeyText(y.key)
      ensures x.key == y.key
    {
      KeyTextIsInjective(x.key, y.key);
    }
  }

  lemma {:induction false} UnmatchedAreFree(resources: seq<Resource>, matched: set<ResourceKey>)
    ensures forall x :: x in Unmatched(resources, matched) ==> x in resources && x.key !in matched
  {
    if resources != [] { UnmatchedAreFree(resources[1..], matched); }
  }

  lemma NothingLeftToPair(baseline: seq<Resource>, proposed: seq<Resource>, r: MatchResult)
    requires IsMatching(baseline, proposed, r)
    ensures forall b, a, how :: b in r.removed && a in r.added ==> !Offered(b, a, how)
  {
    hide Offered, Earlier, Stable;
    UnmatchedAreFree(baseline, BeforeKeys(r.matches));
    UnmatchedAreFree(proposed, AfterKeys(r.matches));
    forall b, a, how | b in r.removed && a in r.added
      ensures !Offered(b, a, how)
    {
      OneEndIsHeld(r.matches, baseline, proposed, Match(b, a, how));
    }
  }

  lemma OneEndIsHeld(taken: seq<Match>, baseline: seq<Resource>, proposed: seq<Resource>, c: Match)
    requires Stable(taken, baseline, proposed) && c.before in baseline && c.after in proposed
    ensures Offered(c.before, c.after, c.how) ==> c.before.key in BeforeKeys(taken) || c.after.key in AfterKeys(taken)
  {
    hide Offered, Earlier;
    if Offered(c.before, c.after, c.how) && c !in taken {
      assert Candidate(c, baseline, proposed);
      var m :| m in taken && Conflict(m, c);
    }
  }

  // ----- supporting lemmas -----

  lemma EarlierTransitive(x: Match, y: Match, z: Match)
    requires Earlier(x, y) && Earlier(y, z)
    ensures Earlier(x, z)
  {
    if x.how == y.how && y.how == z.how {
      var bx, by', bz := KeyText(x.before.key), KeyText(y.before.key), KeyText(z.before.key);
      var ax, ay, az := KeyText(x.after.key), KeyText(y.after.key), KeyText(z.after.key);
      if TextLess(bx, by') && TextLess(by', bz) { TextLessTransitive(bx, by', bz); }
      if TextLess(ax, ay) && TextLess(ay, az) { TextLessTransitive(ax, ay, az); }
    }
  }

  lemma EarlierIrreflexive(x: Match)
    ensures !Earlier(x, x)
  {
    TextLessIrreflexive(KeyText(x.before.key));
    TextLessIrreflexive(KeyText(x.after.key));
  }

  lemma EarlierTotal(x: Match, y: Match)
    ensures Earlier(x, y) || Earlier(y, x) || Identity(x) == Identity(y)
  {
    TextLessTotal(KeyText(x.before.key), KeyText(y.before.key));
    TextLessTotal(KeyText(x.after.key), KeyText(y.after.key));
  }

  lemma SameIdentitySameOrder(x: Match, y: Match, z: Match)
    requires Identity(x) == Identity(y)
    ensures Earlier(x, z) == Earlier(y, z) && Earlier(z, x) == Earlier(z, y)
  {
  }

  lemma EarlierRanks()
    ensures Ranks(NotLater)
  {
    forall x, y
      ensures NotLater(x, y) || NotLater(y, x)
    {
      if Earlier(x, y) && Earlier(y, x) { EarlierTransitive(x, y, x); EarlierIrreflexive(x); }
    }
    forall x, y, z | NotLater(x, y) && NotLater(y, z)
      ensures NotLater(x, z)
    {
      if Earlier(z, x) {
        EarlierTotal(x, y);
        if Earlier(x, y) { EarlierTransitive(z, x, y); } else { SameIdentitySameOrder(x, y, z); }
      }
    }
  }

  lemma KeyRanks()
    ensures Ranks(KeyAtMost)
  {
    forall x: Match, y: Match
      ensures KeyAtMost(x, y) || KeyAtMost(y, x)
    {
      KeyOrderAsymmetric(x.after.key, y.after.key);
    }
    forall x: Match, y: Match, z: Match | KeyAtMost(x, y) && KeyAtMost(y, z)
      ensures KeyAtMost(x, z)
    {
      KeyOrderTransitive(x.after.key, y.after.key, z.after.key);
    }
  }

  predicate KeyLess(k: ResourceKey, k': ResourceKey) {
    TextLess(k.stack, k'.stack) || (k.stack == k'.stack && TextLess(k.logicalId, k'.logicalId))
  }

  lemma KeyOrderAsymmetric(k: ResourceKey, k': ResourceKey)
    ensures !(KeyLess(k, k') && KeyLess(k', k))
    ensures KeyLess(k, k') || KeyLess(k', k) || k == k'
  {
    TextLessTotal(k.stack, k'.stack);
    TextLessTotal(k.logicalId, k'.logicalId);
    if TextLess(k.stack, k'.stack) { TextLessAsymmetric(k.stack, k'.stack); }
    if TextLess(k.logicalId, k'.logicalId) { TextLessAsymmetric(k.logicalId, k'.logicalId); }
    TextLessIrreflexive(k.stack);
  }

  lemma KeyOrderTransitive(x: ResourceKey, y: ResourceKey, z: ResourceKey)
    requires !KeyLess(y, x) && !KeyLess(z, y)
    ensures !KeyLess(z, x)
  {
    if KeyLess(z, x) {
      KeyOrderAsymmetric(x, y);
      if KeyLess(x, y) {
        if TextLess(z.stack, x.stack) && TextLess(x.stack, y.stack) { TextLessTransitive(z.stack, x.stack, y.stack); }
        if TextLess(z.logicalId, x.logicalId) && TextLess(x.logicalId, y.logicalId) {
          TextLessTransitive(z.logicalId, x.logicalId, y.logicalId);
        }
      }
    }
  }

  lemma SameItems(xs: seq<Match>, ys: seq<Match>)
    requires multiset(xs) == multiset(ys)
    ensures forall m :: m in xs <==> m in ys
    ensures OneToOne(xs) ==> OneToOne(ys)
    ensures BeforeKeys(xs) == BeforeKeys(ys) && AfterKeys(xs) == AfterKeys(ys)
  {
    assert forall m :: m in xs <==> m in multiset(xs);
    assert forall m :: m in ys <==> m in multiset(ys);
  }

  lemma SameItemsAreStable(xs: seq<Match>, ys: seq<Match>, baseline: seq<Resource>, proposed: seq<Resource>)
    requires multiset(xs) == multiset(ys) && Stable(xs, baseline, proposed)
    ensures Stable(ys, baseline, proposed)
  {
    hide Candidate, Conflict, Earlier, OneToOne;
    SameItems(xs, ys);
  }

  lemma TakenAreCandidates(taken: seq<Match>, candidates: seq<Match>, found: seq<Match>, baseline: seq<Resource>, proposed: seq<Resource>)
    requires Greedy(taken, candidates) && multiset(candidates) == multiset(found) && Sound(found, Identities(found), baseline, proposed)
    ensures OneToOne(taken) && forall m :: m in taken ==> Candidate(m, baseline, proposed)
  {
    hide Candidate, Conflict, OneToOne, Identity;
    forall m | m in taken
      ensures Candidate(m, baseline, proposed)
    {
      assert m in multiset(candidates);
    }
  }

  /** Where names tell resources apart, an identity stands for one candidate. */
  lemma IdentityIsFaithful(x: Match, y: Match, baseline: seq<Resource>, proposed: seq<Resource>)
    requires UniqueKeys(baseline) && UniqueKeys(proposed) && NamesTellApart(baseline, proposed)
    requires Candidate(x, baseline, proposed) && Candidate(y, baseline, proposed) && Identity(x) == Identity(y)
    ensures x == y
  {
    assert x.before in baseline + proposed && y.before in baseline + proposed;
    assert x.after in baseline + proposed && y.after in baseline + proposed;
  }

  lemma GreedyIsStable(taken: seq<Match>, candidates: seq<Match>, found: seq<Match>, seen: set<OfferIdentity>,
                       baseline: seq<Resource>, proposed: seq<Resource>)
    requires UniqueKeys(baseline) && UniqueKeys(proposed) && NamesTellApart(baseline, proposed)
    requires Sound(found, seen, baseline, proposed)
    requires forall c :: Candidate(c, baseline, proposed) ==> Identity(c) in seen
    requires multiset(candidates) == multiset(found) && SortedBy(candidates, NotLater) && Greedy(taken, candidates)
    ensures Stable(taken, baseline, proposed)
  {
    forall c | Candidate(c, baseline, proposed) && c !in taken
      ensures exists m :: m in taken && Conflict(m, c) && Earlier(m, c)
    {
      BeatenByATakenOne(c, taken, candidates, found, seen, baseline, proposed);
    }
    forall m | m in taken
      ensures Candidate(m, baseline, proposed)
    {
      assert m in multiset(candidates);
    }
  }

  lemma BeatenByATakenOne(c: Match, taken: seq<Match>, candidates: seq<Match>, found: seq<Match>, seen: set<OfferIdentity>,
                          baseline: seq<Resource>, proposed: seq<Resource>)
    requires UniqueKeys(baseline) && UniqueKeys(proposed) && NamesTellApart(baseline, proposed)
    requires Sound(found, seen, baseline, proposed)
    requires Candidate(c, baseline, proposed) && Identity(c) in seen && c !in taken
    requires multiset(candidates) == multiset(found) && SortedBy(candidates, NotLater) && Greedy(taken, candidates)
    ensures exists m :: m in taken && Conflict(m, c) && Earlier(m, c)
  {
    hide Offered, TextLess, KeyText, UniqueKeys;
    var i :| 0 <= i < |found| && Identity(found[i]) == Identity(c);
    IdentityIsFaithful(found[i], c, baseline, proposed);
    assert c in multiset(candidates);
    var j :| 0 <= j < |candidates| && candidates[j] == c;
    var k :| 0 <= k < j && candidates[k] in taken && Conflict(candidates[k], candidates[j]);
    var m := candidates[k];
    assert m in multiset(candidates) && m in multiset(found);
    assert NotLater(m, c);
    EarlierTotal(m, c);
    if Identity(m) == Identity(c) { IdentityIsFaithful(m, c, baseline, proposed); }
  }
}

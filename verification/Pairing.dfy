/** What pairs two resources, and in which order pairs come, told on their own fields. */
module Pairing {
  import opened Templates
  import opened Ordering
  import opened Resources
  import opened Matching
  import opened MatchingLaws

  const HEX_DIGITS := "0123456789ABCDEF"

  /** The name is a base that is not empty, followed by eight upper-case hex digits. */
  predicate HashedFrom(id: string, base: string) {
    base != "" && base <= id && |id| == |base| + 8 && forall i :: |base| <= i < |id| ==> id[i] in HEX_DIGITS
  }

  lemma HexDigitsAreUpperHex(c: char)
    ensures c in HEX_DIGITS <==> UpperHex(c)
  {
    assert HEX_DIGITS[0] == '0' && HEX_DIGITS[1] == '1' && HEX_DIGITS[2] == '2' && HEX_DIGITS[3] == '3' && HEX_DIGITS[4] == '4';
    assert HEX_DIGITS[5] == '5' && HEX_DIGITS[6] == '6' && HEX_DIGITS[7] == '7' && HEX_DIGITS[8] == '8' && HEX_DIGITS[9] == '9';
    assert HEX_DIGITS[10] == 'A' && HEX_DIGITS[11] == 'B' && HEX_DIGITS[12] == 'C' && HEX_DIGITS[13] == 'D' && HEX_DIGITS[14] == 'E';
    assert HEX_DIGITS[15] == 'F';
  }

  /** Stripping a generated suffix leaves the base, and nothing else has one. */
  lemma StripHashExactly(id: string, base: string)
    ensures StripHashSuffix(id) == Some(base) <==> HashedFrom(id, base)
    ensures StripHashSuffix(id).Some? ==> HashedFrom(id, StripHashSuffix(id).value)
  {
    hide HEX_DIGITS, UpperHex;
    forall c ensures c in HEX_DIGITS <==> UpperHex(c) { HexDigitsAreUpperHex(c); }
    if HashedFrom(id, base) { assert base == id[..|id| - 8]; }
  }

  // ----- two graphs of one resource each -----

  predicate SamePath(b: Resource, a: Resource) {
    b.constructPath.Some? && b.constructPath.value != "" && a.constructPath == b.constructPath
  }

  ghost predicate SameBase(b: Resource, a: Resource) {
    exists base :: HashedFrom(b.key.logicalId, base) && HashedFrom(a.key.logicalId, base)
  }

  ghost predicate Related(b: Resource, a: Resource) {
    && b.key.stack == a.key.stack && b.resourceType == a.resourceType
    && (SamePath(b, a) || b.key.logicalId == a.key.logicalId || SameBase(b, a))
  }

  lemma OffersExactly(b: Resource, a: Resource)
    ensures Offered(b, a, ConstructPath) <==> b.key.stack == a.key.stack && b.resourceType == a.resourceType && SamePath(b, a)
    ensures Offered(b, a, LogicalId) <==> b.key == a.key && b.resourceType == a.resourceType
    ensures Offered(b, a, Heuristic) <==> b.key.stack == a.key.stack && b.resourceType == a.resourceType && SameBase(b, a)
  {
    hide StripHashSuffix, HashedFrom;
    forall base
      ensures StripHashSuffix(b.key.logicalId) == Some(base) <==> HashedFrom(b.key.logicalId, base)
      ensures StripHashSuffix(a.key.logicalId) == Some(base) <==> HashedFrom(a.key.logicalId, base)
    {
      StripHashExactly(b.key.logicalId, base);
      StripHashExactly(a.key.logicalId, base);
    }
    StripHashExactly(b.key.logicalId, "");
  }

  function TierOf(b: Resource, a: Resource): MatchMethod {
    if SamePath(b, a) then ConstructPath else if b.key == a.key then LogicalId else Heuristic
  }

  lemma NothingIsEarlier(b: Resource, a: Resource, how: MatchMethod)
    requires Offered(b, a, how)
    ensures !Earlier(Match(b, a, how), Match(b, a, TierOf(b, a)))
  {
    hide Offered, SameBase, KeyText, TextLess;
    OffersExactly(b, a);
    TextLessIrreflexive(KeyText(b.key));
    TextLessIrreflexive(KeyText(a.key));
  }

  lemma BestTierIsTaken(b: Resource, a: Resource, taken: seq<Match>)
    requires Stable(taken, [b], [a]) && Related(b, a)
    ensures Match(b, a, TierOf(b, a)) in taken
  {
    hide Offered, OneToOne, Earlier, SamePath, SameBase;
    OffersExactly(b, a);
    assert Candidate(Match(b, a, TierOf(b, a)), [b], [a]);
    forall m | m in taken
      ensures !Earlier(m, Match(b, a, TierOf(b, a)))
    {
      assert m == Match(b, a, m.how);
      NothingIsEarlier(b, a, m.how);
    }
  }

  /** Two single resources are paired exactly when they share stack and type and, in this order,
      a construct path, a logical ID, or the base of a hashed one. */
  lemma SinglePairExactly(b: Resource, a: Resource, r: MatchResult)
    requires IsMatching([b], [a], r)
    ensures if Related(b, a) then r == MatchResult([Match(b, a, TierOf(b, a))], [], [])
            else r == MatchResult([], [b], [a])
  {
    hide Related, TierOf, Offered, Earlier, SortedBy, Stable;
    TakenFromOnePair(b, a, r.matches);
    UnmatchedOne(b, BeforeKeys(r.matches));
    UnmatchedOne(a, AfterKeys(r.matches));
    if Related(b, a) {
      BestTierIsTaken(b, a, r.matches);
      OneOfThem(r.matches, Match(b, a, TierOf(b, a)));
      assert r.matches[0] in r.matches;
      assert b.key in BeforeKeys(r.matches) && a.key in AfterKeys(r.matches);
    } else {
      forall how { UnrelatedIsNotOffered(b, a, how); }
      NoneOfThem(r.matches);
    }
  }

  lemma UnrelatedIsNotOffered(b: Resource, a: Resource, how: MatchMethod)
    ensures Offered(b, a, how) ==> Related(b, a)
  {
    hide Offered, SameBase;
    OffersExactly(b, a);
  }

  lemma TakenFromOnePair(b: Resource, a: Resource, taken: seq<Match>)
    requires Stable(taken, [b], [a])
    ensures OneToOne(taken) && forall m :: m in taken ==> m.before == b && m.after == a && Offered(b, a, m.how)
  {
    hide Offered, Earlier;
  }

  lemma NoneOfThem(taken: seq<Match>)
    ensures (forall m :: m !in taken) ==> taken == []
  {
    assert taken != [] ==> taken[0] in taken;
  }

  lemma OneOfThem(taken: seq<Match>, m: Match)
    requires OneToOne(taken) && m in taken && forall x :: x in taken ==> x.before == m.before
    ensures taken == [m]
  {
    assert forall i :: 0 <= i < |taken| ==> taken[i] in taken && Conflict(taken[i], m);
    assert forall i :: 0 <= i < |taken| ==> taken[i] == m;
    AllTheSame(taken, m);
  }

  lemma {:induction false} AllTheSame(taken: seq<Match>, m: Match)
    requires forall i :: 0 <= i < |taken| ==> taken[i] == m
    ensures multiset(taken)[m] == |taken|
  {
    if taken != [] {
      AllTheSame(taken[1..], m);
      assert taken == [m] + taken[1..];
    }
  }

  lemma UnmatchedOne(x: Resource, keys: set<ResourceKey>)
    ensures Unmatched([x], keys) == if x.key in keys then [] else [x]
  {
    assert [x][1..] == [];
  }

  // ----- in which order -----

  /** A construct path before a logical ID, a logical ID before a hashed one. */
  predicate BetterTier(x: MatchMethod, y: MatchMethod) {
    (x.ConstructPath? && !y.ConstructPath?) || (x.LogicalId? && y.Heuristic?)
  }

  /** Whatever pair a tier offers, one end is held by a match of a better tier, or of the same
      tier and no later in the order of the rendered keys. */
  lemma WinnersComeFirst(baseline: seq<Resource>, proposed: seq<Resource>, r: MatchResult, b: Resource, a: Resource, how: MatchMethod)
    requires UniqueKeys(baseline) && UniqueKeys(proposed) && IsMatching(baseline, proposed, r)
    requires b in baseline && a in proposed && Offered(b, a, how)
    ensures exists m :: m in r.matches && (m.before == b || m.after == a)
              && (BetterTier(m.how, how)
                  || (m.how == how && TextAtMost(KeyText(m.before.key), KeyText(b.key))
                      && (KeyText(m.before.key) == KeyText(b.key) ==> TextAtMost(KeyText(m.after.key), KeyText(a.key)))))
  {
    hide Offered, IsMatching, UniqueKeys, TextLess, KeyText;
    NoBlockingPair(baseline, proposed, r, b, a, how);
    var m :| m in r.matches && (m.before == b || m.after == a) && NotLater(m, Match(b, a, how));
  }

  /** The matches are listed by the stack and then the logical ID of the proposed resource. */
  lemma MatchesAreListedByKey(baseline: seq<Resource>, proposed: seq<Resource>, r: MatchResult, i: nat, j: nat)
    requires IsMatching(baseline, proposed, r) && i < j < |r.matches|
    ensures var x, y := r.matches[i].after.key, r.matches[j].after.key;
            TextAtMost(x.stack, y.stack) && (x.stack == y.stack ==> TextAtMost(x.logicalId, y.logicalId))
  {
    hide Stable, TextLess;
  }
}

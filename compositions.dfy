/** Structural analysis of a hand and play recognition
    (src/core/composition.rs; src/hand.rs:41-81 holds a second, identical copy
    of the scan and `Hand::to_play`). */
module Compositions {
  import opened Ranks
  import opened Hands
  import opened Plays
  import PlayKinds

  /** Ranks sharing one multiplicity, ascending, and whether they may form a run. */
  datatype Group = Group(ranks: seq<Rank>, consecutive: bool)

  datatype Composition = Composition(solos: Group, pairs: Group, trios: Group, fours: Group)

  const EmptyGroup := Group([], true)

  // ----- the scan -----

  /** The ranks below `n` whose count is `c`, in the order the scan meets them. */
  function RanksWithCount(counts: Counts, c: int, n: nat): seq<Rank>
    requires n <= 15
  {
    if n == 0 then []
    else RanksWithCount(counts, c, n - 1) + (if counts[n - 1] == c then [n - 1] else [])
  }

  /** The scan lists exactly the ranks with the given count, strictly ascending. */
  lemma {:induction false} RanksWithCountFacts(counts: Counts, c: int, n: nat)
    requires n <= 15
    ensures var rs := RanksWithCount(counts, c, n);
      && StrictlyIncreasing(rs)
      && (forall r :: r in rs <==> 0 <= r < n && counts[r] == c)
  {
    if n > 0 {
      var prev := RanksWithCount(counts, c, n - 1);
      RanksWithCountFacts(counts, c, n - 1);
      if counts[n - 1] == c {
        var rs := prev + [n - 1];
        forall i, j | 0 <= i < j < |rs| ensures rs[i] < rs[j] {
          assert rs[i] == prev[i] && prev[i] in prev;
          if j < |prev| {
            assert rs[j] == prev[j];
          }
        }
      } else {
        assert RanksWithCount(counts, c, n) == prev;
      }
    }
  }

  /** A group as the scan leaves it after the ranks below `n`. */
  function GroupOf(counts: Counts, c: int, n: nat): Group
    requires n <= 15
  {
    var rs := RanksWithCount(counts, c, n);
    Group(rs, IsConsecutive(rs))
  }

  function ScanUpTo(counts: Counts, n: nat): Composition
    requires n <= 15
  {
    Composition(GroupOf(counts, 1, n), GroupOf(counts, 2, n), GroupOf(counts, 3, n), GroupOf(counts, 4, n))
  }

  /** The composition of a hand. A count above four cannot be bucketed. */
  function CompositionOf(h: Hand): Composition
    requires InRange(h.counts)
  {
    ScanUpTo(h.counts, 15)
  }

  /** Append a rank to a group; the run flag drops, for good, at Two or above
      or at the first gap. */
  function UpdateGroup(g: Group, i: Rank): (u: Group)
    requires g.ranks != [] ==> g.ranks[|g.ranks| - 1] < i
    ensures u.ranks == g.ranks + [i]
    ensures g.consecutive == IsConsecutive(g.ranks) ==> u.consecutive == IsConsecutive(u.ranks)
    ensures !g.consecutive ==> !u.consecutive
  {
    var consecutive :=
      if !g.consecutive then false
      else if i >= TWO then false
      else if g.ranks != [] && i - g.ranks[|g.ranks| - 1] != 1 then false
      else true;
    ConsecutiveSnoc(g.ranks, i);
    Group(g.ranks + [i], consecutive)
  }

  /** `CompositionExt::composition`: one ascending pass over the counts. */
  method Compose(h: Hand) returns (comp: Composition)
    requires InRange(h.counts)
    ensures comp == CompositionOf(h)
  {
    var counts := h.counts;
    comp := Composition(EmptyGroup, EmptyGroup, EmptyGroup, EmptyGroup);
    for i := 0 to 15
      invariant comp == ScanUpTo(counts, i)
    {
      ScanStep(counts, i);
      match counts[i] {
        case 0 =>
        case 1 => comp := comp.(solos := UpdateGroup(comp.solos, i));
        case 2 => comp := comp.(pairs := UpdateGroup(comp.pairs, i));
        case 3 => comp := comp.(trios := UpdateGroup(comp.trios, i));
        case 4 => comp := comp.(fours := UpdateGroup(comp.fours, i));
        case _ => assert false;
      }
    }
  }

  /** One step of the scan: rank `i` joins the group of its count, after
      every rank already there, and the other groups stay as they were. */
  lemma ScanStep(counts: Counts, i: nat)
    requires i < 15
    ensures var g := GroupOf(counts, counts[i], i);
      && (g.ranks != [] ==> g.ranks[|g.ranks| - 1] < i)
      && GroupOf(counts, counts[i], i + 1) == UpdateGroup(g, i)
    ensures forall c :: c != counts[i] ==> GroupOf(counts, c, i + 1) == GroupOf(counts, c, i)
  {
    var rs := RanksWithCount(counts, counts[i], i);
    RanksWithCountFacts(counts, counts[i], i);
    if rs != [] {
      assert rs[|rs| - 1] in rs;
    }
    forall c | c != counts[i] ensures GroupOf(counts, c, i + 1) == GroupOf(counts, c, i) {
      assert RanksWithCount(counts, c, i + 1) == RanksWithCount(counts, c, i) + [];
    }
  }

  /** A group describes the ranks of multiplicity `c`: strictly ascending,
      exactly those ranks, and flagged consecutive exactly when it is a run. */
  predicate Describes(g: Group, counts: Counts, c: int) {
    && StrictlyIncreasing(g.ranks)
    && g.consecutive == IsConsecutive(g.ranks)
    && (forall r :: 0 <= r < 15 ==> (r in g.ranks <==> counts[r] == c))
  }

  /** Each rank with count 1..4 lands in exactly the group of that
      multiplicity: the four groups are disjoint and together hold every rank
      the hand has cards of. */
  lemma CompositionFacts(h: Hand)
    requires InRange(h.counts)
    ensures var comp := CompositionOf(h);
      && Describes(comp.solos, h.counts, 1) && Describes(comp.pairs, h.counts, 2)
      && Describes(comp.trios, h.counts, 3) && Describes(comp.fours, h.counts, 4)
      && Disjoint(comp.solos.ranks, comp.pairs.ranks) && Disjoint(comp.solos.ranks, comp.trios.ranks)
      && Disjoint(comp.solos.ranks, comp.fours.ranks) && Disjoint(comp.pairs.ranks, comp.trios.ranks)
      && Disjoint(comp.pairs.ranks, comp.fours.ranks) && Disjoint(comp.trios.ranks, comp.fours.ranks)
      && (forall r :: 0 <= r < 15 ==>
            (h.counts[r] != 0 <==>
               r in comp.solos.ranks || r in comp.pairs.ranks || r in comp.trios.ranks || r in comp.fours.ranks))
  {
    RanksWithCountFacts(h.counts, 1, 15);
    RanksWithCountFacts(h.counts, 2, 15);
    RanksWithCountFacts(h.counts, 3, 15);
    RanksWithCountFacts(h.counts, 4, 15);
  }

  // ----- the classifiers -----

  /** The four groups of a composition, read as the roles of a play. */
  function GroupRoles(c: Composition): Roles {
    Roles(c.solos.ranks, c.pairs.ranks, c.trios.ranks, c.fours.ranks)
  }

  function ToSolo(c: Composition): (r: Option<Play>)
    ensures r.Some? ==> r.value.Kind() == PlayKinds.Solo && RolesOf(r.value) == GroupRoles(c)
  {
    if |c.solos.ranks| == 1 && c.pairs.ranks == [] && c.trios.ranks == [] && c.fours.ranks == []
    then Some(Solo(c.solos.ranks[0])) else None
  }

  function ToChain(c: Composition): (r: Option<Play>)
    ensures r.Some? ==> r.value.Kind() == PlayKinds.Chain && RolesOf(r.value) == GroupRoles(c)
  {
    if |c.solos.ranks| >= 5 && c.solos.consecutive
       && c.pairs.ranks == [] && c.trios.ranks == [] && c.fours.ranks == []
    then Some(Chain(c.solos.ranks)) else None
  }

  function ToPair(c: Composition): (r: Option<Play>)
    ensures r.Some? ==> r.value.Kind() == PlayKinds.Pair && RolesOf(r.value) == GroupRoles(c)
  {
    if c.solos.ranks == [] && |c.pairs.ranks| == 1 && c.trios.ranks == [] && c.fours.ranks == []
    then Some(Pair(c.pairs.ranks[0])) else None
  }

  function ToPairsChain(c: Composition): (r: Option<Play>)
    ensures r.Some? ==> r.value.Kind() == PlayKinds.PairsChain && RolesOf(r.value) == GroupRoles(c)
  {
    if c.solos.ranks == [] && |c.pairs.ranks| >= 3 && c.pairs.consecutive
       && c.trios.ranks == [] && c.fours.ranks == []
    then Some(PairsChain(c.pairs.ranks)) else None
  }

  function ToTrio(c: Composition): (r: Option<Play>)
    ensures r.Some? ==> r.value.Kind() == PlayKinds.Trio && RolesOf(r.value) == GroupRoles(c)
  {
    if c.solos.ranks == [] && c.pairs.ranks == [] && |c.trios.ranks| == 1 && c.fours.ranks == []
    then Some(Trio(c.trios.ranks[0])) else None
  }

  function ToAirplane(c: Composition): (r: Option<Play>)
    ensures r.Some? ==> r.value.Kind() == PlayKinds.Airplane && RolesOf(r.value) == GroupRoles(c)
  {
    if c.solos.ranks == [] && c.pairs.ranks == [] && |c.trios.ranks| >= 2 && c.trios.consecutive
       && c.fours.ranks == []
    then Some(Airplane(c.trios.ranks)) else None
  }

  function ToTrioWithSolo(c: Composition): (r: Option<Play>)
    ensures r.Some? ==> r.value.Kind() == PlayKinds.TrioWithSolo && RolesOf(r.value) == GroupRoles(c)
  {
    if |c.solos.ranks| == 1 && c.pairs.ranks == [] && |c.trios.ranks| == 1 && c.fours.ranks == []
    then Some(TrioWithSolo(c.trios.ranks[0], c.solos.ranks[0])) else None
  }

  /** The two highest solo kickers may not be the black and the red joker. */
  function ToAirplaneWithSolos(c: Composition): (r: Option<Play>)
    ensures r.Some? ==> r.value.Kind() == PlayKinds.AirplaneWithSolos && RolesOf(r.value) == GroupRoles(c)
  {
    var s := c.solos.ranks;
    if |s| == |c.trios.ranks| && |s| >= 2
       && !(s[|s| - 1] == RED_JOKER && s[|s| - 2] == BLACK_JOKER)
       && c.pairs.ranks == [] && c.trios.consecutive && c.fours.ranks == []
    then Some(AirplaneWithSolos(c.trios.ranks, s)) else None
  }

  function ToTrioWithPair(c: Composition): (r: Option<Play>)
    ensures r.Some? ==> r.value.Kind() == PlayKinds.TrioWithPair && RolesOf(r.value) == GroupRoles(c)
  {
    if c.solos.ranks == [] && |c.pairs.ranks| == 1 && |c.trios.ranks| == 1 && c.fours.ranks == []
    then Some(TrioWithPair(c.trios.ranks[0], c.pairs.ranks[0])) else None
  }

  function ToAirplaneWithPairs(c: Composition): (r: Option<Play>)
    ensures r.Some? ==> r.value.Kind() == PlayKinds.AirplaneWithPairs && RolesOf(r.value) == GroupRoles(c)
  {
    if c.solos.ranks == [] && |c.pairs.ranks| == |c.trios.ranks| && |c.trios.ranks| >= 2
       && c.trios.consecutive && c.fours.ranks == []
    then Some(AirplaneWithPairs(c.trios.ranks, c.pairs.ranks)) else None
  }

  function ToBomb(c: Composition): (r: Option<Play>)
    ensures r.Some? ==> r.value.Kind() == PlayKinds.Bomb && RolesOf(r.value) == GroupRoles(c)
  {
    if c.solos.ranks == [] && c.pairs.ranks == [] && c.trios.ranks == [] && |c.fours.ranks| == 1
    then Some(Bomb(c.fours.ranks[0])) else None
  }

  /** The lower solo kicker may not be the black joker. */
  function ToFourWithDualSolo(c: Composition): (r: Option<Play>)
    ensures r.Some? ==> r.value.Kind() == PlayKinds.FourWithDualSolo && RolesOf(r.value) == GroupRoles(c)
  {
    if |c.solos.ranks| == 2 && c.solos.ranks[0] != BLACK_JOKER
       && c.pairs.ranks == [] && c.trios.ranks == [] && |c.fours.ranks| == 1
    then Some(FourWithDualSolo(c.fours.ranks[0], (c.solos.ranks[0], c.solos.ranks[1]))) else None
  }

  function ToFourWithDualPair(c: Composition): (r: Option<Play>)
    ensures r.Some? ==> r.value.Kind() == PlayKinds.FourWithDualPair && RolesOf(r.value) == GroupRoles(c)
  {
    if c.solos.ranks == [] && |c.pairs.ranks| == 2 && c.trios.ranks == [] && |c.fours.ranks| == 1
    then Some(FourWithDualPair(c.fours.ranks[0], (c.pairs.ranks[0], c.pairs.ranks[1]))) else None
  }

  function ToRocket(c: Composition): (r: Option<Play>)
    ensures r.Some? ==> r.value.Kind() == PlayKinds.Rocket && RolesOf(r.value) == GroupRoles(c)
  {
    if |c.solos.ranks| == 2 && c.solos.ranks[0] == BLACK_JOKER && c.solos.ranks[1] == RED_JOKER
       && c.pairs.ranks == [] && c.trios.ranks == [] && c.fours.ranks == []
    then Some(Rocket) else None
  }

  /** `to_play(kind)`: the classifier for one kind. What it returns is of that kind. */
  function ToPlay(c: Composition, kind: PlayKind): (r: Option<Play>)
    ensures r.Some? ==> r.value.Kind() == kind
  {
    match kind
    case Solo => ToSolo(c)
    case Chain => ToChain(c)
    case Pair => ToPair(c)
    case PairsChain => ToPairsChain(c)
    case Trio => ToTrio(c)
    case Airplane => ToAirplane(c)
    case TrioWithSolo => ToTrioWithSolo(c)
    case AirplaneWithSolos => ToAirplaneWithSolos(c)
    case TrioWithPair => ToTrioWithPair(c)
    case AirplaneWithPairs => ToAirplaneWithPairs(c)
    case Bomb => ToBomb(c)
    case FourWithDualSolo => ToFourWithDualSolo(c)
    case FourWithDualPair => ToFourWithDualPair(c)
    case Rocket => ToRocket(c)
  }

  /** No composition matches two classifiers. */
  lemma ClassifiersExclusive(c: Composition, k: PlayKind, j: PlayKind)
    requires ToPlay(c, k).Some? && ToPlay(c, j).Some?
    ensures k == j
  {
  }

  /** `guess_play`: the first classifier, in the source's order, that matches.
      Since at most one matches, the guess is the classifier of its own kind,
      and it is absent only when no classifier matches. */
  function GuessPlay(c: Composition): (r: Option<Play>)
    ensures r.Some? ==> ToPlay(c, r.value.Kind()) == r
    ensures forall k :: ToPlay(c, k).Some? ==> r == ToPlay(c, k)
  {
    if ToSolo(c).Some? then ToSolo(c)
    else if ToChain(c).Some? then ToChain(c)
    else if ToPair(c).Some? then ToPair(c)
    else if ToPairsChain(c).Some? then ToPairsChain(c)
    else if ToTrio(c).Some? then ToTrio(c)
    else if ToAirplane(c).Some? then ToAirplane(c)
    else if ToTrioWithSolo(c).Some? then ToTrioWithSolo(c)
    else if ToAirplaneWithSolos(c).Some? then ToAirplaneWithSolos(c)
    else if ToTrioWithPair(c).Some? then ToTrioWithPair(c)
    else if ToAirplaneWithPairs(c).Some? then ToAirplaneWithPairs(c)
    else if ToBomb(c).Some? then ToBomb(c)
    else if ToFourWithDualSolo(c).Some? then ToFourWithDualSolo(c)
    else if ToFourWithDualPair(c).Some? then ToFourWithDualPair(c)
    else if ToRocket(c).Some? then ToRocket(c)
    else None
  }

  /** `Hand::to_play`: classify a hand's composition. A recognised play uses
      exactly the cards of the hand and has a shape the game admits. */
  function HandToPlay(h: Hand): (r: Option<Play>)
    requires InRange(h.counts)
    ensures Valid(h.counts) && r.Some? ==> WellFormed(r.value) && HandOf(r.value) == h
    ensures r.None? ==> forall k :: ToPlay(CompositionOf(h), k).None?
  {
    var r := GuessPlay(CompositionOf(h));
    if Valid(h.counts) && r.Some? then
      ClassifySound(h, r.value.Kind());
      r
    else r
  }

  // ----- classification theorems -----

  /** A classifier's result uses the groups of the composition as its roles. */
  lemma ClassifiedRoles(c: Composition, k: PlayKind)
    requires ToPlay(c, k).Some?
    ensures RolesOf(ToPlay(c, k).value) == GroupRoles(c)
  {
  }

  /** The composition whose groups are the given roles, flagged as the scan flags them. */
  function RolesComposition(roles: Roles): Composition {
    Composition(
      Group(roles.solos, IsConsecutive(roles.solos)), Group(roles.pairs, IsConsecutive(roles.pairs)),
      Group(roles.trios, IsConsecutive(roles.trios)), Group(roles.fours, IsConsecutive(roles.fours)))
  }

  /** The composition of a well-formed play's hand has the play's roles as its groups. */
  lemma {:induction false} CompositionOfPlay(p: Play)
    requires WellFormed(p)
    ensures Valid(HandOf(p).counts)
    ensures CompositionOf(HandOf(p)) == RolesComposition(RolesOf(p))
  {
    HandOfValid(p);
    WellFormedRoles(p);
    var roles, counts := RolesOf(p), HandOf(p).counts;
    forall r | 0 <= r < 15 ensures
      && (r in roles.solos <==> counts[r] == 1) && (r in roles.pairs <==> counts[r] == 2)
      && (r in roles.trios <==> counts[r] == 3) && (r in roles.fours <==> counts[r] == 4)
    {
      HandOfCounts(p, r);
    }
    RoleIsGroup(counts, 1, roles.solos);
    RoleIsGroup(counts, 2, roles.pairs);
    RoleIsGroup(counts, 3, roles.trios);
    RoleIsGroup(counts, 4, roles.fours);
  }

  lemma RoleIsGroup(counts: Counts, c: int, role: seq<Rank>)
    requires StrictlyIncreasing(role)
    requires forall r :: 0 <= r < 15 ==> (r in role <==> counts[r] == c)
    ensures RanksWithCount(counts, c, 15) == role
  {
    RanksWithCountFacts(counts, c, 15);
    AscendingListingUnique(RanksWithCount(counts, c, 15), role);
  }

  /** Each well-formed play passes the guard of its own kind on its own roles. */
  lemma RecogniseOwnRoles(p: Play)
    requires WellFormed(p)
    ensures ToPlay(RolesComposition(RolesOf(p)), p.Kind()) == Some(p)
  {
    if p.TrioWithSolo? || p.AirplaneWithSolos? || p.TrioWithPair? || p.AirplaneWithPairs?
       || p.FourWithDualSolo? || p.FourWithDualPair? {
      RecogniseKicked(p);
    } else {
      RecogniseUnkicked(p);
    }
  }

  lemma RecogniseUnkicked(p: Play)
    requires WellFormed(p)
    requires p.Solo? || p.Chain? || p.Pair? || p.PairsChain? || p.Trio? || p.Airplane? || p.Bomb? || p.Rocket?
    ensures ToPlay(RolesComposition(RolesOf(p)), p.Kind()) == Some(p)
  {
  }

  lemma RecogniseKicked(p: Play)
    requires WellFormed(p)
    requires p.TrioWithSolo? || p.AirplaneWithSolos? || p.TrioWithPair? || p.AirplaneWithPairs?
      || p.FourWithDualSolo? || p.FourWithDualPair?
    ensures ToPlay(RolesComposition(RolesOf(p)), p.Kind()) == Some(p)
  {
  }

  /** Completeness: the hand of every well-formed play is a valid hand that
      the classifier of the play's kind, and the guess, recognise as that very
      play. */
  lemma ClassifyComplete(p: Play)
    requires WellFormed(p)
    ensures Valid(HandOf(p).counts)
    ensures ToPlay(CompositionOf(HandOf(p)), p.Kind()) == Some(p)
    ensures GuessPlay(CompositionOf(HandOf(p))) == Some(p)
  {
    CompositionOfPlay(p);
    RecogniseOwnRoles(p);
  }

  /** The play a classifier recognises in a hand with counts 0..4 uses exactly
      the cards of that hand. */
  lemma ClassifiedHand(h: Hand, k: PlayKind)
    requires InRange(h.counts)
    requires ToPlay(CompositionOf(h), k).Some?
    ensures HandOf(ToPlay(CompositionOf(h), k).value) == h
  {
    var comp := CompositionOf(h);
    var p := ToPlay(comp, k).value;
    CompositionFacts(h);
    ClassifiedRoles(comp, k);
    forall r | 0 <= r < 15 ensures HandOf(p).counts[r] == h.counts[r] {
      HandOfCounts(p, r);
    }
    assert HandOf(p).counts == h.counts;
  }

  predicate BelowJokers(s: seq<Rank>) {
    forall i :: 0 <= i < |s| ==> s[i] < BLACK_JOKER
  }

  predicate WellGrouped(g: Group) {
    StrictlyIncreasing(g.ranks) && g.consecutive == IsConsecutive(g.ranks)
  }

  /** What the groups of a valid hand's composition look like, stated without
      the counts: ascending, truthfully flagged, jokers only among the solos,
      and no rank both a primal and a kicker. */
  predicate Shaped(c: Composition) {
    && WellGrouped(c.solos) && WellGrouped(c.pairs) && WellGrouped(c.trios) && WellGrouped(c.fours)
    && BelowJokers(c.pairs.ranks) && BelowJokers(c.trios.ranks) && BelowJokers(c.fours.ranks)
    && Disjoint(c.solos.ranks, c.trios.ranks) && Disjoint(c.pairs.ranks, c.trios.ranks)
    && Disjoint(c.solos.ranks, c.fours.ranks) && Disjoint(c.pairs.ranks, c.fours.ranks)
  }

  /** A valid hand's composition is shaped: a joker has at most one card, so
      it is never in a pair, trio or four. */
  lemma ValidIsShaped(h: Hand)
    requires Valid(h.counts)
    ensures Shaped(CompositionOf(h))
  {
    var comp := CompositionOf(h);
    CompositionFacts(h);
    forall i | 0 <= i < |comp.pairs.ranks| ensures comp.pairs.ranks[i] < BLACK_JOKER {
      assert comp.pairs.ranks[i] in comp.pairs.ranks;
    }
    forall i | 0 <= i < |comp.trios.ranks| ensures comp.trios.ranks[i] < BLACK_JOKER {
      assert comp.trios.ranks[i] in comp.trios.ranks;
    }
    forall i | 0 <= i < |comp.fours.ranks| ensures comp.fours.ranks[i] < BLACK_JOKER {
      assert comp.fours.ranks[i] in comp.fours.ranks;
    }
  }

  /** Whatever a classifier accepts from a shaped composition is well formed. */
  lemma ShapedWellFormed(c: Composition, k: PlayKind)
    requires Shaped(c)
    requires ToPlay(c, k).Some?
    ensures WellFormed(ToPlay(c, k).value)
  {
    var s, q := c.solos.ranks, c.pairs.ranks;
    match k
    case TrioWithSolo => assert s[0] in s;
    case TrioWithPair => assert q[0] in q;
    case FourWithDualSolo => assert s[0] in s && s[1] in s;
    case FourWithDualPair => assert q[0] in q && q[1] in q;
    case _ =>
  }

  /** The play a classifier recognises in a valid hand has a shape the game admits. */
  lemma ClassifiedWellFormed(h: Hand, k: PlayKind)
    requires Valid(h.counts)
    requires ToPlay(CompositionOf(h), k).Some?
    ensures WellFormed(ToPlay(CompositionOf(h), k).value)
  {
    ValidIsShaped(h);
    ShapedWellFormed(CompositionOf(h), k);
  }

  /** Soundness: whatever a classifier recognises in a valid hand is a
      well-formed play of the requested kind whose cards are exactly the hand. */
  lemma ClassifySound(h: Hand, k: PlayKind)
    requires Valid(h.counts)
    requires ToPlay(CompositionOf(h), k).Some?
    ensures var p := ToPlay(CompositionOf(h), k).value;
      p.Kind() == k && WellFormed(p) && HandOf(p) == h
  {
    ClassifiedHand(h, k);
    ClassifiedWellFormed(h, k);
  }

  /** Four cards of one ordinary rank classify as a bomb and as nothing else. */
  lemma FourOfAKindIsOnlyABomb(r: Rank, k: PlayKind)
    requires r < BLACK_JOKER
    ensures GuessPlay(CompositionOf(HandOf(Bomb(r)))) == Some(Bomb(r))
    ensures k != PlayKinds.Bomb ==> ToPlay(CompositionOf(HandOf(Bomb(r))), k) == None
  {
    ClassifyComplete(Bomb(r));
    if ToPlay(CompositionOf(HandOf(Bomb(r))), k).Some? {
      ClassifiersExclusive(CompositionOf(HandOf(Bomb(r))), k, PlayKinds.Bomb);
    }
  }

  /** The kickers recognised from a valid hand never conceal the rocket:
      airplane solos do not hold both jokers, and the two solos of a four
      are not both jokers. */
  lemma NoRocketInKickers(h: Hand, k: PlayKind)
    requires Valid(h.counts)
    requires ToPlay(CompositionOf(h), k).Some?
    ensures var p := ToPlay(CompositionOf(h), k).value;
      && (p.AirplaneWithSolos? ==> !(BLACK_JOKER in p.solos && RED_JOKER in p.solos))
      && (p.FourWithDualSolo? ==> !(IsJoker(p.dualSolo.0) && IsJoker(p.dualSolo.1)))
  {
    var p := ToPlay(CompositionOf(h), k).value;
    ClassifiedWellFormed(h, k);
    if p.AirplaneWithSolos? && BLACK_JOKER in p.solos && RED_JOKER in p.solos {
      JokersLast(p.solos);
      assert false;
    }
  }
}

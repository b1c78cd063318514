/** The category of a play without its payload, and the partial order on
    categories (src/play.rs, `PlayKind`). */
module PlayKinds {
  import opened Ranks

  datatype PlayKind =
    | Solo | Chain | Pair | PairsChain | Trio | Airplane
    | TrioWithSolo | AirplaneWithSolos | TrioWithPair | AirplaneWithPairs
    | Bomb | FourWithDualSolo | FourWithDualPair | Rocket

  /** Only a bomb or the rocket can beat a play of another category. */
  function KindLevel(k: PlayKind): (n: nat)
    ensures n <= 2
    ensures n == 2 <==> k == Rocket
    ensures n == 1 <==> k == Bomb
  {
    match k
    case Bomb => 1
    case Rocket => 2
    case _ => 0
  }

  /** Categories whose primal part is a run of ranks of any length. */
  predicate IsChainLike(k: PlayKind) {
    k == Chain || k == PairsChain || k == Airplane || k == AirplaneWithSolos || k == AirplaneWithPairs
  }

  /** `PartialOrd for PlayKind`. */
  function KindPartialCmp(a: PlayKind, b: PlayKind): (o: Option<Ordering>)
    ensures o == Some(Equal) <==> a == b
    ensures o == None <==> a != b && KindLevel(a) == KindLevel(b)
    ensures o == Some(Greater) <==> KindLevel(a) > KindLevel(b)
    ensures o == Some(Less) <==> KindLevel(a) < KindLevel(b)
  {
    if a == b then Some(Equal)
    else if KindLevel(a) == KindLevel(b) then None
    else Some(Compare(KindLevel(a), KindLevel(b)))
  }

  /** Swapping the operands reverses the answer. */
  lemma KindPartialCmpReverse(a: PlayKind, b: PlayKind)
    ensures KindPartialCmp(b, a) == ReverseOpt(KindPartialCmp(a, b))
  {
  }

  /** The rocket is above the bomb, which is above every other category, and
      two different ordinary categories are incomparable. */
  lemma KindHierarchy(k: PlayKind, j: PlayKind)
    ensures k != Rocket ==> KindPartialCmp(Rocket, k) == Some(Greater)
    ensures k != Rocket && k != Bomb ==> KindPartialCmp(Bomb, k) == Some(Greater)
    ensures k != j && KindLevel(k) == 0 && KindLevel(j) == 0 ==> KindPartialCmp(k, j) == None
  {
  }
}

/** Plays, their reverse mapping to hands, and the partial order that decides
    which play beats which (src/play.rs). */
module Plays {
  import opened Ranks
  import opened Hands
  import PlayKinds

  type PlayKind = PlayKinds.PlayKind

  datatype Play =
    | Solo(rank: Rank)
    | Chain(ranks: seq<Rank>)
    | Pair(rank: Rank)
    | PairsChain(ranks: seq<Rank>)
    | Trio(rank: Rank)
    | Airplane(ranks: seq<Rank>)
    | TrioWithSolo(trio: Rank, solo: Rank)
    | AirplaneWithSolos(airplane: seq<Rank>, solos: seq<Rank>)
    | TrioWithPair(trio: Rank, pair: Rank)
    | AirplaneWithPairs(airplane: seq<Rank>, pairs: seq<Rank>)
    | Bomb(rank: Rank)
    | FourWithDualSolo(four: Rank, dualSolo: (Rank, Rank))
    | FourWithDualPair(four: Rank, dualPair: (Rank, Rank))
    | Rocket
  {
    /** The category of the play: each variant maps to the kind of the same name. */
    function Kind(): (k: PlayKind)
      ensures k == PlayKinds.Rocket <==> this.Rocket?
      ensures k == PlayKinds.Bomb <==> this.Bomb?
      ensures PlayKinds.IsChainLike(k) <==>
        this.Chain? || this.PairsChain? || this.Airplane? || this.AirplaneWithSolos? || this.AirplaneWithPairs?
    {
      match this
      case Solo(_) => PlayKinds.Solo
      case Chain(_) => PlayKinds.Chain
      case Pair(_) => PlayKinds.Pair
      case PairsChain(_) => PlayKinds.PairsChain
      case Trio(_) => PlayKinds.Trio
      case Airplane(_) => PlayKinds.Airplane
      case TrioWithSolo(_, _) => PlayKinds.TrioWithSolo
      case AirplaneWithSolos(_, _) => PlayKinds.AirplaneWithSolos
      case TrioWithPair(_, _) => PlayKinds.TrioWithPair
      case AirplaneWithPairs(_, _) => PlayKinds.AirplaneWithPairs
      case Bomb(_) => PlayKinds.Bomb
      case FourWithDualSolo(_, _) => PlayKinds.FourWithDualSolo
      case FourWithDualPair(_, _) => PlayKinds.FourWithDualPair
      case Rocket => PlayKinds.Rocket
    }
  }

  /** The ranks of a play grouped by how many cards of each it uses. */
  datatype Roles = Roles(solos: seq<Rank>, pairs: seq<Rank>, trios: seq<Rank>, fours: seq<Rank>)

  function RolesOf(p: Play): Roles {
    match p
    case Solo(r) => Roles([r], [], [], [])
    case Chain(rs) => Roles(rs, [], [], [])
    case Pair(r) => Roles([], [r], [], [])
    case PairsChain(rs) => Roles([], rs, [], [])
    case Trio(r) => Roles([], [], [r], [])
    case Airplane(rs) => Roles([], [], rs, [])
    case TrioWithSolo(t, s) => Roles([s], [], [t], [])
    case AirplaneWithSolos(a, s) => Roles(s, [], a, [])
    case TrioWithPair(t, q) => Roles([], [q], [t], [])
    case AirplaneWithPairs(a, q) => Roles([], q, a, [])
    case Bomb(r) => Roles([], [], [], [r])
    case FourWithDualSolo(f, ds) => Roles([ds.0, ds.1], [], [], [f])
    case FourWithDualPair(f, dp) => Roles([], [dp.0, dp.1], [], [f])
    case Rocket => Roles([BLACK_JOKER, RED_JOKER], [], [], [])
  }

  /** The shapes the game admits, stated on the payload: runs are consecutive
      and long enough, kickers are distinct from the primal ranks and from each
      other and listed in ascending order, no joker is used twice, and the
      kickers never hide the rocket. */
  predicate WellFormed(p: Play) {
    match p
    case Solo(r) => true
    case Chain(rs) => |rs| >= 5 && IsConsecutive(rs)
    case Pair(r) => r < BLACK_JOKER
    case PairsChain(rs) => |rs| >= 3 && IsConsecutive(rs)
    case Trio(r) => r < BLACK_JOKER
    case Airplane(rs) => |rs| >= 2 && IsConsecutive(rs)
    case TrioWithSolo(t, s) => t < BLACK_JOKER && s != t
    case AirplaneWithSolos(a, s) =>
      && |a| >= 2 && IsConsecutive(a) && |s| == |a| && StrictlyIncreasing(s) && Disjoint(s, a)
      && !(s[|s| - 2] == BLACK_JOKER && s[|s| - 1] == RED_JOKER)
    case TrioWithPair(t, q) => t < BLACK_JOKER && q < BLACK_JOKER && q != t
    case AirplaneWithPairs(a, q) =>
      && |a| >= 2 && IsConsecutive(a) && |q| == |a| && StrictlyIncreasing(q) && Disjoint(q, a)
      && (forall i :: 0 <= i < |q| ==> q[i] < BLACK_JOKER)
    case Bomb(r) => r < BLACK_JOKER
    case FourWithDualSolo(f, ds) =>
      f < BLACK_JOKER && ds.0 < ds.1 && ds.0 != BLACK_JOKER && ds.0 != f && ds.1 != f
    case FourWithDualPair(f, dp) =>
      f < BLACK_JOKER && dp.0 < dp.1 < BLACK_JOKER && dp.0 != f && dp.1 != f
    case Rocket => true
  }

  /** `counts` with every rank of `ranks` set to `v`. */
  function Assign(counts: Counts, ranks: seq<Rank>, v: Byte): (c: Counts)
    ensures forall r :: 0 <= r < 15 ==> c[r] == if r in ranks then v else counts[r]
  {
    seq(15, r requires 0 <= r < 15 => if r in ranks then v else counts[r])
  }

  /** The cards of a play as a hand: each role's ranks get that role's
      multiplicity, writing the primal ranks before the kickers. */
  function HandOf(p: Play): (h: Hand)
    ensures InRange(h.counts)
    ensures forall r :: 0 <= r < 15 ==>
      (h.counts[r] != 0 <==>
         r in RolesOf(p).solos || r in RolesOf(p).pairs || r in RolesOf(p).trios || r in RolesOf(p).fours)
  {
    var roles := RolesOf(p);
    Hand(Assign(Assign(Assign(Assign(Zeros(), roles.fours, 4), roles.trios, 3), roles.pairs, 2), roles.solos, 1))
  }

  /** `to_hand`: a rank used by the play gets the multiplicity of the role it
      plays (the kicker role when it plays two), and every other rank gets 0. */
  lemma HandOfCounts(p: Play, r: Rank)
    ensures var roles, c := RolesOf(p), HandOf(p).counts[r];
      && (r in roles.solos ==> c == 1)
      && (r !in roles.solos && r in roles.pairs ==> c == 2)
      && (r !in roles.solos && r !in roles.pairs && r in roles.trios ==> c == 3)
      && (r !in roles.solos && r !in roles.pairs && r !in roles.trios && r in roles.fours ==> c == 4)
      && (c == 0 <==> r !in roles.solos && r !in roles.pairs && r !in roles.trios && r !in roles.fours)
  {
  }

  /** The roles of a well-formed play are pairwise disjoint, each is listed in
      ascending order, and no joker appears with multiplicity above one. */
  predicate ProperRoles(roles: Roles) {
    && StrictlyIncreasing(roles.solos) && StrictlyIncreasing(roles.pairs)
    && StrictlyIncreasing(roles.trios) && StrictlyIncreasing(roles.fours)
    && Disjoint(roles.solos, roles.pairs) && Disjoint(roles.solos, roles.trios)
    && Disjoint(roles.solos, roles.fours) && Disjoint(roles.pairs, roles.trios)
    && Disjoint(roles.pairs, roles.fours) && Disjoint(roles.trios, roles.fours)
    && (forall r :: r in roles.pairs ==> r < BLACK_JOKER)
    && (forall r :: r in roles.trios ==> r < BLACK_JOKER)
    && (forall r :: r in roles.fours ==> r < BLACK_JOKER)
  }

  lemma {:induction false} WellFormedRoles(p: Play)
    requires WellFormed(p)
    ensures ProperRoles(RolesOf(p))
  {
    match p
    case Chain(rs) => ConsecutiveIsIncreasing(rs);
    case PairsChain(rs) => ConsecutiveIsIncreasing(rs);
    case Airplane(rs) => ConsecutiveIsIncreasing(rs);
    case AirplaneWithSolos(a, s) => ConsecutiveIsIncreasing(a);
    case AirplaneWithPairs(a, q) => ConsecutiveIsIncreasing(a);
    case _ =>
  }

  /** The hand of a well-formed play is a valid hand. */
  lemma {:induction false} HandOfValid(p: Play)
    requires WellFormed(p)
    ensures Valid(HandOf(p).counts)
  {
    WellFormedRoles(p);
    var roles := RolesOf(p);
    forall r | 0 <= r < 15 ensures HandOf(p).counts[r] <= Limit(r) {
      HandOfCounts(p, r);
      if IsJoker(r) {
        assert r !in roles.pairs && r !in roles.trios && r !in roles.fours;
      }
    }
  }

  /** A bomb's hand holds exactly four cards. */
  lemma BombHasFourCards(r: Rank)
    ensures CardTotal(HandOf(Bomb(r)).counts) == 4
  {
    var c := HandOf(Bomb(r)).counts;
    forall q | 0 <= q < 15 ensures c[q] == (if q == r then 4 else 0) {
      HandOfCounts(Bomb(r), q);
    }
    SingleRankTotal(c, r, 15);
    assert c[..15] == c;
  }

  /** The rocket's hand is one black joker and one red joker. */
  lemma RocketIsTheJokers()
    ensures forall q :: 0 <= q < 15 ==> HandOf(Rocket).counts[q] == if IsJoker(q) then 1 else 0
    ensures CardTotal(HandOf(Rocket).counts) == 2
  {
    var c := HandOf(Rocket).counts;
    forall q | 0 <= q < 15 ensures c[q] == if IsJoker(q) then 1 else 0 {
      HandOfCounts(Rocket, q);
    }
    ZeroPrefixTotal(c, BLACK_JOKER);
    assert c[..14] == c[..13] + [c[13]];
    assert c[..15] == c[..14] + [c[14]];
    assert c == c[..15];
  }

  lemma {:induction false} SingleRankTotal(c: Counts, r: Rank, n: nat)
    requires n <= 15
    requires forall q :: 0 <= q < 15 && q != r ==> c[q] == 0
    ensures CardTotal(c[..n]) == if r < n then c[r] else 0
  {
    if n > 0 {
      assert c[..n][..n - 1] == c[..n - 1];
      SingleRankTotal(c, r, n - 1);
    }
  }

  lemma {:induction false} ZeroPrefixTotal(c: Counts, n: nat)
    requires n <= 15
    requires forall q :: 0 <= q < n ==> c[q] == 0
    ensures CardTotal(c[..n]) == 0
  {
    if n > 0 {
      assert c[..n][..n - 1] == c[..n - 1];
      ZeroPrefixTotal(c, n - 1);
    }
  }

  /** `counts[rank] = count`, one rank of a play. */
  method Solitary(counts: array<Byte>, rank: Rank, count: Byte)
    requires counts.Length == 15
    modifies counts
    ensures counts[..] == Assign(old(counts[..]), [rank], count)
  {
    counts[rank] := count;
  }

  /** `for rank in ranks { counts[rank] = count }`, a run of a play. */
  method Multiple(counts: array<Byte>, ranks: seq<Rank>, count: Byte)
    requires counts.Length == 15
    modifies counts
    ensures counts[..] == Assign(old(counts[..]), ranks, count)
  {
    for k := 0 to |ranks|
      invariant forall r :: 0 <= r < 15 ==> counts[r] == if r in ranks[..k] then count else old(counts[r])
    {
      counts[ranks[k]] := count;
      assert ranks[..k + 1] == ranks[..k] + [ranks[k]];
    }
    assert ranks[..|ranks|] == ranks;
  }

  /** `Guard<Play>::to_hand`: fill a zeroed count array from the payload. */
  method ToHand(p: Play) returns (h: Hand)
    ensures h == HandOf(p)
  {
    var counts := new Byte[15](_ => 0);
    assert counts[..] == Zeros();
    match p {
      case Solo(r) => Solitary(counts, r, 1);
      case Chain(rs) => Multiple(counts, rs, 1);
      case Pair(r) => Solitary(counts, r, 2);
      case PairsChain(rs) => Multiple(counts, rs, 2);
      case Trio(r) => Solitary(counts, r, 3);
      case Airplane(rs) => Multiple(counts, rs, 3);
      case TrioWithSolo(t, s) =>
        Solitary(counts, t, 3);
        Solitary(counts, s, 1);
      case AirplaneWithSolos(a, s) =>
        Multiple(counts, a, 3);
        Multiple(counts, s, 1);
      case TrioWithPair(t, q) =>
        Solitary(counts, t, 3);
        Solitary(counts, q, 2);
      case AirplaneWithPairs(a, q) =>
        Multiple(counts, a, 3);
        Multiple(counts, q, 2);
      case Bomb(r) => Solitary(counts, r, 4);
      case FourWithDualSolo(f, ds) =>
        Solitary(counts, f, 4);
        Multiple(counts, [ds.0, ds.1], 1);
      case FourWithDualPair(f, dp) =>
        Solitary(counts, f, 4);
        Multiple(counts, [dp.0, dp.1], 2);
      case Rocket =>
        counts[BLACK_JOKER] := 1;
        counts[RED_JOKER] := 1;
    }
    h := Hand(counts[..]);
  }

  // ----- ordering -----

  function Level(p: Play): nat {
    PlayKinds.KindLevel(p.Kind())
  }

  /** The ranks a comparison looks at: the single primal rank, or the primal
      run of a chain-like play. Kickers never take part. */
  function Primal(p: Play): seq<Rank> {
    match p
    case Solo(r) => [r]
    case Chain(rs) => rs
    case Pair(r) => [r]
    case PairsChain(rs) => rs
    case Trio(r) => [r]
    case Airplane(rs) => rs
    case TrioWithSolo(t, _) => [t]
    case AirplaneWithSolos(a, _) => a
    case TrioWithPair(t, _) => [t]
    case AirplaneWithPairs(a, _) => a
    case Bomb(r) => [r]
    case FourWithDualSolo(f, _) => [f]
    case FourWithDualPair(f, _) => [f]
    case Rocket => []
  }

  /** The comparison reads the first primal rank of two chain-like plays of
      the same kind and length, so that run must not be empty. */
  predicate PrimalsIndexable(a: Play, b: Play) {
    a.Kind() == b.Kind() && PlayKinds.IsChainLike(a.Kind()) && |Primal(a)| == |Primal(b)| ==> |Primal(a)| > 0
  }

  /** `PartialOrd for Guard<Play>`: plays of different kinds are ordered by
      level (rocket, bomb, everything else) and are incomparable on a tie;
      plays of the same kind are ordered by their lowest primal rank, and
      chain-like ones only when their runs have the same length. */
  function PartialCmp(a: Play, b: Play): (o: Option<Ordering>)
    requires PrimalsIndexable(a, b)
    ensures a.Kind() != b.Kind() ==> o == PlayKinds.KindPartialCmp(a.Kind(), b.Kind())
    ensures a.Rocket? && b.Rocket? ==> o == Some(Equal)
    ensures a.Kind() == b.Kind() && |Primal(a)| != |Primal(b)| ==> o == None
    ensures a.Kind() == b.Kind() && !a.Rocket? && |Primal(a)| == |Primal(b)| ==>
      |Primal(a)| > 0 && o == Some(Compare(Primal(a)[0], Primal(b)[0]))
  {
    if a.Kind() != b.Kind() then
      if Level(a) == Level(b) then None else Some(Compare(Level(a), Level(b)))
    else if a.Rocket? then Some(Equal)
    else if |Primal(a)| == |Primal(b)| then Some(Compare(Primal(a)[0], Primal(b)[0]))
    else None
  }

  /** `PartialEq for Guard<Play>`: two plays are equal exactly when they have
      the same kind and the same primal part, as far as the comparison reads
      it; kickers are ignored. */
  function PlayEq(a: Play, b: Play): (eq: bool)
    requires PrimalsIndexable(a, b)
    ensures eq <==>
      && a.Kind() == b.Kind()
      && (a.Rocket? || (|Primal(a)| == |Primal(b)| && Primal(a)[0] == Primal(b)[0]))
  {
    PartialCmp(a, b) == Some(Equal)
  }

  lemma SinglePrimal(p: Play)
    requires !PlayKinds.IsChainLike(p.Kind()) && !p.Rocket?
    ensures |Primal(p)| == 1
  {
  }

  /** Swapping the operands reverses the answer. */
  lemma PartialCmpReverse(a: Play, b: Play)
    requires PrimalsIndexable(a, b)
    ensures PrimalsIndexable(b, a)
    ensures PartialCmp(b, a) == ReverseOpt(PartialCmp(a, b))
  {
  }

  /** Two plays of one kind: single-rank kinds compare by their primal rank
      whatever the kickers, and chain-like kinds compare by their lowest
      primal rank when the runs have the same length and are incomparable
      otherwise. */
  lemma SameKindCompare(a: Play, b: Play)
    requires a.Kind() == b.Kind() && PrimalsIndexable(a, b)
    ensures !PlayKinds.IsChainLike(a.Kind()) && !a.Rocket? ==>
      |Primal(a)| == |Primal(b)| == 1 && PartialCmp(a, b) == Some(Compare(Primal(a)[0], Primal(b)[0]))
    ensures PlayKinds.IsChainLike(a.Kind()) && |Primal(a)| != |Primal(b)| ==> PartialCmp(a, b) == None
    ensures PlayKinds.IsChainLike(a.Kind()) && |Primal(a)| == |Primal(b)| ==>
      PartialCmp(a, b) == Some(Compare(Primal(a)[0], Primal(b)[0]))
  {
    if !PlayKinds.IsChainLike(a.Kind()) && !a.Rocket? {
      SinglePrimal(a);
      SinglePrimal(b);
    }
  }

  /** Payload examples of the same-kind rule: a trio with a solo compares by
      its trio alone, and airplanes of different lengths are incomparable. */
  lemma KickersIgnored(t: Rank, s: Rank, u: Rank, v: Rank, xs: seq<Rank>, ys: seq<Rank>)
    ensures PartialCmp(TrioWithSolo(t, s), TrioWithSolo(u, v)) == Some(Compare(t, u))
    ensures |xs| != |ys| ==> PartialCmp(Airplane(xs), Airplane(ys)) == None
  {
  }

  /** Two plays of the same variant have the same kind and conversely, so
      comparing kinds is comparing the variant discriminants. */
  lemma KindIsDiscriminant(a: Play, b: Play)
    ensures a.Kind() == b.Kind() <==>
      || (a.Solo? && b.Solo?) || (a.Chain? && b.Chain?) || (a.Pair? && b.Pair?)
      || (a.PairsChain? && b.PairsChain?) || (a.Trio? && b.Trio?) || (a.Airplane? && b.Airplane?)
      || (a.TrioWithSolo? && b.TrioWithSolo?) || (a.AirplaneWithSolos? && b.AirplaneWithSolos?)
      || (a.TrioWithPair? && b.TrioWithPair?) || (a.AirplaneWithPairs? && b.AirplaneWithPairs?)
      || (a.Bomb? && b.Bomb?) || (a.FourWithDualSolo? && b.FourWithDualSolo?)
      || (a.FourWithDualPair? && b.FourWithDualPair?) || (a.Rocket? && b.Rocket?)
  {
  }

  /** The rocket beats every other play; a bomb beats every play that is
      neither a bomb nor the rocket; bombs are ordered by rank. */
  lemma RocketAndBombs(b: Play, x: Rank, y: Rank)
    requires PrimalsIndexable(Rocket, b) && PrimalsIndexable(Bomb(x), b)
    ensures !b.Rocket? ==> PartialCmp(Rocket, b) == Some(Greater)
    ensures Level(b) == 0 ==> PartialCmp(Bomb(x), b) == Some(Greater)
    ensures PartialCmp(Bomb(x), Bomb(y)) == Some(Compare(x, y))
  {
  }

  /** Plays of two different ordinary kinds cannot be compared. */
  lemma DifferentOrdinaryKindsIncomparable(a: Play, b: Play)
    requires a.Kind() != b.Kind() && Level(a) == 0 && Level(b) == 0
    ensures PrimalsIndexable(a, b) && PartialCmp(a, b) == None
  {
  }

  /** Across kinds, plays compare exactly as their kinds do. */
  lemma CrossKindAgreesWithKinds(a: Play, b: Play)
    requires a.Kind() != b.Kind()
    ensures PrimalsIndexable(a, b)
    ensures PartialCmp(a, b) == PlayKinds.KindPartialCmp(a.Kind(), b.Kind())
  {
  }

  /** "Beats" is transitive. */
  lemma PartialCmpTransitive(a: Play, b: Play, c: Play)
    requires PrimalsIndexable(a, b) && PrimalsIndexable(b, c) && PrimalsIndexable(a, c)
    requires PartialCmp(a, b) == Some(Less) && PartialCmp(b, c) == Some(Less)
    ensures PartialCmp(a, c) == Some(Less)
  {
  }
}

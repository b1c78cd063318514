/** The constant hand builder behind the hand macros (src/__private/hand.rs):
    a list of (rank, count) specs becomes a hand, refusing a rank named twice,
    a joker named with more than one card, and any count above four. The
    source stops constant evaluation with a panic; here the failure is an
    error value naming the offending rank. */
module Builder {
  import opened Ranks
  import Hands

  /** One `rank: count` entry of the macro. */
  datatype Spec = Spec(rank: Rank, count: Byte)

  datatype BuildError =
    | Duplicate(rank: Rank)
    | MoreThanOne(rank: Rank)
    | MoreThanFour(rank: Rank)

  /** The ranks the specs name, in order. */
  function RanksOf(specs: seq<Spec>): (rs: seq<Rank>)
    ensures |rs| == |specs|
    ensures forall j :: 0 <= j < |specs| ==> rs[j] == specs[j].rank
  {
    seq(|specs|, j requires 0 <= j < |specs| => specs[j].rank)
  }

  /** The check a spec fails, given the specs before it: a rank already
      named, then a joker with more than one card, then more than four. */
  function SpecError(s: Spec, before: seq<Spec>): (e: Option<BuildError>)
    ensures e.Some? <==> s.rank in RanksOf(before) || (IsJoker(s.rank) && s.count > 1) || s.count > 4
    ensures e.Some? ==> e.value.rank == s.rank
  {
    if s.rank in RanksOf(before) then Some(Duplicate(s.rank))
    else if s.count > 1 && (s.rank == BLACK_JOKER || s.rank == RED_JOKER) then Some(MoreThanOne(s.rank))
    else if s.count > 4 then Some(MoreThanFour(s.rank))
    else None
  }

  /** Every spec passes its checks. */
  predicate AllPass(specs: seq<Spec>) {
    forall j :: 0 <= j < |specs| ==> SpecError(specs[j], specs[..j]).None?
  }

  /** What `from_specs` yields: specs are taken in order, the first failing
      one decides the error, and otherwise each count is stored at its rank
      over an all-zero hand. */
  function Build(specs: seq<Spec>): (r: Result<Hands.Hand, BuildError>)
    ensures r.Ok? <==> AllPass(specs)
    ensures r.Ok? ==> Hands.Valid(r.value.counts)
    ensures r.Ok? ==> forall j :: 0 <= j < |specs| ==> r.value.counts[specs[j].rank] == specs[j].count
    ensures r.Ok? ==> forall q :: 0 <= q < 15 && q !in RanksOf(specs) ==> r.value.counts[q] == 0
    ensures r.Err? ==>
      exists j :: 0 <= j < |specs| && SpecError(specs[j], specs[..j]) == Some(r.error) && AllPass(specs[..j])
    decreases |specs|
  {
    if specs == [] then Ok(Hands.Hand(Hands.Zeros()))
    else
      var n := |specs| - 1;
      var prefix := specs[..n];
      PrefixFacts(specs, n);
      match Build(prefix)
      case Err(e) => Err(e)
      case Ok(h) =>
        match SpecError(specs[n], prefix)
        case Some(e) => Err(e)
        case None => Ok(Hands.Hand(h.counts[specs[n].rank := specs[n].count]))
  }

  /** The prefixes of a prefix, and its named ranks. */
  lemma PrefixFacts(specs: seq<Spec>, n: nat)
    requires n <= |specs|
    ensures forall j :: 0 <= j <= n ==> specs[..n][..j] == specs[..j]
    ensures AllPass(specs[..n]) <==> forall j :: 0 <= j < n ==> SpecError(specs[j], specs[..j]).None?
    ensures n < |specs| ==> RanksOf(specs[..n + 1]) == RanksOf(specs[..n]) + [specs[n].rank]
  {
    if n < |specs| {
      assert RanksOf(specs[..n + 1]) == RanksOf(specs[..n]) + [specs[n].rank];
    }
  }

  /** `from_specs`: fill a zeroed count array and a `specified` bitmap spec
      by spec, stopping at the first spec that fails. */
  method FromSpecs(specs: seq<Spec>) returns (r: Result<Hands.Hand, BuildError>)
    ensures r == Build(specs)
  {
    var counts := new Byte[15](_ => 0);
    var specified := new bool[15](_ => false);
    assert counts[..] == Hands.Zeros();
    var i := 0;
    while i < |specs|
      invariant 0 <= i <= |specs|
      invariant Build(specs[..i]) == Ok(Hands.Hand(counts[..]))
      invariant forall q :: 0 <= q < 15 ==> (specified[q] <==> q in RanksOf(specs[..i]))
    {
      var s := specs[i];
      PrefixFacts(specs, i);
      if specified[s.rank] {
        BuildStops(specs, i);
        return Err(Duplicate(s.rank));
      }
      if s.count > 1 {
        if s.rank == BLACK_JOKER || s.rank == RED_JOKER {
          BuildStops(specs, i);
          return Err(MoreThanOne(s.rank));
        }
      }
      if s.count > 4 {
        BuildStops(specs, i);
        return Err(MoreThanFour(s.rank));
      }
      assert specs[..i + 1][..i] == specs[..i];
      counts[s.rank] := s.count;
      specified[s.rank] := true;
      i := i + 1;
    }
    assert specs[..i] == specs;
    return Ok(Hands.Hand(counts[..]));
  }

  /** A failing spec after a passing prefix decides the whole build. */
  lemma BuildStops(specs: seq<Spec>, i: nat)
    requires i < |specs|
    requires Build(specs[..i]).Ok?
    requires SpecError(specs[i], specs[..i]).Some?
    ensures Build(specs) == Err(SpecError(specs[i], specs[..i]).value)
  {
    assert specs[..i + 1][..i] == specs[..i];
    BuildExtends(specs, i + 1);
  }

  /** Once a prefix has failed, appending specs keeps its error. */
  lemma {:induction false} BuildExtends(specs: seq<Spec>, n: nat)
    requires n <= |specs|
    requires Build(specs[..n]).Err?
    ensures Build(specs) == Build(specs[..n])
    decreases |specs| - n
  {
    if n < |specs| {
      var m := n + 1;
      assert specs[..m][..n] == specs[..n];
      assert Build(specs[..m]) == Build(specs[..n]);
      BuildExtends(specs, m);
    } else {
      assert specs[..n] == specs;
    }
  }

  /** A rank named twice makes the build fail. */
  lemma {:induction false} DuplicateFails(specs: seq<Spec>, i: nat, j: nat)
    requires i < j < |specs| && specs[i].rank == specs[j].rank
    ensures Build(specs).Err?
  {
    assert specs[..j][i] == specs[i];
    assert specs[j].rank in RanksOf(specs[..j]);
  }

  /** A successful build is a hand that passes `Hand::try_from`. */
  lemma BuildValidates(specs: seq<Spec>)
    requires Build(specs).Ok?
    ensures Hands.Validate(Build(specs).value.counts) == Ok(Build(specs).value)
  {
  }

  /** `check_partial_specs`: the ranks of the specs are pairwise distinct;
      otherwise the error names the first rank seen a second time. */
  method CheckPartialSpecs(ranks: seq<Rank>) returns (r: Result<(), BuildError>)
    ensures r.Ok? <==> Distinct(ranks)
    ensures r.Err? ==>
      exists j :: 0 <= j < |ranks| && r.error == Duplicate(ranks[j]) && ranks[j] in ranks[..j] && Distinct(ranks[..j])
  {
    var specified := new bool[15](_ => false);
    var i := 0;
    while i < |ranks|
      invariant 0 <= i <= |ranks|
      invariant Distinct(ranks[..i])
      invariant forall q :: 0 <= q < 15 ==> (specified[q] <==> q in ranks[..i])
    {
      if specified[ranks[i]] {
        DistinctPrefix(ranks, i);
        return Err(Duplicate(ranks[i]));
      }
      assert ranks[..i + 1] == ranks[..i] + [ranks[i]];
      specified[ranks[i]] := true;
      i := i + 1;
    }
    assert ranks[..i] == ranks;
    return Ok(());
  }

  predicate Distinct(rs: seq<Rank>) {
    forall i, j :: 0 <= i < j < |rs| ==> rs[i] != rs[j]
  }

  /** A sequence whose element at `i` already occurs before it is not distinct. */
  lemma DistinctPrefix(rs: seq<Rank>, i: nat)
    requires i < |rs| && rs[i] in rs[..i]
    ensures !Distinct(rs)
  {
    var k :| 0 <= k < i && rs[..i][k] == rs[i];
    assert rs[k] == rs[i];
  }

  /** The partial check and the builder agree: a build whose ranks are not
      distinct fails. */
  lemma PartialCheckAgrees(specs: seq<Spec>)
    requires !Distinct(RanksOf(specs))
    ensures Build(specs).Err?
  {
    var rs := RanksOf(specs);
    var i, j :| 0 <= i < j < |rs| && rs[i] == rs[j];
    DuplicateFails(specs, i, j);
  }
}

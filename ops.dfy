/** Hand arithmetic (src/core/ops.rs): rank-by-rank addition and wrapping
    subtraction of counts, their checked forms that re-validate the result,
    and the overloads taking a play or an optional hand. A play operand
    contributes the cards of its hand. */
module Ops {
  import opened Ranks
  import opened Hands
  import opened Plays

  /** No rank's sum leaves the byte range, so the addition cannot overflow. */
  predicate SumFits(a: Counts, b: Counts) {
    forall r :: 0 <= r < 15 ==> a[r] as int + b[r] < 256
  }

  /** Rank-by-rank sum of two count arrays. */
  function SumCounts(a: Counts, b: Counts): Counts
    requires SumFits(a, b)
  {
    seq(15, i requires 0 <= i < 15 => a[i] + b[i])
  }

  /** Rank-by-rank difference of two count arrays, wrapping below zero as
      unsigned bytes do. */
  function DiffCounts(a: Counts, b: Counts): Counts {
    seq(15, i requires 0 <= i < 15 => (a[i] as int - b[i]) % 256)
  }

  /** Every rank's sum is within the limit of that rank. */
  predicate SumWithinLimits(a: Counts, b: Counts) {
    forall r :: 0 <= r < 15 ==> a[r] + b[r] <= Limit(r)
  }

  /** Every rank holds at least as many cards in `a` as in `b`. */
  predicate Contains(a: Counts, b: Counts) {
    forall r :: 0 <= r < 15 ==> b[r] <= a[r]
  }

  // ----- unchecked arithmetic -----

  /** `unchecked_add`: add the right hand's counts into the left, rank by rank. */
  method UncheckedAdd(a: Hand, b: Hand) returns (h: Hand)
    requires SumFits(a.counts, b.counts)
    ensures forall r :: 0 <= r < 15 ==> h.counts[r] == a.counts[r] + b.counts[r]
    ensures h.counts == SumCounts(a.counts, b.counts)
  {
    var counts := a.counts;
    for i := 0 to 15
      invariant |counts| == 15
      invariant forall r :: 0 <= r < i ==> counts[r] == a.counts[r] + b.counts[r]
      invariant forall r :: i <= r < 15 ==> counts[r] == a.counts[r]
    {
      counts := counts[i := counts[i] + b.counts[i]];
    }
    h := Hand(counts);
  }

  /** `unchecked_sub`: subtract the right hand's counts from the left, rank by
      rank, wrapping modulo 256. */
  method UncheckedSub(a: Hand, b: Hand) returns (h: Hand)
    ensures forall r :: 0 <= r < 15 ==> h.counts[r] == (a.counts[r] as int - b.counts[r]) % 256
    ensures h.counts == DiffCounts(a.counts, b.counts)
  {
    var counts := a.counts;
    for i := 0 to 15
      invariant |counts| == 15
      invariant forall r :: 0 <= r < i ==> counts[r] == (a.counts[r] as int - b.counts[r]) % 256
      invariant forall r :: i <= r < 15 ==> counts[r] == a.counts[r]
    {
      counts := counts[i := (counts[i] as int - b.counts[i]) % 256];
    }
    h := Hand(counts);
  }

  /** `unchecked_add` with a play: add the cards of the play's hand. */
  method UncheckedAddPlay(a: Hand, p: Play) returns (h: Hand)
    requires SumFits(a.counts, HandOf(p).counts)
    ensures forall r :: 0 <= r < 15 ==> h.counts[r] == a.counts[r] + HandOf(p).counts[r]
  {
    var ph := ToHand(p);
    h := UncheckedAdd(a, ph);
  }

  /** `unchecked_sub` with a play: subtract the cards of the play's hand. */
  method UncheckedSubPlay(a: Hand, p: Play) returns (h: Hand)
    ensures forall r :: 0 <= r < 15 ==> h.counts[r] == (a.counts[r] as int - HandOf(p).counts[r]) % 256
  {
    var ph := ToHand(p);
    h := UncheckedSub(a, ph);
  }

  // ----- checked arithmetic -----

  /** `Hand + Hand`: the sum, kept only when it is a valid hand. */
  function Add(a: Hand, b: Hand): (r: Option<Hand>)
    requires SumFits(a.counts, b.counts)
    ensures r.Some? <==> SumWithinLimits(a.counts, b.counts)
    ensures r.Some? ==> forall q :: 0 <= q < 15 ==> r.value.counts[q] == a.counts[q] + b.counts[q]
  {
    Validate(SumCounts(a.counts, b.counts)).ToOption()
  }

  /** `Hand - Hand`: the wrapped difference, kept only when it is a valid hand. */
  function Sub(a: Hand, b: Hand): (r: Option<Hand>)
    ensures r.Some? <==> Valid(DiffCounts(a.counts, b.counts))
    ensures r.Some? ==> forall q :: 0 <= q < 15 ==> r.value.counts[q] == (a.counts[q] as int - b.counts[q]) % 256
  {
    Validate(DiffCounts(a.counts, b.counts)).ToOption()
  }

  /** For valid operands, the difference is present exactly when the left
      hand contains the right, and then it is the plain difference. */
  lemma SubSomeIff(a: Hand, b: Hand)
    requires Valid(a.counts) && Valid(b.counts)
    ensures Sub(a, b).Some? <==> Contains(a.counts, b.counts)
    ensures Sub(a, b).Some? ==> forall q :: 0 <= q < 15 ==> Sub(a, b).value.counts[q] == a.counts[q] as int - b.counts[q]
  {
    SubValidIff(a.counts, b.counts);
  }

  /** Byte subtraction wraps a negative difference up by 256. */
  lemma WrapByte(x: int)
    requires -256 < x < 256
    ensures x % 256 == if x < 0 then x + 256 else x
  {
  }

  /** A wrapped difference of valid counts is valid exactly when nothing
      wrapped, and then it is the plain difference: an underflow leaves at
      least 252 at that rank. */
  lemma SubValidIff(a: Counts, b: Counts)
    requires Valid(a) && Valid(b)
    ensures Valid(DiffCounts(a, b)) <==> Contains(a, b)
    ensures Contains(a, b) ==> forall q :: 0 <= q < 15 ==> DiffCounts(a, b)[q] == a[q] as int - b[q]
  {
    var d := DiffCounts(a, b);
    forall q | 0 <= q < 15
      ensures b[q] <= a[q] ==> d[q] == a[q] as int - b[q]
      ensures b[q] > a[q] ==> d[q] >= 252
    {
      WrapByte(a[q] as int - b[q]);
    }
  }

  /** `Hand + &Guard<Play>`: add the cards of the play. */
  function AddPlay(h: Hand, p: Play): (r: Option<Hand>)
    requires SumFits(h.counts, HandOf(p).counts)
    ensures r == Add(h, HandOf(p))
    ensures r.Some? <==> SumWithinLimits(h.counts, HandOf(p).counts)
  {
    Validate(SumCounts(h.counts, HandOf(p).counts)).ToOption()
  }

  /** `&Guard<Play> + Hand`: the same sum with the operands swapped. */
  function PlayAdd(p: Play, h: Hand): (r: Option<Hand>)
    requires SumFits(h.counts, HandOf(p).counts)
    ensures r == Add(HandOf(p), h)
  {
    AddCommutes(h, HandOf(p));
    AddPlay(h, p)
  }

  /** `Hand - &Guard<Play>`: remove the cards of the play. */
  function SubPlay(h: Hand, p: Play): (r: Option<Hand>)
    ensures r == Sub(h, HandOf(p))
    ensures Valid(h.counts) && WellFormed(p) ==> (r.Some? <==> Contains(h.counts, HandOf(p).counts))
  {
    if Valid(h.counts) && WellFormed(p) then
      HandOfValid(p);
      SubSomeIff(h, HandOf(p));
      Sub(h, HandOf(p))
    else Sub(h, HandOf(p))
  }

  /** `&Guard<Play> - Hand`: remove the hand's cards from the play's. */
  function PlaySub(p: Play, h: Hand): (r: Option<Hand>)
    ensures r == Sub(HandOf(p), h)
    ensures WellFormed(p) && Valid(h.counts) ==> (r.Some? <==> Contains(HandOf(p).counts, h.counts))
  {
    if WellFormed(p) && Valid(h.counts) then
      HandOfValid(p);
      SubSomeIff(HandOf(p), h);
      Sub(HandOf(p), h)
    else Sub(HandOf(p), h)
  }

  // ----- overloads on optional hands -----

  /** `Hand + Option<Hand>`. */
  function AddOpt(h: Hand, o: Option<Hand>): (r: Option<Hand>)
    requires o.Some? ==> SumFits(h.counts, o.value.counts)
    ensures o.None? ==> r.None?
    ensures o.Some? ==> r == Add(h, o.value)
  {
    match o
    case None => None
    case Some(y) => Add(h, y)
  }

  /** `Option<Hand> + Hand`, defined by swapping into `Hand + Option<Hand>`. */
  function OptAdd(o: Option<Hand>, h: Hand): (r: Option<Hand>)
    requires o.Some? ==> SumFits(o.value.counts, h.counts)
    ensures o.None? ==> r.None?
    ensures o.Some? ==> r == Add(o.value, h)
  {
    if o.Some? then
      AddCommutes(o.value, h);
      AddOpt(h, o)
    else AddOpt(h, o)
  }

  /** `Option<Hand> + &Guard<Play>`. */
  function OptAddPlay(o: Option<Hand>, p: Play): (r: Option<Hand>)
    requires o.Some? ==> SumFits(o.value.counts, HandOf(p).counts)
    ensures o.None? ==> r.None?
    ensures o.Some? ==> r == AddPlay(o.value, p)
  {
    match o
    case None => None
    case Some(x) => AddPlay(x, p)
  }

  /** `&Guard<Play> + Option<Hand>`, defined by swapping. */
  function PlayAddOpt(p: Play, o: Option<Hand>): (r: Option<Hand>)
    requires o.Some? ==> SumFits(o.value.counts, HandOf(p).counts)
    ensures o.None? ==> r.None?
    ensures o.Some? ==> r == PlayAdd(p, o.value)
  {
    OptAddPlay(o, p)
  }

  /** `Hand - Option<Hand>`. */
  function SubOpt(h: Hand, o: Option<Hand>): (r: Option<Hand>)
    ensures o.None? ==> r.None?
    ensures o.Some? ==> r == Sub(h, o.value)
  {
    match o
    case None => None
    case Some(y) => Sub(h, y)
  }

  /** `Option<Hand> - Hand`. */
  function OptSub(o: Option<Hand>, h: Hand): (r: Option<Hand>)
    ensures o.None? ==> r.None?
    ensures o.Some? ==> r == Sub(o.value, h)
  {
    match o
    case None => None
    case Some(x) => Sub(x, h)
  }

  /** `Option<Hand> - &Guard<Play>`. */
  function OptSubPlay(o: Option<Hand>, p: Play): (r: Option<Hand>)
    ensures o.None? ==> r.None?
    ensures o.Some? ==> r == Sub(o.value, HandOf(p))
  {
    match o
    case None => None
    case Some(x) => SubPlay(x, p)
  }

  /** `&Guard<Play> - Option<Hand>`. */
  function PlaySubOpt(p: Play, o: Option<Hand>): (r: Option<Hand>)
    ensures o.None? ==> r.None?
    ensures o.Some? ==> r == Sub(HandOf(p), o.value)
  {
    match o
    case None => None
    case Some(y) => PlaySub(p, y)
  }

  // ----- algebraic properties -----

  /** Checked addition of hands is commutative. */
  lemma AddCommutes(a: Hand, b: Hand)
    requires SumFits(a.counts, b.counts)
    ensures SumFits(b.counts, a.counts)
    ensures Add(a, b) == Add(b, a)
  {
    assert SumCounts(a.counts, b.counts) == SumCounts(b.counts, a.counts);
  }

  /** A valid hand plus a play's hand never overflows a byte. */
  lemma PlayFits(h: Hand, p: Play)
    requires Valid(h.counts)
    ensures SumFits(h.counts, HandOf(p).counts)
  {
    forall r | 0 <= r < 15 ensures h.counts[r] + HandOf(p).counts[r] < 256 {
      HandOfCounts(p, r);
    }
  }

  /** Removing what was just added gives the hand back. */
  lemma AddThenSub(a: Hand, b: Hand)
    requires SumFits(a.counts, b.counts)
    requires Add(a, b).Some?
    ensures Sub(Add(a, b).value, b) == Some(a)
  {
    var c := Add(a, b).value;
    assert DiffCounts(c.counts, b.counts) == a.counts;
    assert Valid(a.counts);
  }

  /** Adding back what was removed from a valid hand restores it. */
  lemma SubThenAdd(a: Hand, b: Hand)
    requires Valid(a.counts) && Valid(b.counts)
    requires Sub(a, b).Some?
    ensures SumFits(Sub(a, b).value.counts, b.counts)
    ensures Add(Sub(a, b).value, b) == Some(a)
  {
    var c := Sub(a, b).value;
    SubSomeIff(a, b);
    assert forall q :: 0 <= q < 15 ==> c.counts[q] + b.counts[q] == a.counts[q];
    assert SumCounts(c.counts, b.counts) == a.counts;
  }

  /** If `h + p` is `h2`, then `h2 - p` is `h`. */
  lemma AddPlayThenSubPlay(h: Hand, p: Play)
    requires SumFits(h.counts, HandOf(p).counts)
    requires AddPlay(h, p).Some?
    ensures SubPlay(AddPlay(h, p).value, p) == Some(h)
  {
    AddThenSub(h, HandOf(p));
  }
}

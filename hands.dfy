/** A hand: 15 per-rank byte counts, and its validating constructors
    (src/hand.rs). The wrapped array itself is not constrained, because the
    unchecked arithmetic can produce any bytes; `Valid` is the invariant that
    the checked constructors establish. */
module Hands {
  import opened Ranks

  /** Exactly fifteen counts, indexed by rank. */
  type Counts = s: seq<Byte> | |s| == 15 witness [0, 0, 0, 0, 0, 0, 0, 0, 0, 0, 0, 0, 0, 0, 0]

  datatype Hand = Hand(counts: Counts)

  /** Every ordinary rank appears at most four times and each joker at most once. */
  predicate Valid(counts: Counts) {
    forall r :: 0 <= r < 15 ==> counts[r] <= Limit(r)
  }

  /** Every count is a possible multiplicity (0..4), the range the structural
      scan can bucket. Weaker than `Valid`: a joker may still appear twice. */
  predicate InRange(counts: Counts) {
    forall r :: 0 <= r < 15 ==> counts[r] <= 4
  }

  /** Why a count source is not a hand. */
  datatype HandError =
    | MoreThanFour(rank: Rank)
    | MoreThanOne(rank: Rank)
    | WrongLength(len: nat)

  /** The first rank at or after `from` whose count exceeds its limit, or 15
      when there is none. */
  function FirstOffender(counts: Counts, from: nat): (k: nat)
    requires from <= 15
    ensures from <= k <= 15
    ensures forall r :: from <= r < k ==> counts[r] <= Limit(r)
    ensures k < 15 ==> counts[k] > Limit(k)
    decreases 15 - from
  {
    if from == 15 then 15
    else if counts[from] > Limit(from) then from
    else FirstOffender(counts, from + 1)
  }

  /** What constructing a hand from fixed-size counts yields. */
  function Validate(counts: Counts): (r: Result<Hand, HandError>)
    ensures r.Ok? <==> Valid(counts)
    ensures r.Ok? ==> r.value == Hand(counts)
    ensures r.Err? ==> r.error.MoreThanFour? || r.error.MoreThanOne?
    ensures r.Err? && r.error.MoreThanFour? ==> !IsJoker(r.error.rank) && counts[r.error.rank] > 4
    ensures r.Err? && r.error.MoreThanOne? ==> IsJoker(r.error.rank) && counts[r.error.rank] > 1
    ensures r.Err? ==> forall q :: 0 <= q < r.error.rank ==> counts[q] <= Limit(q)
  {
    var k := FirstOffender(counts, 0);
    if k == 15 then Ok(Hand(counts))
    else if k < BLACK_JOKER then Err(MoreThanFour(k))
    else Err(MoreThanOne(k))
  }

  /** `TryFrom<[u8; 15]>`: check the thirteen ordinary ranks, then the two
      jokers, and report the first offender. */
  method TryFromArray(counts: Counts) returns (r: Result<Hand, HandError>)
    ensures r == Validate(counts)
  {
    for i := 0 to 13
      invariant forall q :: 0 <= q < i ==> counts[q] <= 4
    {
      if counts[i] > 4 {
        return Err(MoreThanFour(i));
      }
    }
    for i := 13 to 15
      invariant forall q :: 0 <= q < 13 ==> counts[q] <= 4
      invariant forall q :: 13 <= q < i ==> counts[q] <= 1
    {
      if counts[i] > 1 {
        return Err(MoreThanOne(i));
      }
    }
    return Ok(Hand(counts));
  }

  /** `TryFrom<&[u8]>`: a slice of the wrong length is refused before any
      count is examined. */
  function TryFromSlice(s: seq<Byte>): (r: Result<Hand, HandError>)
    ensures |s| != 15 ==> r == Err(WrongLength(|s|))
    ensures |s| == 15 ==> r == Validate(s)
    ensures r.Ok? <==> |s| == 15 && Valid(s)
  {
    if |s| != 15 then Err(WrongLength(|s|)) else Validate(s)
  }

  /** The raw counts of a hand; constructing a hand again from them gives the
      same hand back whenever the hand is valid. */
  function ToArray(h: Hand): (a: Counts)
    ensures Valid(h.counts) ==> Validate(a) == Ok(h)
    ensures !Valid(h.counts) ==> Validate(a).Err?
  {
    h.counts
  }

  /** Constructing a hand and reading its counts back returns the input. */
  lemma ToArrayRoundTrip(counts: Counts)
    requires Validate(counts).Ok?
    ensures ToArray(Validate(counts).value) == counts
  {
  }

  function Zeros(): (z: Counts)
    ensures forall r :: 0 <= r < 15 ==> z[r] == 0
  {
    seq(15, _ => 0)
  }

  /** The total number of cards a hand holds. */
  function CardTotal(counts: seq<Byte>): nat {
    if counts == [] then 0 else CardTotal(counts[..|counts| - 1]) + counts[|counts| - 1]
  }
}

/** Shared vocabulary: card ranks, byte counts, and the result wrappers used by
    every other module. A rank is its ordinal in the strength order
    Three < Four < ... < Ace < Two < BlackJoker < RedJoker, so ranks double as
    indices into a hand's 15 counts. */
module Ranks {

  /** A rank ordinal, 0 (Three) .. 14 (RedJoker). */
  type Rank = r: int | 0 <= r < 15

  /** An unsigned 8-bit value, the element type of a hand's count array. */
  type Byte = x: int | 0 <= x < 256

  const TWO: Rank := 12
  const BLACK_JOKER: Rank := 13
  const RED_JOKER: Rank := 14

  predicate IsJoker(r: Rank) {
    r >= BLACK_JOKER
  }

  /** The most cards of one rank a deck holds: four of each ordinary rank,
      one of each joker. */
  function Limit(r: Rank): (n: nat)
    ensures n == 4 || n == 1
    ensures n == 1 <==> IsJoker(r)
  {
    if r < BLACK_JOKER then 4 else 1
  }

  datatype Option<+T> = None | Some(value: T)

  datatype Result<+T, +E> = Ok(value: T) | Err(error: E) {
    function ToOption(): (o: Option<T>)
      ensures o.Some? <==> Ok?
      ensures o.Some? ==> o.value == value
    {
      match this
      case Ok(v) => Some(v)
      case Err(_) => None
    }
  }

  datatype Ordering = Less | Equal | Greater {
    function Reverse(): Ordering {
      match this
      case Less => Greater
      case Equal => Equal
      case Greater => Less
    }
  }

  /** Total comparison of two integers. */
  function Compare(a: int, b: int): (o: Ordering)
    ensures o == Less <==> a < b
    ensures o == Equal <==> a == b
    ensures o == Greater <==> a > b
  {
    if a < b then Less else if a == b then Equal else Greater
  }

  function ReverseOpt(o: Option<Ordering>): Option<Ordering> {
    match o
    case None => None
    case Some(x) => Some(x.Reverse())
  }

  predicate StrictlyIncreasing(s: seq<Rank>) {
    forall i, j :: 0 <= i < j < |s| ==> s[i] < s[j]
  }

  /** A run that may form a chain: no member is Two or a joker, and each
      member is exactly one step above the one before it. */
  predicate IsConsecutive(s: seq<Rank>) {
    && (forall i :: 0 <= i < |s| ==> s[i] < TWO)
    && (forall i :: 0 <= i < |s| - 1 ==> s[i + 1] == s[i] + 1)
  }

  /** Neither sequence mentions a rank the other does. */
  predicate Disjoint(s: seq<Rank>, t: seq<Rank>) {
    forall x :: x in s ==> x !in t
  }

  lemma {:induction false} ConsecutiveIsIncreasing(s: seq<Rank>)
    requires IsConsecutive(s)
    ensures StrictlyIncreasing(s)
    ensures forall i :: 0 <= i < |s| ==> s[i] == s[0] + i
  {
    if |s| > 1 {
      var t := s[1..];
      assert IsConsecutive(t) by {
        forall i | 0 <= i < |t| - 1 ensures t[i + 1] == t[i] + 1 {
          assert t[i] == s[i + 1] && t[i + 1] == s[i + 2];
        }
      }
      ConsecutiveIsIncreasing(t);
      forall i | 1 <= i < |s| ensures s[i] == s[0] + i {
        assert s[i] == t[i - 1];
      }
    }
  }

  /** Two strictly increasing sequences with the same members are equal:
      a set of ranks has exactly one ascending listing. */
  lemma {:induction false} AscendingListingUnique(s: seq<Rank>, t: seq<Rank>)
    requires StrictlyIncreasing(s) && StrictlyIncreasing(t)
    requires forall x :: x in s <==> x in t
    ensures s == t
  {
    assert s != [] ==> s[0] in t;
    assert t != [] ==> t[0] in s;
    if s != [] && t != [] {
      var ks :| 0 <= ks < |s| && s[ks] == t[0];
      var kt :| 0 <= kt < |t| && t[kt] == s[0];
      assert s[0] == t[0];
      TailMembers(s);
      TailMembers(t);
      AscendingListingUnique(s[1..], t[1..]);
      assert s == [s[0]] + s[1..];
      assert t == [t[0]] + t[1..];
    }
  }

  lemma TailMembers(s: seq<Rank>)
    requires StrictlyIncreasing(s) && s != []
    ensures forall x :: x in s[1..] <==> x in s && x != s[0]
  {
    forall x | x in s && x != s[0] ensures x in s[1..] {
      var i :| 0 <= i < |s| && s[i] == x;
      assert s[1..][i - 1] == x;
    }
  }

  /** Extending a run by one rank keeps it a run exactly when the new rank is
      below Two and one step above the last. */
  lemma ConsecutiveSnoc(s: seq<Rank>, x: Rank)
    ensures IsConsecutive(s + [x]) <==>
      IsConsecutive(s) && x < TWO && (s == [] || x == s[|s| - 1] + 1)
  {
    var t := s + [x];
    if IsConsecutive(t) {
      assert forall i :: 0 <= i < |s| ==> s[i] == t[i];
      assert x == t[|t| - 1];
    }
    if IsConsecutive(s) && x < TWO && (s == [] || x == s[|s| - 1] + 1) {
      forall i | 0 <= i < |t| - 1 ensures t[i + 1] == t[i] + 1 {
        if i < |s| - 1 {
          assert t[i] == s[i] && t[i + 1] == s[i + 1];
        }
      }
    }
  }

  /** In an ascending listing that holds both jokers, they are the last two. */
  lemma JokersLast(s: seq<Rank>)
    requires StrictlyIncreasing(s)
    requires BLACK_JOKER in s && RED_JOKER in s
    ensures |s| >= 2 && s[|s| - 2] == BLACK_JOKER && s[|s| - 1] == RED_JOKER
  {
    var i :| 0 <= i < |s| && s[i] == BLACK_JOKER;
    var j :| 0 <= j < |s| && s[j] == RED_JOKER;
    assert s[j] <= s[|s| - 1];
    assert i < |s| - 1;
    assert s[i] <= s[|s| - 2] < s[|s| - 1];
  }
}

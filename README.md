# Dou Dizhu rule core in Dafny

This project models the rule core of the `dou_dizhu` Rust library and proves
properties of that model. A hand is fifteen per-rank card counts, indexed by
rank ordinal: Three = 0 … Ace = 11, Two = 12, BlackJoker = 13, RedJoker = 14.
The core has six parts:

- **`Ranks`**: ranks, bytes, `Option`/`Result`/`Ordering` and the run
  predicates.
- **`Hands`**: hand validation through `TryFrom<[u8; 15]>` and
  `TryFrom<&[u8]>`, and `to_array`.
- **`PlayKinds` / `Plays`**:
  - the `Play` and `PlayKind` enums and `kind`;
  - `to_hand`, the imperative array fill that turns a play into counts;
  - the partial order on plays and on kinds.
- **`Compositions`**:
  - the scan over the counts that builds the solo, pair, trio and four groups
    and their `consecutive` flags;
  - the fourteen `to_*` classifiers, `to_play(kind)`, `guess_play` and
    `Hand::to_play`.
- **`Ops`**:
  - `unchecked_add` and `unchecked_sub` as loops;
  - the checked `+` and `-` that re-validate through the hand constructor;
  - the overloads taking a play or an `Option<Hand>`.
- **`Builder`**: the constant hand builder `from_specs` and the
  duplicate-rank check `check_partial_specs`.

The central theorems are about classification. `Compositions.ClassifyComplete`
shows that every well-formed play is recognised, both by `to_play` of its own
kind and by `guess_play`, from the scanned composition of its own hand.
`Compositions.ClassifySound` shows that whatever a classifier recognises in a
valid hand is well formed, has the requested kind, and uses exactly the cards
of that hand.

`WellFormed` states the play shapes the game admits. The library enforces
them through its `Guard<Play>` wrapper, which is not modelled on its own:

- runs are consecutive, below Two, and long enough;
- kickers are distinct from the primal ranks and listed in ascending order;
- no joker is used more than once;
- the kickers never hold the rocket.

The types follow the source as follows:

- A Rust `[u8; 15]` is a `seq<Byte>` of length 15.
- A `[Rank; 2]` kicker pair is a tuple.
- A const-evaluation `panic!` in the builder is an `Err` carrying the
  offending rank.

## Model

| member | source | states |
|---|---|---|
| Ranks.Limit | src/hand.rs:11-20 | the per-rank card limit is 4 for ordinary ranks and 1 exactly for the two jokers |
| Hands.FirstOffender | src/hand.rs:11-20 | the scan stops at the first rank over its limit; every rank before it is within its limit |
| Hands.Validate | src/hand.rs:10-22 | construction succeeds iff every ordinary count is at most 4 and each joker count at most 1; a failure names a rank that is over its limit, with the matching error kind, and all earlier ranks are within their limits |
| Hands.TryFromArray | src/hand.rs:10-22 | the two early-return loops (ordinary ranks first, then the jokers) give exactly the validation result |
| Hands.TryFromSlice | src/hand.rs:28-33 | a slice of length other than 15 fails with its length; otherwise the result is the array conversion; success iff length 15 and valid |
| Hands.ToArray | src/hand.rs:37-39 | validating the counts of a valid hand gives that hand back, and an invalid hand's counts are refused |
| Hands.ToArrayRoundTrip | src/hand.rs:37-39 | reading back the counts of a constructed hand yields the input counts |
| PlayKinds.KindLevel | src/play.rs:273-282 | the level is 2 exactly for Rocket, 1 exactly for Bomb, and 0 for every other kind |
| PlayKinds.KindPartialCmp | src/play.rs:268-288 | kinds compare Equal iff identical, None iff distinct with the same level, and otherwise by level (Rocket 2, Bomb 1, others 0) |
| PlayKinds.KindPartialCmpReverse | src/play.rs:268-288 | swapping the operands reverses the kind comparison |
| PlayKinds.KindHierarchy | src/play.rs:268-288 | Rocket beats every other kind, Bomb beats every ordinary kind, and two distinct ordinary kinds are incomparable |
| Plays.Play.Kind | src/play.rs:58-75 | Rocket and Bomb are the only plays of those kinds, and the chain-like kinds are exactly those of the five run-based variants |
| Plays.KindIsDiscriminant | src/play.rs:58-75 | two plays have the same kind exactly when they are the same variant, so the comparison's discriminant test is a kind test |
| Plays.HandOf | src/play.rs:94-145 | every count of a play's hand is in 0..4, and a rank is non-zero exactly when the play uses it in some role |
| Plays.HandOfCounts | src/play.rs:94-145 | the hand of a play gives each rank the multiplicity of its role (1 solo, 2 pair, 3 trio, 4 four, the kicker role winning when written last) and 0 to every rank outside the play |
| Plays.HandOfValid | src/play.rs:94-145 | the hand of a well-formed play is a valid hand |
| Plays.BombHasFourCards | src/play.rs:86-92 | a bomb's hand holds exactly four cards |
| Plays.RocketIsTheJokers | src/play.rs:140-143 | the rocket's hand is one card of each joker and nothing else, two cards in all |
| Plays.Solitary | src/play.rs:96-100 | writing one rank's count changes that rank only |
| Plays.Multiple | src/play.rs:101-107 | the loop over a run sets every listed rank to the count and leaves the others unchanged |
| Plays.ToHand | src/play.rs:94-145 | filling the zeroed array from the payload yields the play's hand as specified by roles and multiplicities |
| Plays.PartialCmpReverse | src/play.rs:156-229 | swapping two plays reverses their comparison |
| Plays.PartialCmp | src/play.rs:156-229 | across kinds the result is the kind comparison; Rocket against Rocket is Equal; same-kind plays with primal runs of different length give None; same-kind plays with runs of equal length compare by their first (lowest) primal rank |
| Plays.SameKindCompare | src/play.rs:173-228 | within one kind, single-rank kinds compare by the primal rank whatever the kickers, and chain-like kinds give None for different run lengths and otherwise compare by the lowest primal rank |
| Plays.KickersIgnored | src/play.rs:188-227 | a trio with a solo compares by its trio alone, and airplanes of different lengths are incomparable |
| Plays.PlayEq | src/play.rs:149-153 | two plays are equal iff same kind and, unless rocket, same primal length and same lowest primal rank; kickers are ignored |
| Plays.RocketAndBombs | src/play.rs:157-196 | the rocket beats every other play, a bomb beats every level-0 play, and bombs compare by rank |
| Plays.DifferentOrdinaryKindsIncomparable | src/play.rs:157-172 | plays of two different ordinary kinds give None |
| Plays.CrossKindAgreesWithKinds | src/play.rs:157-172 | across kinds, plays compare exactly as their kinds do |
| Plays.PartialCmpTransitive | src/play.rs:156-229 | "beaten by" is transitive |
| Compositions.RanksWithCountFacts | src/core/composition.rs:368-377 | the scan lists exactly the ranks with the given count, in strictly ascending order |
| Compositions.UpdateGroup | src/core/composition.rs:355-366 | appending a rank keeps the flag equal to "the group is a run below Two", and a cleared flag stays cleared |
| Compositions.ScanStep | src/core/composition.rs:368-377 | one iteration appends rank i to the group of its count, after all earlier members, and leaves the other groups unchanged |
| Compositions.Compose | src/core/composition.rs:346-380 | the imperative scan over a hand with counts 0..4 produces the specified composition |
| Compositions.CompositionFacts | src/core/composition.rs:368-377 | each group is ascending, holds exactly the ranks of its multiplicity and is flagged exactly when it is a run; the groups are pairwise disjoint and together hold every rank the hand has |
| Compositions.ToSolo | src/core/composition.rs:113-123 | a recognised play is of kind Solo, and its solo, pair, trio and four roles are exactly the composition's groups |
| Compositions.ToChain | src/core/composition.rs:126-137 | a recognised play is of kind Chain, and its solo, pair, trio and four roles are exactly the composition's groups |
| Compositions.ToPair | src/core/composition.rs:140-150 | a recognised play is of kind Pair, and its solo, pair, trio and four roles are exactly the composition's groups |
| Compositions.ToPairsChain | src/core/composition.rs:153-164 | a recognised play is of kind PairsChain, and its solo, pair, trio and four roles are exactly the composition's groups |
| Compositions.ToTrio | src/core/composition.rs:167-177 | a recognised play is of kind Trio, and its solo, pair, trio and four roles are exactly the composition's groups |
| Compositions.ToAirplane | src/core/composition.rs:180-191 | a recognised play is of kind Airplane, and its solo, pair, trio and four roles are exactly the composition's groups |
| Compositions.ToTrioWithSolo | src/core/composition.rs:194-207 | a recognised play is of kind TrioWithSolo, and its solo, pair, trio and four roles are exactly the composition's groups |
| Compositions.ToAirplaneWithSolos | src/core/composition.rs:210-229 | a recognised play is of kind AirplaneWithSolos, and its solo, pair, trio and four roles are exactly the composition's groups |
| Compositions.ToTrioWithPair | src/core/composition.rs:232-245 | a recognised play is of kind TrioWithPair, and its solo, pair, trio and four roles are exactly the composition's groups |
| Compositions.ToAirplaneWithPairs | src/core/composition.rs:248-262 | a recognised play is of kind AirplaneWithPairs, and its solo, pair, trio and four roles are exactly the composition's groups |
| Compositions.ToBomb | src/core/composition.rs:265-275 | a recognised play is of kind Bomb, and its solo, pair, trio and four roles are exactly the composition's groups |
| Compositions.ToFourWithDualSolo | src/core/composition.rs:278-295 | a recognised play is of kind FourWithDualSolo, and its solo, pair, trio and four roles are exactly the composition's groups |
| Compositions.ToFourWithDualPair | src/core/composition.rs:298-314 | a recognised play is of kind FourWithDualPair, and its solo, pair, trio and four roles are exactly the composition's groups |
| Compositions.ToRocket | src/core/composition.rs:317-329 | a recognised play is of kind Rocket, and its solo, pair, trio and four roles are exactly the composition's groups |
| Compositions.ToPlay | src/core/composition.rs:93-110 | the classifier of a kind only ever yields a play of that kind |
| Compositions.ClassifiersExclusive | src/core/composition.rs:112-329 | no composition satisfies two different classifiers |
| Compositions.GuessPlay | src/core/composition.rs:53-77 | the guess is the classifier result of its own kind, and it is None only when every classifier gives None |
| Compositions.HandToPlay | src/hand.rs:41-43 | a play recognised in a valid hand is well formed and uses exactly that hand; None means no kind matches |
| Compositions.ClassifiedRoles | src/core/composition.rs:113-329 | a recognised play's solo, pair, trio and four roles are exactly the composition's groups |
| Compositions.CompositionOfPlay | src/core/composition.rs:346-380 | the composition of a well-formed play's hand has the play's roles as its groups, and that hand is valid |
| Compositions.RecogniseOwnRoles | src/core/composition.rs:113-329 | every well-formed play passes the guard of its own kind on its own roles |
| Compositions.ClassifyComplete | src/core/composition.rs:53-329 | every well-formed play is recognised from its own hand, by its kind's classifier and by the guess |
| Compositions.ClassifiedHand | src/core/composition.rs:113-329 | whatever a classifier yields from a hand with counts 0..4 has exactly that hand's cards |
| Compositions.ValidIsShaped | src/core/composition.rs:368-377 | a valid hand's groups are ascending, truthfully flagged, jokers appear only as solos, and primal groups are disjoint from kicker groups |
| Compositions.ShapedWellFormed | src/core/composition.rs:113-329 | every classifier's guard, applied to such groups, yields a well-formed play |
| Compositions.ClassifiedWellFormed | src/core/composition.rs:113-329 | a play recognised in a valid hand is well formed |
| Compositions.ClassifySound | src/core/composition.rs:93-329 | a play recognised in a valid hand has the requested kind, is well formed, and its hand is the input hand |
| Compositions.FourOfAKindIsOnlyABomb | src/core/composition.rs:265-275 | four cards of one ordinary rank are recognised as that bomb and by no other classifier |
| Compositions.NoRocketInKickers | src/core/composition.rs:210-295 | airplane solo kickers never hold both jokers, and the two solos with a four are never both jokers |
| Ops.UncheckedAdd | src/core/ops.rs:69-74 | every rank of the result is the sum of the operands' counts |
| Ops.UncheckedSub | src/core/ops.rs:80-85 | every rank of the result is the operands' difference modulo 256 |
| Ops.UncheckedAddPlay | src/core/ops.rs:91-93 | adding a play adds the counts of the play's hand |
| Ops.UncheckedSubPlay | src/core/ops.rs:99-101 | subtracting a play subtracts the counts of the play's hand modulo 256 |
| Ops.Add | src/core/ops.rs:107-109 | the checked sum is present iff every per-rank sum is within that rank's limit, and is then the per-rank sum |
| Ops.Sub | src/core/ops.rs:163-165 | the checked difference is present iff the wrapped difference is a valid hand, and is then that difference |
| Ops.SubSomeIff | src/core/ops.rs:163-165 | for valid operands the difference is present iff the left hand contains the right, and is then the plain difference |
| Ops.AddPlay | src/core/ops.rs:115-117 | hand plus play is hand plus the play's hand, present iff every per-rank sum is within its limit |
| Ops.PlayAdd | src/core/ops.rs:123-125 | play plus hand equals the play's hand plus the hand |
| Ops.SubPlay | src/core/ops.rs:171-173 | hand minus play is hand minus the play's hand; for a valid hand and a well-formed play it is present iff the hand contains the play's cards |
| Ops.PlaySub | src/core/ops.rs:179-181 | play minus hand is the play's hand minus the hand; for well-formed play and valid hand it is present iff the play contains the hand's cards |
| Ops.AddOpt | src/core/ops.rs:131-133 | None propagates; otherwise the plain sum |
| Ops.OptAdd | src/core/ops.rs:139-141 | None propagates; otherwise the plain sum in the written operand order |
| Ops.OptAddPlay | src/core/ops.rs:147-149 | None propagates; otherwise hand plus play |
| Ops.PlayAddOpt | src/core/ops.rs:155-157 | None propagates; otherwise play plus hand |
| Ops.SubOpt | src/core/ops.rs:187-189 | None propagates; otherwise the plain difference |
| Ops.OptSub | src/core/ops.rs:195-197 | None propagates; otherwise the plain difference |
| Ops.OptSubPlay | src/core/ops.rs:203-205 | None propagates; otherwise hand minus the play's hand |
| Ops.PlaySubOpt | src/core/ops.rs:211-213 | None propagates; otherwise the play's hand minus the hand |
| Ops.AddCommutes | src/core/ops.rs:107-109 | checked addition of hands is commutative |
| Ops.PlayFits | src/core/ops.rs:13-18 | a valid hand plus any play's hand cannot overflow a byte |
| Ops.AddThenSub | src/core/ops.rs:107-165 | subtracting what was just added gives the original hand back |
| Ops.SubThenAdd | src/core/ops.rs:107-165 | adding back what was removed from a valid hand restores it |
| Ops.AddPlayThenSubPlay | src/core/ops.rs:115-173 | if h + p is h2 then h2 - p is h |
| Builder.SpecError | src/__private/hand.rs:84-96 | a spec fails iff its rank was already named, or it gives a joker a count above one, or any rank a count above four, and the error carries its rank |
| Builder.Build | src/__private/hand.rs:78-103 | the build succeeds iff every spec passes; then the hand is valid, each spec's count sits at its rank and every unnamed rank is 0; a failure is the error of the first failing spec |
| Builder.FromSpecs | src/__private/hand.rs:78-103 | the while loop over the count and `specified` arrays computes exactly that build result |
| Builder.DuplicateFails | src/__private/hand.rs:84-86 | a rank named twice makes the build fail |
| Builder.BuildValidates | src/__private/hand.rs:78-103 | a built hand passes hand validation |
| Builder.CheckPartialSpecs | src/__private/hand.rs:105-117 | the check passes iff the ranks are pairwise distinct, and otherwise names the first rank seen a second time |
| Builder.PartialCheckAgrees | src/__private/hand.rs:105-117 | specs whose ranks are not distinct are refused by the builder too |

## Left out

- The play enumeration in `src/core/search.rs`, which declares only
  `PlaySpec` and the `plays` signature; the enumeration's body is not part
  of the source this model follows.
- The `macro_rules!` front ends (`hand!`, `const_hand!` and the copies in
  `src/macros.rs`). They expand tokens at compile time; only the constant
  functions they call are modelled. The default count of 1 that the macros
  supply for a rank named without a count is left out with them.
- `src/core/guard.rs`. Its checked wrapper is represented by the `Valid`
  and `WellFormed` predicates, which the theorems that need them take as
  preconditions. Its `new_unchecked` bypass, which wraps a value without
  checking it, corresponds to `Plays.HandOf`, `Plays.PartialCmp` and the
  play overloads in `Ops` accepting any `Play`, well formed or not.
  `Hand::FULL_DECK` is not part of this model.
- The text of error messages and of `panic!`. Errors are values naming the
  offending rank.
- `src/hand.rs:46-81` repeats the scan of `src/core/composition.rs:345-380`
  word for word, so it is modelled once, as `Compositions.Compose`.
- `Hand::to_play` (`src/hand.rs:41-43`) calls `to_play()` without the
  `PlayKind` argument that the only `to_play` takes. It is modelled as
  `guess_play` on the composition (`Compositions.HandToPlay`).
- Ops.UncheckedAdd: the in-place `+=` on `u8` panics in debug builds and
  wraps in release builds on overflow. The model requires no overflow
  (`SumFits`) instead of modelling either behaviour. Valid operands always
  satisfy it (`Ops.PlayFits` for a play operand).
- Ops.Add: the checked sums and their overloads carry the same no-overflow
  precondition.
- `PartialOrd for Guard<Play>` is generated by a macro, as a per-variant
  match. It is modelled through `Primal`, the payload the generated match
  reads. The chain-like comparison indexes `[0]`, so `Plays.PartialCmp`
  requires that run to be non-empty whenever it is read.
- Compositions.Compose: `composition` is reached only for counts 0..4
  (`unreachable!` otherwise), so the scan requires that range.
- Moving a `Hand` by value and the `unsafe` transmute from ordinal to rank:
  ranks are ordinals throughout.

/**
 The KNORA-U (k-Nearest Oracles Union) dynamic ensemble selection rule.

 For one query sample the rule
   1. gives every base classifier a competence: the number of samples in the
      query's region of competence that it labelled correctly (zero for a
      classifier switched off by the pruning mask);
   2. lets every classifier cast as many votes for its own predicted label as
      its competence, or exactly one vote each when all competences are zero;
   3. predicts the label with the most votes.

 The region of competence, the oracle ("hit") matrix, the pruning mask and the
 base classifiers' predictions are computed elsewhere and are parameters here:
   dsel        one row per selection (DSEL) sample, one column per classifier;
               entry 1 when that classifier labelled that sample correctly
   neighbours  the indices of the query's neighbours among the DSEL rows
   mask        one flag per classifier; false when the classifier is pruned
   predictions one label per classifier, its prediction for the query
 */
module KnoraU {
  import opened Counting

  /**
   The ways classifying a query fails: a negative vote count (`np.ones`
   refuses a negative length), or an empty vote list (the first entry of an
   empty `most_common()` does not exist).
   */
  datatype Failure = NegativeVoteCount | NoVotes

  datatype Result<T> = Ok(value: T) | Err(failure: Failure)

  type Label = int

  /** The hit matrix has one column per classifier and every neighbour index names one of its rows. */
  predicate WellShaped(dsel: seq<seq<int>>, neighbours: seq<int>, n: nat)
  {
    && (forall s :: 0 <= s < |dsel| ==> |dsel[s]| == n)
    && (forall j :: 0 <= j < |neighbours| ==> 0 <= neighbours[j] < |dsel|)
  }

  /** Column `c` of the hit matrix can be read at every neighbour's row. */
  predicate Readable(dsel: seq<seq<int>>, neighbours: seq<int>, c: nat)
  {
    forall j :: 0 <= j < |neighbours| ==> 0 <= neighbours[j] < |dsel| && c < |dsel[neighbours[j]]|
  }

  /** Every entry of the hit matrix is 0 or 1. */
  predicate ZeroOne(dsel: seq<seq<int>>)
  {
    forall s, c :: 0 <= s < |dsel| && 0 <= c < |dsel[s]| ==> dsel[s][c] == 0 || dsel[s][c] == 1
  }

  lemma WellShapedReadable(dsel: seq<seq<int>>, neighbours: seq<int>, n: nat, c: nat)
    requires WellShaped(dsel, neighbours, n) && c < n
    ensures Readable(dsel, neighbours, c)
  {
  }

  // ---------------------------------------------------------------------------
  // Competence
  // ---------------------------------------------------------------------------

  /** The sum of column `c` over the rows of the first `k` neighbours. */
  function ColumnSum(dsel: seq<seq<int>>, neighbours: seq<int>, c: nat, k: nat): int
    requires k <= |neighbours| && Readable(dsel, neighbours, c)
  {
    if k == 0 then 0 else ColumnSum(dsel, neighbours, c, k - 1) + dsel[neighbours[k - 1]][c]
  }

  /** The positions among the first `k` neighbours that classifier `c` labelled correctly. */
  function HitPositions(dsel: seq<seq<int>>, neighbours: seq<int>, c: nat, k: nat): set<int>
    requires k <= |neighbours| && Readable(dsel, neighbours, c)
  {
    set j | 0 <= j < k && dsel[neighbours[j]][c] == 1
  }

  /** The competence vector: one entry per classifier. */
  function Competences(dsel: seq<seq<int>>, neighbours: seq<int>, mask: seq<bool>): seq<int>
    requires WellShaped(dsel, neighbours, |mask|)
  {
    seq(|mask|, c requires 0 <= c < |mask| =>
          if mask[c] then (WellShapedReadable(dsel, neighbours, |mask|, c); ColumnSum(dsel, neighbours, c, |neighbours|))
          else 0)
  }

  /** Over a 0/1 matrix the column sum counts the hits, so it lies between 0 and the number of neighbours summed. */
  lemma {:induction false} ColumnSumCountsHits(dsel: seq<seq<int>>, neighbours: seq<int>, c: nat, k: nat)
    requires k <= |neighbours| && Readable(dsel, neighbours, c) && ZeroOne(dsel)
    ensures ColumnSum(dsel, neighbours, c, k) == |HitPositions(dsel, neighbours, c, k)|
    ensures 0 <= ColumnSum(dsel, neighbours, c, k) <= k
  {
    if k == 0 {
      assert HitPositions(dsel, neighbours, c, 0) == {};
    } else {
      ColumnSumCountsHits(dsel, neighbours, c, k - 1);
      var before := HitPositions(dsel, neighbours, c, k - 1);
      assert k - 1 !in before;
      if dsel[neighbours[k - 1]][c] == 1 {
        assert HitPositions(dsel, neighbours, c, k) == before + {k - 1};
      } else {
        assert HitPositions(dsel, neighbours, c, k) == before;
      }
    }
  }

  /**
   The competence of each classifier, computed the way the source does: a
   vector of zeros, then, for each classifier the mask keeps, the sum of its
   hit entries over the neighbours.
   */
  method EstimateCompetence(dsel: seq<seq<int>>, neighbours: seq<int>, mask: seq<bool>)
    returns (competences: seq<int>)
    requires WellShaped(dsel, neighbours, |mask|)
    ensures |competences| == |mask|
    ensures forall c :: 0 <= c < |mask| && !mask[c] ==> competences[c] == 0
    ensures forall c :: 0 <= c < |mask| && mask[c] ==> competences[c] == ColumnSum(dsel, neighbours, c, |neighbours|)
    ensures competences == Competences(dsel, neighbours, mask)
  {
    competences := seq(|mask|, _ => 0);
    for c := 0 to |mask|
      invariant |competences| == |mask|
      invariant forall c' :: 0 <= c' < c ==> competences[c'] == Competences(dsel, neighbours, mask)[c']
      invariant forall c' :: c <= c' < |mask| ==> competences[c'] == 0
    {
      if mask[c] {
        WellShapedReadable(dsel, neighbours, |mask|, c);
        var total := 0;
        for j := 0 to |neighbours|
          invariant total == ColumnSum(dsel, neighbours, c, j)
        {
          total := total + dsel[neighbours[j]][c];
        }
        competences := competences[c := total];
      }
    }
  }

  /**
   Over a 0/1 hit matrix a kept classifier's competence is the number of
   neighbours it labelled correctly, a pruned one's is 0, and either way it
   lies between 0 and the number of neighbours.
   */
  lemma CompetenceIsHitCount(dsel: seq<seq<int>>, neighbours: seq<int>, mask: seq<bool>, c: nat)
    requires WellShaped(dsel, neighbours, |mask|) && ZeroOne(dsel) && c < |mask|
    ensures Readable(dsel, neighbours, c)
    ensures Competences(dsel, neighbours, mask)[c]
            == if mask[c] then |HitPositions(dsel, neighbours, c, |neighbours|)| else 0
    ensures 0 <= Competences(dsel, neighbours, mask)[c] <= |neighbours|
  {
    WellShapedReadable(dsel, neighbours, |mask|, c);
    ColumnSumCountsHits(dsel, neighbours, c, |neighbours|);
  }

  /** Over a 0/1 hit matrix every competence is non-negative. */
  lemma CompetencesNonNegative(dsel: seq<seq<int>>, neighbours: seq<int>, mask: seq<bool>)
    requires WellShaped(dsel, neighbours, |mask|) && ZeroOne(dsel)
    ensures NonNegative(Competences(dsel, neighbours, mask))
  {
    forall c | 0 <= c < |mask|
      ensures Competences(dsel, neighbours, mask)[c] >= 0
    {
      CompetenceIsHitCount(dsel, neighbours, mask, c);
    }
  }

  /**
   A classifier is competent (positive competence) exactly when the mask keeps
   it and it labelled at least one neighbour correctly: the "union of oracles".
   */
  lemma CompetentIffSomeHit(dsel: seq<seq<int>>, neighbours: seq<int>, mask: seq<bool>, c: nat)
    requires WellShaped(dsel, neighbours, |mask|) && ZeroOne(dsel) && c < |mask|
    ensures Competences(dsel, neighbours, mask)[c] > 0
            <==> mask[c] && exists j :: 0 <= j < |neighbours| && dsel[neighbours[j]][c] == 1
  {
    CompetenceIsHitCount(dsel, neighbours, mask, c);
    if mask[c] {
      var hits := HitPositions(dsel, neighbours, c, |neighbours|);
      if exists j :: 0 <= j < |neighbours| && dsel[neighbours[j]][c] == 1 {
        var j :| 0 <= j < |neighbours| && dsel[neighbours[j]][c] == 1;
        assert j in hits;
      } else {
        assert hits == {};
      }
    }
  }

  // ---------------------------------------------------------------------------
  // Weights and votes
  // ---------------------------------------------------------------------------

  /** Every competence is zero: no classifier was selected. */
  predicate AllZero(competences: seq<int>)
  {
    forall i :: 0 <= i < |competences| ==> competences[i] == 0
  }

  /** The number of votes each classifier casts: its competence, or one each when no classifier is competent. */
  function Weights(competences: seq<int>): (w: seq<int>)
    ensures |w| == |competences|
    ensures NonNegative(competences) ==> NonNegative(w)
    ensures NonNegative(competences) && |competences| > 0 ==> exists i :: 0 <= i < |w| && w[i] > 0
  {
    if AllZero(competences) then
      var ones := seq(|competences|, _ => 1);
      assert |ones| > 0 ==> ones[0] > 0;
      ones
    else competences
  }

  /** The vote weights KNORA-U gives the pool for this query. */
  function VoteWeights(dsel: seq<seq<int>>, neighbours: seq<int>, mask: seq<bool>): seq<int>
    requires WellShaped(dsel, neighbours, |mask|)
  {
    Weights(Competences(dsel, neighbours, mask))
  }

  /**
   When some classifier is competent the weights are the competences;
   otherwise every classifier gets weight one. The weights are non-negative
   exactly when the competences are, and then a classifier votes exactly when
   it is competent or when no classifier is.
   */
  lemma WeightsSelectCompetent(competences: seq<int>)
    ensures AllZero(competences) ==> forall i :: 0 <= i < |competences| ==> Weights(competences)[i] == 1
    ensures !AllZero(competences) ==> Weights(competences) == competences
    ensures NonNegative(Weights(competences)) <==> NonNegative(competences)
    ensures NonNegative(competences) ==>
              forall i :: 0 <= i < |competences| ==>
                (Weights(competences)[i] > 0 <==> competences[i] > 0 || AllZero(competences))
  {
  }

  /** With non-negative competences and a non-empty pool, the weights have a positive total. */
  lemma {:induction false} WeightsTotalPositive(competences: seq<int>)
    requires NonNegative(competences) && |competences| > 0
    ensures SumUpTo(Weights(competences), |competences|) > 0
  {
    var w := Weights(competences);
    var i: nat;
    if AllZero(competences) {
      i := 0;
    } else {
      i :| 0 <= i < |competences| && competences[i] != 0;
    }
    assert w[i] > 0;
    SumAtLeastEach(w, i, |w|);
  }

  /** The total weight of the first `k` classifiers whose prediction is `l`. */
  function Tally(w: seq<int>, predictions: seq<Label>, l: Label, k: nat): int
    requires |w| == |predictions| && k <= |w|
  {
    if k == 0 then 0
    else Tally(w, predictions, l, k - 1) + (if predictions[k - 1] == l then w[k - 1] else 0)
  }

  /** With non-negative weights, a label has positive tally exactly when some classifier with positive weight predicts it. */
  lemma {:induction false} TallyPositiveIff(w: seq<int>, predictions: seq<Label>, l: Label, k: nat)
    requires NonNegative(w) && |w| == |predictions| && k <= |w|
    ensures Tally(w, predictions, l, k) >= 0
    ensures Tally(w, predictions, l, k) > 0 <==> exists i :: 0 <= i < k && predictions[i] == l && w[i] > 0
  {
    if k > 0 {
      TallyPositiveIff(w, predictions, l, k - 1);
      if predictions[k - 1] == l && w[k - 1] > 0 {
        assert Tally(w, predictions, l, k) > 0;
      }
    }
  }

  /**
   The vote list of the first `k` classifiers: each one's prediction repeated
   as many times as its weight, in pool order. Its length is the total weight.
   */
  function Votes(w: seq<int>, predictions: seq<Label>, k: nat): (r: seq<Label>)
    requires NonNegative(w) && |w| == |predictions| && k <= |w|
    ensures |r| == SumUpTo(w, k)
  {
    if k == 0 then []
    else Votes(w, predictions, k - 1) + Repeat(predictions[k - 1], w[k - 1])
  }

  /** Every label occurs in the vote list as often as the total weight of the classifiers predicting it. */
  lemma {:induction false} VotesCount(w: seq<int>, predictions: seq<Label>, k: nat, l: Label)
    requires NonNegative(w) && |w| == |predictions| && k <= |w|
    ensures Count(Votes(w, predictions, k), l) == Tally(w, predictions, l, k)
  {
    if k > 0 {
      VotesCount(w, predictions, k - 1, l);
      RepeatCount(predictions[k - 1], w[k - 1], l);
      var before := Votes(w, predictions, k - 1);
      var block := Repeat(predictions[k - 1], w[k - 1]);
      assert multiset(before + block) == multiset(before) + multiset(block);
    }
  }

  /** The votes of the first `j` classifiers are a prefix of the votes of the first `k`. */
  lemma {:induction false} VotesPrefix(w: seq<int>, predictions: seq<Label>, j: nat, k: nat)
    requires NonNegative(w) && |w| == |predictions| && j <= k <= |w|
    ensures 0 <= SumUpTo(w, j) <= |Votes(w, predictions, k)|
    ensures Votes(w, predictions, k)[..SumUpTo(w, j)] == Votes(w, predictions, j)
  {
    SumMonotone(w, j, k);
    if j < k {
      VotesPrefix(w, predictions, j, k - 1);
      var before := Votes(w, predictions, k - 1);
      assert Votes(w, predictions, k) == before + Repeat(predictions[k - 1], w[k - 1]);
      assert SumUpTo(w, j) <= |before|;
    }
  }

  /** No label has a larger total weight than `x`. */
  ghost predicate WinsTally(w: seq<int>, predictions: seq<Label>, x: Label)
    requires |w| == |predictions|
  {
    forall l :: Tally(w, predictions, l, |w|) <= Tally(w, predictions, x, |w|)
  }

  /**
   Classifier `i` owns the contiguous block of the vote list that starts after
   the votes of classifiers `0 .. i-1`; the block holds exactly `w[i]` copies
   of its prediction.
   */
  lemma VotesLayout(w: seq<int>, predictions: seq<Label>, k: nat, i: nat)
    requires NonNegative(w) && |w| == |predictions| && i < k <= |w|
    ensures 0 <= SumUpTo(w, i) <= SumUpTo(w, i + 1) <= |Votes(w, predictions, k)|
    ensures Votes(w, predictions, k)[SumUpTo(w, i)..SumUpTo(w, i + 1)] == Repeat(predictions[i], w[i])
  {
    SumMonotone(w, i, i + 1);
    VotesPrefix(w, predictions, i + 1, k);
    var all := Votes(w, predictions, k);
    var upto := Votes(w, predictions, i + 1);
    assert upto == Votes(w, predictions, i) + Repeat(predictions[i], w[i]);
    assert all[SumUpTo(w, i)..SumUpTo(w, i + 1)] == upto[SumUpTo(w, i)..];
  }

  /** Every position of the vote list lies in the block of a classifier with positive weight. */
  lemma {:induction false} VotesOwner(w: seq<int>, predictions: seq<Label>, k: nat, pos: int) returns (j: nat)
    requires NonNegative(w) && |w| == |predictions| && k <= |w|
    requires 0 <= pos < |Votes(w, predictions, k)|
    ensures j < k && w[j] > 0
    ensures SumUpTo(w, j) <= pos < SumUpTo(w, j + 1)
    ensures Votes(w, predictions, k)[pos] == predictions[j]
  {
    if pos >= SumUpTo(w, k - 1) {
      j := k - 1;
    } else {
      j := VotesOwner(w, predictions, k - 1, pos);
    }
    VotesLayout(w, predictions, k, j);
    assert Votes(w, predictions, k)[pos] == Repeat(predictions[j], w[j])[pos - SumUpTo(w, j)];
  }

  /** A classifier with positive weight casts the vote at the start of its block. */
  lemma BlockStart(w: seq<int>, predictions: seq<Label>, k: nat, i: nat) returns (s: nat)
    requires NonNegative(w) && |w| == |predictions| && i < k <= |w| && w[i] > 0
    ensures s == SumUpTo(w, i) && s + w[i] == SumUpTo(w, i + 1)
    ensures s < |Votes(w, predictions, k)| && Votes(w, predictions, k)[s] == predictions[i]
  {
    VotesLayout(w, predictions, k, i);
    s := SumUpTo(w, i);
    assert Votes(w, predictions, k)[s] == Repeat(predictions[i], w[i])[0];
  }

  /** A label occurs in the vote list exactly when a classifier with positive weight predicts it. */
  lemma VotesOnlyFromPositiveWeight(w: seq<int>, predictions: seq<Label>, k: nat, l: Label)
    requires NonNegative(w) && |w| == |predictions| && k <= |w|
    ensures l in Votes(w, predictions, k) <==> exists i :: 0 <= i < k && predictions[i] == l && w[i] > 0
  {
    var r := Votes(w, predictions, k);
    VotesCount(w, predictions, k, l);
    TallyPositiveIff(w, predictions, l, k);
    assert l in r <==> l in multiset(r);
  }

  /** When every weight is one, the vote list is the predictions themselves, in pool order. */
  lemma {:induction false} VotesOfUnitWeights(w: seq<int>, predictions: seq<Label>, k: nat)
    requires NonNegative(w) && |w| == |predictions| && k <= |w|
    requires forall i :: 0 <= i < |w| ==> w[i] == 1
    ensures Votes(w, predictions, k) == predictions[..k]
  {
    if k > 0 {
      VotesOfUnitWeights(w, predictions, k - 1);
      var x := predictions[k - 1];
      assert Repeat(x, w[k - 1]) == [x];
      assert predictions[..k] == predictions[..k - 1] + [x];
    }
  }

  /**
   When some classifier is competent, the classifiers that vote are exactly
   those the mask keeps that labelled at least one neighbour correctly.
   */
  lemma VotersAreOracles(dsel: seq<seq<int>>, neighbours: seq<int>, mask: seq<bool>, c: nat)
    requires WellShaped(dsel, neighbours, |mask|) && ZeroOne(dsel) && c < |mask|
    requires !AllZero(Competences(dsel, neighbours, mask))
    ensures VoteWeights(dsel, neighbours, mask)[c] > 0
            <==> mask[c] && exists j :: 0 <= j < |neighbours| && dsel[neighbours[j]][c] == 1
  {
    CompetencesNonNegative(dsel, neighbours, mask);
    WeightsSelectCompetent(Competences(dsel, neighbours, mask));
    CompetentIffSomeHit(dsel, neighbours, mask, c);
  }

  /**
   When no classifier is competent, each classifier casts exactly one vote, so
   the vote list is the pool's predictions in pool order.
   */
  lemma {:induction false} FallbackVotesArePredictions(competences: seq<int>, predictions: seq<Label>)
    requires |predictions| == |competences| && AllZero(competences)
    ensures NonNegative(Weights(competences))
    ensures Votes(Weights(competences), predictions, |competences|) == predictions
  {
    VotesOfUnitWeights(Weights(competences), predictions, |competences|);
    assert predictions[..|competences|] == predictions;
  }

  /**
   Among the labels whose total weight equals that of `x`, `x` is the label of
   the earliest classifier that votes: every voting classifier predicting a
   label with the same total is preceded (or matched) by a voting classifier
   predicting `x`.
   */
  ghost predicate EarliestAmongTies(w: seq<int>, predictions: seq<Label>, x: Label)
    requires |w| == |predictions|
  {
    forall i :: 0 <= i < |w| && w[i] > 0 && Tally(w, predictions, predictions[i], |w|) == Tally(w, predictions, x, |w|) ==>
      exists j :: 0 <= j <= i && w[j] > 0 && predictions[j] == x
  }

  /** A voting classifier whose label ties with the most common one starts its block no earlier than position `f`. */
  lemma TiedBlockAfterFirstMax(w: seq<int>, predictions: seq<Label>, f: int, i: nat) returns (s: nat)
    requires NonNegative(w) && |w| == |predictions|
    requires FirstOfMaxCount(Votes(w, predictions, |w|), f)
    requires i < |w| && w[i] > 0
    requires Tally(w, predictions, predictions[i], |w|) == Tally(w, predictions, Votes(w, predictions, |w|)[f], |w|)
    ensures s == SumUpTo(w, i) && f <= s
  {
    var n := |w|;
    var votes := Votes(w, predictions, n);
    s := BlockStart(w, predictions, n, i);
    VotesCount(w, predictions, n, predictions[i]);
    VotesCount(w, predictions, n, votes[f]);
    assert Count(votes, votes[s]) == Count(votes, votes[f]);
  }

  /**
   If position `f` holds the most common label, then for every voting
   classifier `i` whose label ties with it, a classifier no later than `i`
   votes for the label at `f`.
   */
  lemma {:induction false} TieStep(w: seq<int>, predictions: seq<Label>, f: int, i: nat) returns (j: nat)
    requires NonNegative(w) && |w| == |predictions|
    requires FirstOfMaxCount(Votes(w, predictions, |w|), f)
    requires i < |w| && w[i] > 0
    requires Tally(w, predictions, predictions[i], |w|) == Tally(w, predictions, Votes(w, predictions, |w|)[f], |w|)
    ensures j <= i && w[j] > 0 && predictions[j] == Votes(w, predictions, |w|)[f]
  {
    var s := TiedBlockAfterFirstMax(w, predictions, f, i);
    j := VotesOwner(w, predictions, |w|, f);
    if j > i {
      SumMonotone(w, i + 1, j);
    }
  }

  /**
   `x` wins the weighted plurality vote of the pool: some classifier with
   positive weight predicts it, no label has a larger total weight, and ties
   go to the label of the earliest voting classifier.
   */
  ghost predicate PluralityWinner(w: seq<int>, predictions: seq<Label>, x: Label)
    requires |w| == |predictions|
  {
    && (exists i :: 0 <= i < |w| && predictions[i] == x && w[i] > 0)
    && WinsTally(w, predictions, x)
    && EarliestAmongTies(w, predictions, x)
  }

  /** The earliest classifier with positive weight that predicts `x` or `y`, given one that predicts `x`. */
  lemma EarliestVoterOfEither(w: seq<int>, predictions: seq<Label>, x: Label, y: Label, ix: nat) returns (a: nat)
    requires |w| == |predictions| && ix < |w| && predictions[ix] == x && w[ix] > 0
    ensures a <= ix && w[a] > 0 && (predictions[a] == x || predictions[a] == y)
    ensures forall b :: 0 <= b < a ==> !(w[b] > 0 && (predictions[b] == x || predictions[b] == y))
  {
    a := 0;
    while !(w[a] > 0 && (predictions[a] == x || predictions[a] == y))
      invariant a <= ix
      invariant forall b :: 0 <= b < a ==> !(w[b] > 0 && (predictions[b] == x || predictions[b] == y))
      decreases ix - a
    {
      a := a + 1;
    }
  }

  /** At most one label wins the weighted plurality vote: the rule is deterministic. */
  lemma PluralityWinnerUnique(w: seq<int>, predictions: seq<Label>, x: Label, y: Label)
    requires |w| == |predictions|
    ensures PluralityWinner(w, predictions, x) && PluralityWinner(w, predictions, y) ==> x == y
  {
    if !(PluralityWinner(w, predictions, x) && PluralityWinner(w, predictions, y)) {
      return;
    }
    var n := |w|;
    var ix :| 0 <= ix < n && predictions[ix] == x && w[ix] > 0;
    var a := EarliestVoterOfEither(w, predictions, x, y, ix);
    assert Tally(w, predictions, y, n) <= Tally(w, predictions, x, n);
    assert Tally(w, predictions, x, n) <= Tally(w, predictions, y, n);
    // both winners claim the earliest vote among them, so both are its label
    assert Tally(w, predictions, predictions[a], n) == Tally(w, predictions, x, n);
    var jx :| 0 <= jx <= a && w[jx] > 0 && predictions[jx] == x;
    var jy :| 0 <= jy <= a && w[jy] > 0 && predictions[jy] == y;
    assert jx == a && jy == a;
  }

  /**
   The label `most_common()` puts first for a vote list is, in terms of the
   pool, the label of the earliest voting classifier among the tied labels.
   */
  lemma {:induction false} TieGoesToEarliestVoter(w: seq<int>, predictions: seq<Label>, x: Label)
    requires NonNegative(w) && |w| == |predictions|
    requires MostCommonLabel(Votes(w, predictions, |w|), x)
    ensures EarliestAmongTies(w, predictions, x)
  {
    var f :| FirstOfMaxCount(Votes(w, predictions, |w|), f) && Votes(w, predictions, |w|)[f] == x;
    forall i | 0 <= i < |w| && w[i] > 0 && Tally(w, predictions, predictions[i], |w|) == Tally(w, predictions, x, |w|)
      ensures exists j :: 0 <= j <= i && w[j] > 0 && predictions[j] == x
    {
      var j := TieStep(w, predictions, f, i);
    }
  }

  /** Over a 0/1 hit matrix no vote count is negative, so building the vote list cannot fail. */
  lemma OracleWeightsNonNegative(dsel: seq<seq<int>>, neighbours: seq<int>, mask: seq<bool>)
    requires WellShaped(dsel, neighbours, |mask|) && ZeroOne(dsel)
    ensures NonNegative(VoteWeights(dsel, neighbours, mask))
  {
    CompetencesNonNegative(dsel, neighbours, mask);
    WeightsSelectCompetent(Competences(dsel, neighbours, mask));
  }

  /**
   The vote list for a query, built the way the source builds it: the
   weights, with the all-zero fallback, and then, classifier by classifier in
   pool order, that classifier's prediction appended as many times as its
   weight. A negative weight makes the construction fail.
   */
  method Select(dsel: seq<seq<int>>, neighbours: seq<int>, mask: seq<bool>, predictions: seq<Label>)
    returns (r: Result<seq<Label>>)
    requires WellShaped(dsel, neighbours, |mask|) && |predictions| == |mask|
    ensures r.Err? <==> !NonNegative(VoteWeights(dsel, neighbours, mask))
    ensures r.Err? ==> r.failure == NegativeVoteCount
    ensures r.Ok? ==> r.value == Votes(VoteWeights(dsel, neighbours, mask), predictions, |mask|)
    ensures r.Ok? && |mask| > 0 ==> |r.value| > 0
    ensures r.Ok? ==> forall v :: v in r.value ==>
              exists i :: 0 <= i < |mask| && predictions[i] == v && VoteWeights(dsel, neighbours, mask)[i] > 0
  {
    var competences := EstimateCompetence(dsel, neighbours, mask);
    WeightsSelectCompetent(competences);
    var weights := if AllZero(competences) then seq(|mask|, _ => 1) else competences;
    assert weights == VoteWeights(dsel, neighbours, mask);
    if exists i :: 0 <= i < |weights| && weights[i] < 0 {
      return Err(NegativeVoteCount);
    }
    var votes := [];
    for i := 0 to |mask|
      invariant votes == Votes(weights, predictions, i)
    {
      votes := votes + Repeat(predictions[i], weights[i]);
    }
    if |mask| > 0 {
      WeightsTotalPositive(competences);
    }
    forall v | v in votes
      ensures exists i :: 0 <= i < |mask| && predictions[i] == v && weights[i] > 0
    {
      VotesOnlyFromPositiveWeight(weights, predictions, |mask|, v);
    }
    r := Ok(votes);
  }

  // ---------------------------------------------------------------------------
  // Majority vote
  // ---------------------------------------------------------------------------

  /**
   Position `f` holds the label `collections.Counter(votes).most_common()[0][0]`
   returns: its label has the largest count, and every earlier position holds a
   label with a strictly smaller count (from Python 3.7 the counter lists
   labels in order of first occurrence, and the sort by count keeps that order
   among ties).
   */
  predicate FirstOfMaxCount(votes: seq<Label>, f: int)
  {
    && 0 <= f < |votes|
    && (forall j :: 0 <= j < |votes| ==> Count(votes, votes[j]) <= Count(votes, votes[f]))
    && (forall j :: 0 <= j < f ==> Count(votes, votes[j]) < Count(votes, votes[f]))
  }

  /** `x` is the label `most_common()` puts first for this vote list. */
  ghost predicate MostCommonLabel(votes: seq<Label>, x: Label)
  {
    exists f :: FirstOfMaxCount(votes, f) && votes[f] == x
  }

  /** The tie-breaking rule picks a single position: no other position satisfies it. */
  lemma FirstOfMaxCountUnique(votes: seq<Label>, f: int, g: int)
    requires FirstOfMaxCount(votes, f) && 0 <= g < |votes| && g != f
    ensures !FirstOfMaxCount(votes, g)
  {
    if g < f {
      assert Count(votes, votes[g]) < Count(votes, votes[f]);
    } else {
      assert Count(votes, votes[g]) <= Count(votes, votes[f]);
    }
  }

  /**
   The most common label of the vote list; an empty list has none.
   */
  method MostCommon(votes: seq<Label>) returns (r: Result<Label>)
    ensures r.Err? <==> |votes| == 0
    ensures r.Err? ==> r.failure == NoVotes
    ensures r.Ok? ==> r.value in votes && forall l :: Count(votes, l) <= Count(votes, r.value)
    ensures r.Ok? ==> MostCommonLabel(votes, r.value)
  {
    if |votes| == 0 {
      return Err(NoVotes);
    }
    var best := 0;
    for i := 1 to |votes|
      invariant 0 <= best < i
      invariant forall j :: 0 <= j < i ==> Count(votes, votes[j]) <= Count(votes, votes[best])
      invariant forall j :: 0 <= j < best ==> Count(votes, votes[j]) < Count(votes, votes[best])
    {
      if Count(votes, votes[i]) > Count(votes, votes[best]) {
        best := i;
      }
    }
    assert FirstOfMaxCount(votes, best);
    forall l | Count(votes, l) > 0
      ensures Count(votes, l) <= Count(votes, votes[best])
    {
      assert l in multiset(votes);
      var j :| 0 <= j < |votes| && votes[j] == l;
    }
    r := Ok(votes[best]);
  }

  /**
   The KNORA-U prediction for a query: the label with the largest total
   weight among the classifiers' predictions, predicted by at least one
   classifier that votes, ties going to the label whose first vote comes
   first. It fails on a negative vote count, and on an empty pool, which
   leaves no votes.
   */
  method ClassifyInstance(dsel: seq<seq<int>>, neighbours: seq<int>, mask: seq<bool>, predictions: seq<Label>)
    returns (r: Result<Label>)
    requires WellShaped(dsel, neighbours, |mask|) && |predictions| == |mask|
    ensures r.Err? <==> !NonNegative(VoteWeights(dsel, neighbours, mask)) || |mask| == 0
    ensures r.Err? ==> (r.failure == NegativeVoteCount <==> !NonNegative(VoteWeights(dsel, neighbours, mask)))
    ensures r.Ok? ==> NonNegative(VoteWeights(dsel, neighbours, mask))
    ensures r.Ok? ==> PluralityWinner(VoteWeights(dsel, neighbours, mask), predictions, r.value)
  {
    var selected := Select(dsel, neighbours, mask, predictions);
    if selected.Err? {
      return Err(selected.failure);
    }
    var votes := selected.value;
    forall l
      ensures Count(votes, l) == Tally(VoteWeights(dsel, neighbours, mask), predictions, l, |mask|)
    {
      VotesCount(VoteWeights(dsel, neighbours, mask), predictions, |mask|, l);
    }
    r := MostCommon(votes);
    if r.Ok? {
      TieGoesToEarliestVoter(VoteWeights(dsel, neighbours, mask), predictions, r.value);
    }
  }
}

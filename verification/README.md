# KNORA-U decision rule

A Dafny model of the KNORA-U (k-Nearest Oracles Union) dynamic ensemble
selection rule of `pythonds/des/knora_u.py`, class `KNORAU`. For one query
sample it works in three steps:

1. **estimate_competence**: each base classifier's competence is the number of
   samples in the query's region of competence (its nearest DSEL neighbours)
   that the classifier labelled correctly. A classifier that the pruning mask
   switches off gets competence 0.
2. **select**: each classifier casts as many votes for its own predicted label
   as its competence. If every competence is 0, each classifier casts exactly
   one vote instead. The votes are laid out classifier by classifier, in pool
   order.
3. **classify_instance**: the prediction is the label with the most votes.
   Ties go to the label whose first vote comes earliest, which is the order
   `collections.Counter(votes).most_common()` lists them in from Python 3.7 on.

The inputs that the rest of the library computes are explicit parameters:

- `dsel` is the oracle ("hit") matrix `processed_dsel`. It has one row per DSEL
  sample and one column per classifier. An entry is 1 when that classifier
  labelled that sample correctly.
- `neighbours` is the list of neighbour row indices returned by the region of
  competence search.
- `mask` holds one flag per classifier. It is false when dynamic frienemy
  pruning removed the classifier. Its length is the pool size `n_classifiers`.
- `predictions` holds one label per classifier: `clf.predict(query)[0]`.

Files:

- `counting.dfy`, module `Counting`: prefix sums, `Repeat`
  (`np.ones(n, dtype=int) * label`) and `Count` (`Counter(votes)[label]`).
- `knora_u.dfy`, module `KnoraU`: the rule. It has reference definitions
  (`Competences`, `Weights`, `Votes`, `Tally`, `FirstOfMaxCount`,
  `PluralityWinner`), methods
  that follow the source's loops (`EstimateCompetence`, `Select`,
  `MostCommon`, `ClassifyInstance`), and lemmas connecting the two.

The source raises two exceptions here, and both become `Err` results:

- `NegativeVoteCount` is the `ValueError` that `np.ones` raises for a negative
  length. A negative vote count needs a hit matrix that is not 0/1.
- `NoVotes` is the `IndexError` of `most_common()[0]` on an empty vote list,
  which happens exactly when the pool is empty.

## Model

| member | source | states |
|---|---|---|
| Counting.Repeat | pythonds/des/knora_u.py:116 | `np.ones(n) * label` has length n and every entry is the label |
| Counting.RepeatCount | pythonds/des/knora_u.py:116 | `np.ones(n) * label` holds the label n times and no other label |
| KnoraU.EstimateCompetence | pythonds/des/knora_u.py:85-94 | one competence per classifier; a pruned classifier gets 0; a kept one gets the sum of its hit entries over the neighbours; the result agrees with the reference `Competences`, the model of lines 86-94 |
| KnoraU.ColumnSumCountsHits | pythonds/des/knora_u.py:90-92 | over a 0/1 matrix, summing a classifier's hit entries counts the neighbour positions it got right, so the sum is between 0 and the number of neighbours |
| KnoraU.CompetenceIsHitCount | pythonds/des/knora_u.py:70-74 | over a 0/1 matrix, a kept classifier's competence is the number of neighbours it labelled correctly; a pruned one's is 0; every competence is between 0 and the number of neighbours |
| KnoraU.CompetencesNonNegative | pythonds/des/knora_u.py:86-92 | over a 0/1 matrix, no competence is negative |
| KnoraU.CompetentIffSomeHit | pythonds/des/knora_u.py:18-19 | a classifier has positive competence if and only if the mask keeps it and it labelled at least one neighbour correctly |
| KnoraU.Weights | pythonds/des/knora_u.py:111-113 | the reference weights (the competences, or one vote each when every competence is zero) have one entry per classifier; they are non-negative when the competences are, and then a non-empty pool always has a classifier with positive weight |
| KnoraU.WeightsSelectCompetent | pythonds/des/knora_u.py:110-113 | if every competence is zero, every weight is 1; otherwise the weights are the competences unchanged; the weights are non-negative exactly when the competences are; then a classifier has positive weight if and only if it is competent or none is |
| KnoraU.WeightsTotalPositive | pythonds/des/knora_u.py:111-116 | with non-negative competences and a non-empty pool, the total weight (the vote list's length) is positive |
| KnoraU.OracleWeightsNonNegative | pythonds/des/knora_u.py:86-113 | over a 0/1 matrix, no vote count is negative, so the vote list can always be built |
| KnoraU.Votes | pythonds/des/knora_u.py:114-116 | the vote list's length is the sum of the weights |
| KnoraU.VotesCount | pythonds/des/knora_u.py:114-116 | each label occurs in the vote list exactly as often as the total weight of the classifiers predicting it; the occurrence count is `Counting.Count`, the model of `Counter(votes)[label]` at line 136 |
| KnoraU.TallyPositiveIff | pythonds/des/knora_u.py:99-100 | a label's total weight is positive if and only if some classifier with positive weight predicts it |
| KnoraU.VotesPrefix | pythonds/des/knora_u.py:114-116 | the votes of the first j classifiers are a prefix of the votes of the first k (j <= k) |
| KnoraU.VotesLayout | pythonds/des/knora_u.py:114-116 | classifier i owns the contiguous block of the vote list that starts after the votes of classifiers 0..i-1; the block is exactly `weights[i]` copies of its prediction |
| KnoraU.BlockStart | pythonds/des/knora_u.py:114-116 | the first vote of a classifier with positive weight sits at the start of its block and is its prediction |
| KnoraU.VotesOwner | pythonds/des/knora_u.py:114-116 | every position of the vote list lies in the block of some classifier with positive weight, and holds that classifier's prediction |
| KnoraU.VotesOnlyFromPositiveWeight | pythonds/des/knora_u.py:99-100 | a label appears in the vote list if and only if a classifier with positive weight predicts it |
| KnoraU.VotesOfUnitWeights | pythonds/des/knora_u.py:113-116 | when every weight is 1, the vote list is the predictions in pool order |
| KnoraU.VotersAreOracles | pythonds/des/knora_u.py:18-21 | when some classifier is competent, a classifier votes if and only if the mask keeps it and it labelled some neighbour correctly |
| KnoraU.FallbackVotesArePredictions | pythonds/des/knora_u.py:111-116 | when every competence is zero, every weight is 1 and the vote list is exactly the pool's predictions in pool order |
| KnoraU.Select | pythonds/des/knora_u.py:96-118 | fails (negative vote count) if and only if some weight is negative; otherwise it returns the reference vote list, which is non-empty for a non-empty pool, and every vote comes from a classifier with positive weight |
| KnoraU.FirstOfMaxCountUnique | pythonds/des/knora_u.py:136-137 | the tie-breaking rule picks one position only, so the most common label is determined by the vote list |
| KnoraU.TieGoesToEarliestVoter | pythonds/des/knora_u.py:136-137 | the label `most_common()` puts first is, in pool terms, the label of the earliest voting classifier among the labels tied for the largest total weight |
| KnoraU.PluralityWinnerUnique | pythonds/des/knora_u.py:124-137 | at most one label has a voting classifier, the largest total weight and the earliest voter among ties, so the prediction is fully determined by the weights and the predictions |
| KnoraU.MostCommon | pythonds/des/knora_u.py:136-137 | for a non-empty vote list, the result is a vote whose count is at least every label's count, taken at the first position with a maximal count (`FirstOfMaxCount`, the model of `most_common()[0][0]`); an empty list fails with NoVotes |
| KnoraU.ClassifyInstance | pythonds/des/knora_u.py:120-138 | fails with a negative vote count if and only if some weight is negative, and with no votes if and only if the pool is empty; otherwise the prediction is the weighted plurality winner of the pool: a classifier with positive weight predicts it, no label has a larger total weight, and among tied labels it belongs to the earliest voting classifier |

## Left out

- The constructor and the `weighted` flag. The flag is stored but never read.
  Distance weighting would also need floating point.
- `_get_region_competence`, the neighbour search and A-KNN: `neighbours` is a
  parameter. They live in `pythonds/des/base.py`, which is not part of this model.
- The construction of `processed_dsel`, `mask` and `n_classifiers`, and the DFP
  and IH machinery (same base class). They are parameters, shaped as
  `WellShaped` states: every row has one entry per classifier, and every
  neighbour index is a valid row.
- The pool has as many classifiers as the mask has entries. `Select` and
  `ClassifyInstance` require this, as the base class's construction ensures.
- Python's negative indexing. Neighbour indices are assumed non-negative;
  an index outside the matrix would raise `IndexError`, and the model
  excludes it through `WellShaped`.
- `clf.predict(query)`, a foreign call into the base estimators: `predictions`
  is a parameter. Labels are modelled as integers because only their equality
  matters to the vote; float labels, which numpy would also accept, behave the
  same way.
- numpy's int64 sums and float64 competence array, and the `astype(int)` cast.
  `ColumnSum` is an unbounded integer sum. It equals the source's value while
  every column sum stays below 2^53 in magnitude, which always holds for a 0/1
  matrix (its sums are at most `|neighbours|`). int64 wrap-around and float64
  rounding beyond that bound are not modelled.
- Select: when a weight is negative the source raises part-way through the
  loop, after some votes are stacked. The model reports the same error before
  stacking anything. Either way no vote list is returned.
- The 0/1 shape of the hit matrix is assumed only by the lemmas that count
  hits (`ColumnSumCountsHits`, `CompetenceIsHitCount`, `CompetencesNonNegative`,
  `CompetentIffSomeHit`, `VotersAreOracles`, `OracleWeightsNonNegative`).
  `EstimateCompetence`, `Select` and `ClassifyInstance` accept any integer
  matrix, within the magnitude bound of the previous line.
- TieGoesToEarliestVoter, MostCommon and ClassifyInstance assume Python 3.7 or
  later, where `Counter` keeps insertion order, so tied labels are listed in the
  order of their first vote. Under Python 2 the order among tied labels follows
  hashing and is not modelled.

# Recommender core in Dafny

A model of the core of a small recommender engine written in Python. The
model covers three parts.

- **The rating-matrix store** (`Score` in score.py). A users x items matrix
  whose rows and columns follow the sorted id lists, with 0 meaning "not
  rated". It provides vote counts, averages of positive cells, a
  minimum-vote filter, the "unrated" test and the cosine similarity of two
  users over co-rated positions. The two loaders (`ScoreMovies`,
  `ScoreBooks`) build it from rating lines.
- **The three ranking strategies** of recomanacions.py:
  - popularity, a shrinkage blend of the item average and the global average;
  - user-based collaborative prediction from the most similar users;
  - content-based scoring from a feature matrix weighted by the user's
    ratings.

  All three end in the same greedy top-5 loop.
- **The evaluator** (`Avaluador.calcular_error`). It computes MAE and mean
  squared error over the positions the user rated.

Modules, one per file:

| module | file | models |
|---|---|---|
| `Wrappers` | wrappers.dfy | `Result` and the kinds of failure the Python code raises |
| `Ids` | ids.dfy | `sorted()` on string ids, `list.index`, the capped registration scans |
| `Vectors` | vectors.dfy | the numpy reductions used: sums, positive-cell selection, means, dot products, `max` |
| `Score` | score.dfy | the store of score.py and its queries |
| `Ingest` | ingest.dfy | `ScoreMovies.__init__` and `ScoreBooks.__init__` over split rating lines |
| `Selection` | selection.dfy | the greedy top-5 loop of recomanacions.py |
| `Popularity` | popularity.dfy | `RecomanacioSimple.recomana_per` |
| `Collaborative` | collaborative.dfy | `RecomanacioColaborativa.recomana_per` |
| `ContentBased` | content.dfy | `RecomanacioBasadaEnContingut.recomana_per` after the TF-IDF matrix is built |
| `Evaluator` | evaluator.dfy | `Avaluador.calcular_error` in Avaluador.py |

How the Python behaviour maps onto the model:

- **The store is a value.** `Score.Store(users, items, mat)` is one: the
  Python object is never changed once its constructor has returned. The
  constructors build the matrix cell by cell. `Ingest.FillMatrix` does the
  same on a Dafny `array2`.
- **Exceptions become `Err` results.** A `ValueError` from `list.index`
  becomes `UnknownId`. A `ZeroDivisionError` becomes `NoCandidates` in
  `avg_global` and `ZeroDenominator` elsewhere. An `IndexError` past the
  last column becomes `OutOfRange`. `max()` of an exhausted score list
  becomes `Exhausted`, and `max()` of a matrix without cells becomes
  `EmptyMatrix`.
- **NaN.** Where numpy would produce NaN (the mean of an empty selection, a
  float division by zero), the strategies return `Err(NotANumber)` and the
  store functions require a positive cell.
- **Square roots.** `math.sqrt` is a parameter, `sqrt: SqrtFn`, that is
  positive on positive arguments.
- **Ids** are strings ordered by code point (`Ids.Less`), as Python's
  `sorted` orders them.

The code is followed where its behaviour is unusual. Lemmas state each of
these quirks:

- `similitud` scans only the first `|users|` columns, and fails when there
  are more users than items (`Score.SimilarityMissesLaterItems`).
- The neighbour slice `[:k+2][1:]` keeps up to six users.
- An equally similar user with a smaller id can take the client's first
  place, and the client then becomes their own neighbour
  (`Collaborative.ClientCanBeOwnNeighbour`).
- The selection loop has no guard against running out of items
  (`Exhausted`).
- `avg_item` and `avg_usu` average only the strictly positive cells.

## Model

| member | source | states |
|---|---|---|
| `Ids.IndexOf` | score.py:39 | `list.index` returns the first position holding the id |
| `Ids.Insert` | score.py:122-123 | inserting into a sorted id list keeps it strictly sorted and adds exactly the new id |
| `Ids.SortedList` | score.py:122-123 | `list(sorted(set))` is strictly sorted and holds exactly the ids of the set |
| `Ids.SortedUnique` | score.py:122-123 | two strictly sorted lists with the same ids are equal, so the sorted order is determined by the id set |
| `Ids.Admitted` | score.py:112-120 | the number of lines a capped registration scan reads (also the catalogue scan of score.py:147-155), never more than it is given; `Ids.AdmittedWithinCap` bounds what it registers |
| `Ids.AdmittedWithinCap` | score.py:112-120 | a scan that registers ids while fewer than the cap are known registers at most the cap, and stops early only once the cap is reached |
| `Vectors.PositivesIgnoreZero` | score.py:48-50 | the selection `x[x > 0]` is unaffected by a zero entry anywhere |
| `Vectors.MeanOfPositivesIsSumOverCount` | score.py:48-50 | on non-negative cells, the mean of the positive cells equals the sum over the count of non-zero cells |
| `Vectors.MeanOfPositivesExample` | score.py:48-50 | on the cells 0, 3, 0, 5 the positive cells are 3 and 5, and their mean is 4 |
| `Vectors.MaxOf` | score.py:98-99 | the maximum is an element of the vector and no element exceeds it |
| `Score.NumVotes` | score.py:52-57 | `num_vots` never exceeds the number of users |
| `Score.NumVotesCountsRaters` | score.py:52-57 | `num_vots(i)` equals the number of users for whom `no_vista(u, i)` is false |
| `Score.WithMinVotes` | score.py:31-36 | the `min_vots(m)` list over the first `n` columns holds at most `n` ids, all registered items; `Score.WithMinVotesMembers` says which |
| `Score.WithMinVotesMembers` | score.py:31-36 | an id is in the `min_vots(m)` list iff its column has at least `m` non-zero cells, and the list follows column order |
| `Score.MinVotes` | score.py:31-36 | the loop returns exactly the items with at least `m` votes, strictly sorted |
| `Score.AvgItem` | score.py:43-50 | on a column with a positive cell, `avg_item` is positive; the column is read through `Score.Column`, whose entry `r` is the cell of user `r` |
| `Score.AvgItemIsSumOverVotes` | score.py:43-57 | on a non-negative column with a positive cell, `avg_item` is the column sum over `num_vots`, so zero cells neither add nor count |
| `Score.AvgItemWithin` | score.py:43-50 | `avg_item` lies within any bounds of the column's positive cells |
| `Score.AvgUser` | score.py:38-41 | on a row with a positive cell, `avg_usu` is positive |
| `Score.AvgUserIsSumOverRated` | score.py:38-41 | on a non-negative row, `avg_usu` is the row sum over the number of rated items |
| `Score.AvgUserWithin` | score.py:38-41 | `avg_usu` lies within any bounds of the row's positive cells |
| `Score.AvgGlobal` | score.py:59-66 | fails with a division by zero iff the id list is empty; otherwise it returns the mean of the item averages |
| `Score.GlobalAverageWithin` | score.py:59-66 | the global average lies within any bounds of the item averages it combines (`Score.ItemAverages`, the `avg_item` of each id in order), and is positive |
| `Score.RatingsVector` | score.py:95-96 | the user's row is aligned with the item list, and its zero entries are exactly the items `no_vista` reports |
| `Score.MaxRating` | score.py:98-99 | `max()` is a cell of the matrix that no cell exceeds |
| `Score.Unrated` | score.py:68-72 | `no_vista` is false only for an item with at least one vote; `Score.NumVotesCountsRaters` counts exactly the users for whom it is false |
| `Score.CellAt` | score.py:69 | looking a cell up by the ids at row `r` and column `c` gives the cell at `(r, c)` |
| `Score.CoRated` | score.py:81-87 | the two running sums of squares are never negative |
| `Score.Cosine` | score.py:89-92 | the similarity is positive iff the dot product and both sums of squares are positive, and negative iff the dot product is negative and both sums are positive; otherwise it is 0 |
| `Score.SimilarityOf` | score.py:74-92 | `similitud` fails iff an id is unknown (`ValueError` of `list.index`) or there are more users than items (`IndexError` past the last column), and the unknown id is reported first |
| `Score.Similarity` | score.py:74-92 | the loop's three running sums and the returned value are those of `SimilarityOf`, including the failure for an unknown id and the failure past the last column |
| `Score.SimilaritySymmetric` | score.py:74-92 | `similitud(a, b) == similitud(b, a)`, failures included |
| `Score.CoRatedOnlyShared` | score.py:84-87 | only co-rated positions contribute: zeroing either row wherever the other is zero changes none of the three sums |
| `Score.SimilarityDisjointIsZero` | score.py:84-92 | two users with no co-rated scanned position have similarity 0 |
| `Score.SimilarityPositive` | score.py:84-90 | with non-negative rows, one co-rated scanned position makes the similarity positive |
| `Score.SimilaritySelf` | score.py:84-90 | with an exact square root, a user who rated a scanned position has similarity 1 with themself |
| `Score.SimilarityMissesLaterItems` | score.py:80-81 | two users who share only the third of three items have similarity 0, because the scan stops at the user count |
| `Ingest.LastScore` | score.py:128-133 | the cell of a pair is 0 or the score of some line for that pair |
| `Ingest.LastWriteWins` | score.py:128-133 | a line for `(u, i)` followed by no other line for that pair decides the cell |
| `Ingest.NoLineNoScore` | score.py:125 | a pair without a line keeps the 0 of `np.zeros` |
| `Ingest.OtherLineKeepsCell` | score.py:189-190 | a line for another pair, or one skipped for an unregistered id, leaves the cell unchanged |
| `Ingest.FillMatrix` | score.py:125-133 | the matrix has one row per user and one column per item, and each cell holds the last score written for its pair or 0; it fails iff some line has an unregistered id and such lines are not skipped |
| `Ingest.MovieItemsCapped` | score.py:112-120 | the first pass registers at most 50000 items, and stops before the last line only once 50000 are known |
| `Ingest.RegisterMovies` | score.py:112-120 | the first pass registers exactly the users and items of the lines read while fewer than 50000 items are known |
| `Ingest.LoadMovies` | score.py:109-133 | the store is well formed, holds exactly the registered ids and holds the last score of each pair; it fails iff some line, including one past the cap, names an id the first pass did not register |
| `Ingest.RegisterCatalogue` | score.py:147-155 | the catalogue pass registers exactly the ids of the lines read while fewer than 50000 items are known |
| `Ingest.RegisterUsers` | score.py:156-161 | the users pass registers every id of the users file |
| `Ingest.BooksRead` | score.py:172-193 | the ratings loop reads a prefix of the lines, all of them up to 50000 and exactly 50000 when there are more |
| `Ingest.LoadBooks` | score.py:144-193 | the store is well formed, holds the users file's ids and the catalogue ids read before the cap, and each cell holds the last score, for that pair, among the lines `BooksRead` keeps |
| `Ingest.BooksIgnoreLinesPastCap` | score.py:172-193 | appending lines after the first 50000 lets `LoadBooks` build the very same store |
| `Selection.ArgMax` | recomanacions.py:50 | `s.index(max(s))` and `np.argmax` pick the first position of the largest score |
| `Selection.RemoveAt` | recomanacions.py:55-56 | `pop(k)` and `np.delete(a, k)` drop position `k` and move later entries down by one |
| `Selection.Greedy` | recomanacions.py:49-56 | the loop fails only by running out of items, returns exactly as many items as wanted, and each comes from the id list and was admitted |
| `Selection.SelectTop` | recomanacions.py:46-56 | the top-5 loop returns what `Greedy` defines, popping only from copies |
| `Selection.GreedySucceeds` | recomanacions.py:49-50 | the loop succeeds iff the list holds at least as many admissible items as wanted, and then returns exactly that many |
| `Selection.GreedyDistinct` | recomanacions.py:49-56 | on a duplicate-free id list the returned items are distinct |
| `Selection.GreedyOrdered` | recomanacions.py:49-56 | the returned items appear in non-increasing order of their scores |
| `Selection.GreedyBest` | recomanacions.py:49-56 | no admissible item left out scores more than a returned one |
| `Selection.RemoveMaxKeepsScores` | recomanacions.py:55-56 | popping the maximum position from both lists keeps every other item paired with its own score |
| `Selection.CountAdmittedRemoveAt` | recomanacions.py:55-56 | popping a position removes exactly that item from the admissible count |
| `Selection.GreedyTop` | recomanacions.py:49-56 | the loop succeeds iff five admissible items exist, and then returns five distinct admitted items, best first, none beaten by one left out |
| `Popularity.Blend` | recomanacions.py:43 | `(v + m)` times the blend is `v` times the item average plus `m` times the global average: a weighted average of the two |
| `Popularity.BlendWithin` | recomanacions.py:43 | with `m >= 0` and `v + m > 0` the blend lies between the item average and the global average |
| `Popularity.BlendWithoutVotes` | recomanacions.py:43 | an item without votes scores exactly the global average |
| `Popularity.BlendWithoutThreshold` | recomanacions.py:43 | with threshold 0 an item with votes scores exactly its own average |
| `Popularity.BlendMonotone` | recomanacions.py:43 | a better item average never lowers the blend |
| `Popularity.CandidatesAveraged` | recomanacions.py:34-38 | the candidates of `min_vots` are registered items, and when every item has a rating they can all be averaged |
| `Popularity.ScoresWithin` | recomanacions.py:38-44 | with a non-negative threshold every score lies between the lowest and the highest item average |
| `Popularity.BlendItem` | recomanacions.py:40-43 | one pass of the loop raises iff `num_vots + min_vots` is 0, and otherwise yields the item's blend |
| `Popularity.BlendLoop` | recomanacions.py:37-44 | the loop fails iff some item makes `num_vots + min_vots` zero; otherwise position `c` holds item `c`'s blend |
| `Popularity.Recommend` | recomanacions.py:32-57 | each failure occurs exactly under its condition, in the source's order; on success the scores are the blends and the items are the top five unrated candidates |
| `Collaborative.InsertRanked` | recomanacions.py:72 | stable insertion makes the list one entry longer; `Collaborative.InsertRankedPermutes` and `Collaborative.InsertRankedKeepsRanked` say what it adds and where |
| `Collaborative.RankAll` | recomanacions.py:72 | `sort(reverse=True)` keeps the length of `similituds`; `Collaborative.RankAllCorrect` makes it a ranked permutation |
| `Collaborative.InsertRankedPermutes` | recomanacions.py:72 | stable insertion adds exactly the new entry |
| `Collaborative.InsertRankedKeepsRanked` | recomanacions.py:72 | inserting an entry whose id is after every id already placed keeps the list ranked and the user ids distinct |
| `Collaborative.RankAllCorrect` | recomanacions.py:72 | the stable descending sort of the id-ordered list is a permutation of it, ranked by similarity with ties in id order |
| `Collaborative.Neighbours` | recomanacions.py:73 | the slice `[:k+2][1:]` keeps `min(k + 2, n) - 1` entries, those after the first |
| `Collaborative.SimilaritiesUpTo` | recomanacions.py:66-70 | after `n` iterations `similituds` pairs each of the first `n` users, in id order, with their similarity to the client |
| `Collaborative.SimilarityCall` | recomanacions.py:69 | each `similitud` call fails iff there are more users than items, and otherwise yields the cosine |
| `Collaborative.SimilaritiesByUser` | recomanacions.py:66-70 | `similituds` lists registered users in strictly increasing id order |
| `Collaborative.NeighboursOfFacts` | recomanacions.py:66-74 | there are `min(7, n) - 1` neighbours for `n` users, all registered users with distinct ids, in ranking order |
| `Collaborative.NeighboursKeep` | recomanacions.py:73 | the slice of a ranking is ranked, has distinct ids and only holds entries of the ranking |
| `Collaborative.ScanSimilarities` | recomanacions.py:66-70 | the loop fails iff there are more users than items, and otherwise yields `Similarities` |
| `Collaborative.Prediction` | recomanacions.py:84-88 | the prediction minus the client's average, times the sum of the similarities (`Collaborative.Weights`), is the similarity-weighted sum of the deviations (`Collaborative.Deviations`, each neighbour's cell minus their own average); `Collaborative.Predictions` lists it for every item |
| `Collaborative.PredictionWithin` | recomanacions.py:78-88 | with non-negative similarities the prediction is the client's average shifted by no more than the extreme deviations |
| `Collaborative.PredictionAtAverages` | recomanacions.py:78-88 | neighbours whose cells match their own averages leave the client's average unchanged |
| `Collaborative.UnratedNeighbourPullsDown` | recomanacions.py:85 | an unrated neighbour cell contributes `0 - avg_usu`, which is negative |
| `Collaborative.Accumulate` | recomanacions.py:79-86 | over `usuaris_similars` (`Collaborative.UserIds`, the neighbours' ids in ranking order) the inner loop's `numerador` is the similarity-weighted sum of the deviations, and its `denominador` is the sum of the similarities |
| `Collaborative.AccumulateStep` | recomanacions.py:82-86 | step `k` of the inner loop reads neighbour `k` and that neighbour's similarity |
| `Collaborative.PredictItem` | recomanacions.py:79-88 | the score of one item is the client's average plus the weighted mean deviation |
| `Collaborative.PredictAll` | recomanacions.py:76-88 | position `c` of `puntuacions` holds the prediction for item `c` |
| `Collaborative.Recommend` | recomanacions.py:65-100 | each failure occurs exactly under its condition, in the source's order; on success the scores are the predictions and the items are the top five unrated items |
| `Collaborative.ClientCanBeOwnNeighbour` | recomanacions.py:72-73 | with a tie at the top, a user of smaller id ranks first and is dropped, and the client remains among the neighbours |
| `ContentBased.ScaleRows` | recomanacions.py:120-121 | the in-place loop multiplies every cell of row `i` by rating `i` |
| `ContentBased.WeightRows` | recomanacions.py:119-121 | copying the feature matrix and scaling its rows in place yields `Scale` |
| `ContentBased.Profile` | recomanacions.py:123-126 | each entry of `Q` is the rating-weighted sum of its feature column (`ContentBased.Col`) divided by the sum of the ratings |
| `ContentBased.ScaledColumnSums` | recomanacions.py:119-123 | column `b` of `perfil_user`, the column sums of the weighted rows (`ContentBased.Scale`, each feature row times the user's rating of that item), is the dot product of the ratings with feature column `b` |
| `ContentBased.ProfileWithin` | recomanacions.py:123-126 | with non-negative ratings of positive sum each entry of `Q` lies within the bounds of its feature column |
| `ContentBased.UnratedRowsIgnored` | recomanacions.py:119-126 | feature rows of unrated items do not affect the profile |
| `ContentBased.ProfileNonNegative` | recomanacions.py:123-126 | with non-negative features and ratings of positive sum no entry of `Q` is negative |
| `ContentBased.ContentScores` | recomanacions.py:128-130 | one score per item; `ContentBased.ContentScoresNonNegative` bounds them |
| `ContentBased.ContentScoresNonNegative` | recomanacions.py:128-130 | with non-negative features, ratings and maximum no score is negative |
| `ContentBased.ScoreItems` | recomanacions.py:123-130 | dividing `perfil_user` by the sum of the ratings, taking the dot product with every feature row and scaling by `max()` yields `ContentScores` |
| `ContentBased.Recommend` | recomanacions.py:110-141 | each failure occurs exactly under its condition, in the source's order; on success the scores are `F·Q * max()` and the items are the top five unrated items |
| `Evaluator.Mask` | Avaluador.py:18 | the mask keeps one entry per non-zero actual rating |
| `Evaluator.Evaluate` | Avaluador.py:14-26 | nothing is computed iff there are no predictions; the "more ratings needed" branch is taken iff every actual rating is 0; the metrics are the means of `Evaluator.AbsDiffs` and `Evaluator.SqDiffs` over the masked vectors |
| `Evaluator.MaskIgnoresUnrated` | Avaluador.py:18 | predictions at unrated positions never reach the masked vectors |
| `Evaluator.EvaluateIgnoresUnrated` | Avaluador.py:18-21 | predictions at unrated positions never affect either metric |
| `Evaluator.MetricsNonNegative` | Avaluador.py:20-21 | MAE and the mean squared error, the means of the absolute and squared differences, are non-negative |
| `Evaluator.ExactPredictionsHaveNoError` | Avaluador.py:20-21 | predictions equal to the ratings at every rated position give 0 on both metrics |
| `Evaluator.EvaluateExample` | Avaluador.py:18-21 | errors 1 and 2 at two rated positions, with a wild prediction at an unrated one, give MAE 1.5 and mean squared error 2.5 |

## Left out

- File reading and CSV splitting in the constructors, including the
  hard-coded users file path. The loaders take lines that are already read
  and split: `Ingest.Rating` values, catalogue ids, user ids.
- `float(score)` on a malformed line and a line with the wrong number of
  fields, which raise in the source. Every line is taken to be well formed.
- The TF-IDF vectoriser from sklearn. The content strategy takes the
  feature matrix as an input with one row per item.
- `input()` for the vote threshold. It is the parameter `m` of
  `Popularity.Recommend`.
- The accessors `ll_items()`, `ll_usuaris()` and `item_features()`: they are
  called but are not part of this model. `ll_items()` is taken to return a
  fresh copy of the sorted id list, because the callers pop from it.
- The float16 storage of the matrix and all floating-point rounding.
  Ratings and scores are exact `real`s.
- `math.sqrt`, a parameter `sqrt` whose only assumed property is that it is
  positive on positive arguments. `Score.SimilaritySelf` additionally
  assumes an exact square root.
- Evaluator.Evaluate: reports the mean squared error rather than the
  RMSE, its square root.
- NaN and infinity. The Python program carries on with a NaN score:
  `max` and `np.argmax` then pick positions by NaN comparison rules. The
  model instead stops with `NotANumber` as soon as
  a NaN would enter the scores. The cases are:
  - popularity: an item without a positive cell;
  - collaborative: a client or neighbour without one, or similarities that
    sum to 0;
  - content-based: a user whose ratings sum to 0.
- Popularity.BlendLoop: `puntuacions` is a local sequence updated one
  position at a time, not a numpy array. When some average is NaN, the
  values it writes are not modelled.
- Popularity.Recommend: an unknown user and too few admissible candidates
  fail as in the Python program, whatever the scores are. Past those
  checks, on the NaN path above it returns `NotANumber` where the program
  returns its scores and a list chosen by NaN comparison.
- Collaborative.Recommend: an unknown user, more users than items, no
  neighbour and too few unrated items fail as in the Python program. Past
  those checks, on the NaN paths above it returns `NotANumber` where the
  program returns its scores and a list chosen by NaN comparison.
- ContentBased.Recommend: an unknown user, an empty matrix and too few
  unrated items fail as in the Python program. Past those checks, on the
  NaN path above it returns `NotANumber` where the program returns its
  scores and a list chosen by NaN comparison.
- Score.Unrated: requires both ids to be registered, where `no_vista`
  raises `ValueError` for an unknown one. The same holds for `Score.Cell`,
  `Score.NumVotes`, `Score.AvgItem`, `Score.AvgUser` and
  `Score.RatingsVector`. That failure is modelled as `UnknownId` in
  `Score.SimilarityOf` and in the three `Recommend` methods, which check
  the id before any query.
- The logging in the evaluator, which is how it reports the metrics; the
  model returns them as values. Also the modules recomender.py, main.py and
  items.py (the interactive loop, argument parsing with the pickle cache,
  item display).

Where the system's description and the code disagree, the model follows
the code:

- Ids are in sorted order, not insertion order.
- `avg_item` and `avg_usu` of a row or column without a positive cell are
  NaN, not 0.
- An id that is not registered raises; it is not treated as unrated.
- A user with no rating gets a NaN profile, not a zero one.

# Diagnostic support queries

A model of the decision logic of `DiagnosticSupport` in `SymptomsDiseases.py`:
the three read-only queries a clinician's front end runs against the
knowledge base of diseases, symptoms, body systems and risk factors.

- `find_possible_diseases(symptom_ids)` matches the selected symptoms against
  the disease–symptom associations. It keeps the diseases with at least two
  matched symptoms and derives a match percentage and a specificity score for
  each. It returns the ten best, ranked by `match_percentage * avg_specificity`.
- `get_risk_factors(disease_id)` lists the risk factors linked to one disease,
  ordered by level: rows whose level is none of the three names come first
  (SQLite sorts the NULL rank first), then Alto, Medio and Basso.
- `get_all_symptoms()` lists every symptom with the name of its body system,
  ordered by system name and then symptom name.

The SQL is modelled by its relational meaning. Each table is a `seq` of
row records inside a `Database` value (`KnowledgeBase`). Each query is a pure
function of the database and its parameters. An `ORDER BY` leaves ties
unordered, so each query's order is stated as a predicate: the result is a
permutation (or a top-N selection) of the rows, sorted by the key. A stable
insertion sort (`Sorting`) is proved to produce such an order. The pieces of
SQLite the queries rely on sit in `SqlFunctions`:

- `ROUND(x, 2)`;
- the BINARY collation of text;
- NULL coming first in an ascending sort.

`MatchingScenarios` checks the model against a worked example: A has symptoms
1, 2 and 3 (specificities 0.9, 0.5, 0.2), B has symptoms 1 and 2 (0.4 each),
and the input is `[1, 2]`.

Three behaviours of the code are easy to misread; the model follows the code:

- **Empty symptom list.** It returns an empty, column-less frame
  (`EmptyFrame`) and runs no query. It raises no invalid-input error.
- **Ranking key.** Line 52 refers to `match_percentage`, which SQLite resolves
  to the output column of line 48. The key is therefore the *rounded*
  percentage times the *unrounded* mean specificity, not the product of the
  two unrounded values.
- **Unknown risk levels.** A risk level other than the three names makes the
  `CASE` yield NULL. SQLite sorts that before rank 1, so such rows come
  *first*, ahead of Alto.

## Model

| member | source | states |
|---|---|---|
| DiseaseMatching.FindPossibleDiseases | SymptomsDiseases.py:22-56 | an empty symptom list, and only that, gives the column-less frame; otherwise at most ten rows |
| DiseaseMatching.FindPossibleDiseasesIsTopTen | SymptomsDiseases.py:28-56 | for a non-empty list, the frame projects some top-ten selection of the qualifying diseases under the ranking key, with no disease repeated |
| DiseaseMatching.RankedMatchesAreTopTen | SymptomsDiseases.py:52-53 | the ranked rows have length min(10, #qualifying), are drawn from the qualifying rows, are sorted by the key, and no qualifying row left out outranks one kept |
| DiseaseMatching.RankedAreQualifying | SymptomsDiseases.py:50-53 | every ranked row is a qualifying row |
| DiseaseMatching.RankedDistinct | SymptomsDiseases.py:41 | no disease id appears twice in the ranked rows |
| DiseaseMatching.RankedRowFacts | SymptomsDiseases.py:34-51 | every returned disease is in the table and has 2 <= matching <= total, with both counts equal to the distinct-symptom sets, 0 < ratio <= 100 and 0 <= rounded percentage <= 100 |
| DiseaseMatching.SpecificityScoreBounds | SymptomsDiseases.py:36-49 | with specificities in [0, 1], a returned disease's mean specificity is in [0, 1] and its specificity score in [0, 100] |
| DiseaseMatching.QualifyingSound | SymptomsDiseases.py:29-51 | a qualifying row belongs to a disease of the table with a matched row; its counts are the distinct matched and overall symptoms; its average is the plain mean of the matched rows; and 2 <= matching <= total |
| DiseaseMatching.QualifyingComplete | SymptomsDiseases.py:37-51 | every disease of the table with at least two distinct matched symptoms has a qualifying row |
| DiseaseMatching.NoQualifyingDiseaseNoRows | SymptomsDiseases.py:51-56 | when no disease reaches two distinct matched symptoms, the result is an empty frame of rows, not an error |
| DiseaseMatching.UnknownSymptomsContributeNothing | SymptomsDiseases.py:38-40 | two symptom lists that agree on every symptom occurring in the association table give the same result |
| DiseaseMatching.AtLeastTwoMatches | SymptomsDiseases.py:51 | keeps exactly the CTE rows with matching_symptoms >= 2 and keeps disease ids distinct |
| DiseaseMatching.GroupAggregatesAreRelational | SymptomsDiseases.py:34-40 | over the joined ds1 × ds2 group, COUNT(DISTINCT ds1) is the number of distinct matched symptoms, COUNT(DISTINCT ds2) the number of distinct symptoms of the disease, and AVG(ds1) the plain mean of the matched rows |
| DiseaseMatching.MatchedCountMeaning | SymptomsDiseases.py:34-40 | COUNT(DISTINCT ds1.symptom_id) equals the set of distinct matched symptom ids |
| DiseaseMatching.TotalCountMeaning | SymptomsDiseases.py:35-39 | COUNT(DISTINCT ds2.symptom_id) equals the set of all distinct symptom ids of the disease |
| DiseaseMatching.AverageMeaning | SymptomsDiseases.py:36-39 | the LEFT JOIN repeats every matched row once per partner, so AVG(ds1.specificity) equals the mean over the matched rows |
| DiseaseMatching.AverageOfRepeated | SymptomsDiseases.py:36-39 | averaging a cross join with a non-empty partner list equals averaging its left side |
| DiseaseMatching.SumCrossJoin | SymptomsDiseases.py:36-39 | the specificity total of the cross join is the total of the matched rows, repeated once per partner |
| DiseaseMatching.CrossJoinMembers | SymptomsDiseases.py:38-39 | the joined rows are exactly the pairs of a matched row and a partner |
| DiseaseMatching.CrossJoinLength | SymptomsDiseases.py:38-39 | the join has as many rows as the product of the two lengths |
| DiseaseMatching.PartnersAreRows | SymptomsDiseases.py:39 | for a disease with rows, the LEFT JOIN partners are exactly its rows, never NULL |
| DiseaseMatching.RowsOf | SymptomsDiseases.py:39 | a row is kept iff it belongs to the disease |
| DiseaseMatching.MatchedRows | SymptomsDiseases.py:38-40 | a row is kept iff it belongs to the disease and its symptom is in the list |
| DiseaseMatching.MatchedWithinTotal | SymptomsDiseases.py:34-35 | 1 <= distinct matched symptoms <= distinct symptoms of the disease, so the divisor of line 48 is positive |
| DiseaseMatching.AggregateMeaning | SymptomsDiseases.py:29-36 | a CTE row carries its disease, the two distinct counts, the plain mean of the matched rows, and 1 <= matching <= total |
| DiseaseMatching.GroupsFromSound | SymptomsDiseases.py:37-41 | each group is the aggregate of a disease of the table, not seen before, that has a matched row |
| DiseaseMatching.GroupsFromDistinct | SymptomsDiseases.py:41 | GROUP BY d.disease_id yields each disease id once |
| DiseaseMatching.GroupsFromComplete | SymptomsDiseases.py:37-41 | every unseen disease with a matched row gets a group |
| DiseaseMatching.MatchPercentageBounds | SymptomsDiseases.py:48 | with 1 <= matching <= total, the ratio is in (0, 100] and the rounded percentage in [0, 100] |
| DiseaseMatching.MatchPercentagePositive | SymptomsDiseases.py:48 | with at least two matches and at most 40000 symptoms, the rounded percentage is at least 0.01 |
| DiseaseMatching.MatchPercentageCanRoundToZero | SymptomsDiseases.py:48 | two matches out of 40001 symptoms round to 0.00 percent |
| DiseaseMatching.SpecificityScoreOfMean | SymptomsDiseases.py:49 | a mean in [0, 1] gives a specificity score in [0, 100] |
| DiseaseMatching.MeanBounds | SymptomsDiseases.py:36 | the mean of specificities in [0, 1] lies in [0, 1] |
| DiseaseMatching.SumBounds | SymptomsDiseases.py:36 | a total of specificities in [0, 1] lies between 0 and the number of rows |
| DiseaseMatching.RanksBeforeIsTotalPreorder | SymptomsDiseases.py:52 | the descending order on the key is total and transitive |
| DiseaseMatching.ReturnedRowFacts | SymptomsDiseases.py:43-56 | every row of the returned frame carries the name, description and two distinct counts of a disease of the table, with 2 <= matching <= total, a match percentage in [0, 100] and, with specificities in [0, 1], a specificity score in [0, 100] |
| DiseaseMatching.SameMatchedRows | SymptomsDiseases.py:40 | the matched rows depend only on which table symptoms are in the list |
| DiseaseMatching.SameGroups | SymptomsDiseases.py:37-41 | so do the groups |
| MatchingScenarios.ExampleResult | SymptomsDiseases.py:22-56 | for A and B and input [1, 2], the result is A (2, 3, 66.67, 70.0), then B (2, 2, 100.0, 40.0) |
| MatchingScenarios.AnyRankingPutsABeforeB | SymptomsDiseases.py:52-53 | whatever the tie order, every top-ten selection for [1, 2] is A then B |
| MatchingScenarios.KeysOfExample | SymptomsDiseases.py:48-52 | A's percentage is 66.67 and its key 66.67 × 0.7; B's percentage is 100.0 and its key 40 |
| MatchingScenarios.CteOfExample | SymptomsDiseases.py:29-42 | the CTE for [1, 2] holds A (2 of 3, mean 0.7) and then B (2 of 2, mean 0.4) |
| MatchingScenarios.QualifyingOfExample | SymptomsDiseases.py:51 | both A and B pass the two-match floor |
| MatchingScenarios.AggregateOfA | SymptomsDiseases.py:34-36 | A matches 2 of its 3 symptoms with mean specificity 0.7 |
| MatchingScenarios.AggregateOfB | SymptomsDiseases.py:34-36 | B matches both of its symptoms with mean specificity 0.4 |
| MatchingScenarios.UnknownSymptomExample | SymptomsDiseases.py:38-51 | symptom 99, absent from the table, gives an empty frame of rows |
| MatchingScenarios.SingleMatchExample | SymptomsDiseases.py:51 | symptom 3 matches one symptom of A only, so nothing qualifies |
| MatchingScenarios.TopOfTwo | SymptomsDiseases.py:52-53 | when one of two candidates has the strictly higher key, the only top-ten selection lists it first |
| MatchingScenarios.GroupsOfTwo | SymptomsDiseases.py:37-41 | two diseases with distinct ids and a matched row each give two groups in table order |
| RiskFactorLookup.GetRiskFactors | SymptomsDiseases.py:58-75 | the result is a permutation of the join rows of the disease, sorted by the CASE rank with NULL first |
| RiskFactorLookup.GetRiskFactorsMembers | SymptomsDiseases.py:65-67 | a row is returned iff some risk factor and some link of this disease join to it |
| RiskFactorLookup.RiskLevelsInOrder | SymptomsDiseases.py:68-73 | along the result, levels never decrease in the order unknown, Alto, Medio, Basso |
| RiskFactorLookup.UnknownDiseaseHasNoRiskFactors | SymptomsDiseases.py:67 | a disease id with no links gives an empty result, not an error |
| RiskFactorLookup.Level | SymptomsDiseases.py:69-73 | Alto, Medio and Basso are recognised exactly for their own names |
| RiskFactorLookup.SeverityOrderIsTotalPreorder | SymptomsDiseases.py:68-73 | ordering by the CASE rank, NULL first, is total and transitive |
| RiskFactorLookup.FactorsOfLinkMembers | SymptomsDiseases.py:66 | a row comes from a link iff a risk factor with the link's id joins to it |
| RiskFactorLookup.RiskFactorCount | SymptomsDiseases.py:65-67 | with distinct factor ids and every linked factor present, the query returns one row per link of the disease |
| RiskFactorLookup.EveryLinkOnce | SymptomsDiseases.py:66-67 | under the same conditions, the join has one row per link of the disease |
| RiskFactorLookup.OneRowPerLink | SymptomsDiseases.py:66 | with distinct factor ids, a link to a present factor joins to exactly one row |
| RiskFactorLookup.NoFactorRow | SymptomsDiseases.py:66 | a link to a factor id no risk factor has is dropped by the inner join |
| RiskFactorLookup.LinkedFactorsMembers | SymptomsDiseases.py:66-67 | a row is in the join iff a link of the disease and a matching factor produce it |
| SymptomCatalogue.GetAllSymptoms | SymptomsDiseases.py:12-20 | the result is a permutation of the join of symptoms with body systems, sorted by (system name, symptom name) |
| SymptomCatalogue.GetAllSymptomsMembers | SymptomsDiseases.py:15-17 | a listing is returned iff some symptom and body system with the same system id produce it |
| SymptomCatalogue.CatalogueIsOrdered | SymptomsDiseases.py:18 | along the result, system names never decrease, and within one system symptom names never decrease |
| SymptomCatalogue.CatalogueSize | SymptomsDiseases.py:17 | with unique system ids and every symptom's system present, there is exactly one listing per symptom |
| SymptomCatalogue.CatalogueOrderIsTotalPreorder | SymptomsDiseases.py:18 | the (system name, symptom name) order is total and transitive |
| SymptomCatalogue.ListingsOfMembers | SymptomsDiseases.py:17 | a listing of one symptom comes from a body system with its id |
| SymptomCatalogue.JoinedSymptomsMembers | SymptomsDiseases.py:16-17 | a listing is in the join iff a symptom and a matching body system produce it |
| SymptomCatalogue.OneListingPerSymptom | SymptomsDiseases.py:17 | with all body-system ids distinct, a symptom whose system is present gets exactly one listing |
| SymptomCatalogue.NoListing | SymptomsDiseases.py:17 | a symptom whose system id matches no body system is dropped by the inner join |
| SymptomCatalogue.EverySymptomOnce | SymptomsDiseases.py:16-17 | with unique system ids and every system present, the join has one row per symptom |
| SqlFunctions.TextLeIsLexicographic | SymptomsDiseases.py:18 | the character-by-character comparison is prefix-or-first-difference lexicographic order |
| SqlFunctions.TextLeTotal | SymptomsDiseases.py:18 | any two texts are comparable |
| SqlFunctions.TextLeTransitive | SymptomsDiseases.py:18 | the text order is transitive |
| SqlFunctions.TextLeAntisymmetric | SymptomsDiseases.py:18 | texts ordered both ways are equal |
| SqlFunctions.TextLeReflexive | SymptomsDiseases.py:18 | every text is ordered before itself |
| SqlFunctions.Round2Close | SymptomsDiseases.py:48-49 | ROUND(x, 2) is within half a hundredth of x |
| SqlFunctions.Round2Monotone | SymptomsDiseases.py:48-49 | ROUND(x, 2) is monotone |
| SqlFunctions.Round2OfHundredths | SymptomsDiseases.py:48-49 | ROUND(x, 2) leaves a multiple of 0.01 unchanged |
| SqlFunctions.Round2Within | SymptomsDiseases.py:48-49 | rounding keeps a value between two hundredths between them |
| SqlFunctions.Round2Percent | SymptomsDiseases.py:48-49 | a percentage in [0, 100] stays in [0, 100] once rounded |
| Sorting.InsertionSort | SymptomsDiseases.py:52 | the sorted sequence is a permutation of its input and is sorted by the given total preorder |
| Sorting.Insert | SymptomsDiseases.py:52 | inserting into a sorted sequence adds exactly the element and keeps it sorted |
| Sorting.Take | SymptomsDiseases.py:53 | LIMIT n keeps the first min(n, length) rows |
| Sorting.SortedPrefixIsTopN | SymptomsDiseases.py:52-53 | the first n rows of a sorted permutation are a top-n selection |
| Sorting.TopNDistinct | SymptomsDiseases.py:53 | a top-n selection of distinct rows has no repeated row |

## Left out

- The `DiagnosticGUI` class (lines 77-145) is presentation only: widgets, the symptom tree and the result text. So is the `__main__` entry point (lines 147-150).
- The SQLite connection (line 9) and the pandas conversions (lines 20, 56, 75) are I/O. The tables are parameters of the model, and a failing store is not modelled.
- `symptom_weights` (line 10) is never filled or read.
- SqlFunctions.Round2: computed on exact reals. SQLite rounds an IEEE double, so results that sit exactly on a half-hundredth may differ.
- DiseaseMatching.SymptomMatchCte: when the Diseases table holds two rows with the same id, SQLite takes the name and description from an arbitrary row of the group. The model takes the first one. The counts and the average do not depend on this choice.
- DiseaseMatching.RankedRowFacts: does not restate the mean of the matched rows. DiseaseMatching.QualifyingSound states it for every qualifying row, and DiseaseMatching.RankedAreQualifying carries it over to the returned rows.
- DiseaseMatching.MatchPercentageBounds: proves only 0 <= rounded percentage, not the strict bound. A disease with more than 40000 symptoms can show 0.00 percent (DiseaseMatching.MatchPercentageCanRoundToZero). Below that size DiseaseMatching.MatchPercentagePositive gives at least 0.01.
- DiseaseMatching.AverageMeaning: AVG (line 36), the ratio (line 48) and the ranking product (line 52) are computed on exact reals. SQLite computes them in IEEE doubles, so the equality of AVG over the repeated join with the plain mean, and the relative order of two nearly equal keys, hold exactly only in the model.
- DiseaseMatching.FindPossibleDiseases: returns rows for every non-empty list. Line 27 binds one `?` per id, and a list longer than SQLite's parameter limit (999 before version 3.32, 32766 after) makes `read_sql` raise "too many SQL variables". That error is not modelled.
- DiseaseMatching.FindPossibleDiseases, RiskFactorLookup.GetRiskFactors: the ids passed as parameters (lines 56 and 75) must fit SQLite's 64-bit INTEGER, [-2^63, 2^63). The Python driver raises on an id outside that range, and `read_sql` passes the exception on. The model's ids are unbounded, and such an id behaves like one no row mentions, so this error is not modelled. The "not an error" and "same result" rows above hold only for ids in range.
- NULL columns are not modelled: specificity, risk level, names and descriptions always hold a value. So AVG skipping a NULL specificity, and a NULL risk level or name in a row, are not captured (an unknown risk-level text is).
- The order among rows with equal keys is left open in every query, as in SQL. The insertion sort happens to keep input order, but no contract promises it.

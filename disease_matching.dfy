/** DiagnosticSupport.find_possible_diseases: the symptom-to-disease matching
    and ranking query, step by step as the SQL states it.

    1. Join and group (the SymptomMatch CTE): for each disease, the rows ds1
       of DiseaseSymptoms whose symptom is in the input list, each paired by
       a LEFT JOIN with every row ds2 of the same disease.
    2. Aggregate each group: distinct matched symptoms, distinct symptoms of
       the disease, mean specificity over the joined rows.
    3. Keep the diseases with at least two matched symptoms, round the two
       percentages.
    4. Order by the rounded match percentage times the mean specificity,
       descending, and keep the first ten. */
module DiseaseMatching {
  import opened KnowledgeBase
  import opened Sorting
  import opened SqlFunctions
  import opened SetFacts

  type pos = n: nat | 0 < n witness 1

  /** A row of the joins for one disease: a matched row ds1 with its LEFT JOIN
      partner ds2 (None when the disease has no row to pair with). */
  type JoinedRow = (DiseaseSymptom, Option<DiseaseSymptom>)

  // ----- Join conditions -----

  /** The rows of disease `k`: what ds2 ranges over (`d.disease_id = ds2.disease_id`). */
  function RowsOf(ds: seq<DiseaseSymptom>, k: int): (r: seq<DiseaseSymptom>)
    ensures forall x :: x in r <==> x in ds && x.diseaseId == k
  {
    if ds == [] then []
    else (if ds[0].diseaseId == k then [ds[0]] else []) + RowsOf(ds[1..], k)
  }

  /** The rows ds1 ranges over for disease `k`: its rows whose symptom is in
      the IN list (`d.disease_id = ds1.disease_id` and the WHERE clause). */
  function MatchedRows(ds: seq<DiseaseSymptom>, k: int, symptomIds: seq<int>): (r: seq<DiseaseSymptom>)
    ensures forall x :: x in r <==> x in ds && x.diseaseId == k && x.symptomId in symptomIds
  {
    if ds == [] then []
    else
      (if ds[0].diseaseId == k && ds[0].symptomId in symptomIds then [ds[0]] else [])
      + MatchedRows(ds[1..], k, symptomIds)
  }

  /** What the LEFT JOIN pairs a ds1 row of disease `k` with: every row of
      `k`, or a single NULL when there is none. */
  function LeftJoinPartners(ds: seq<DiseaseSymptom>, k: int): seq<Option<DiseaseSymptom>> {
    var rows := RowsOf(ds, k);
    if rows == [] then [None] else seq(|rows|, i requires 0 <= i < |rows| => Some(rows[i]))
  }

  function PairWith(a: DiseaseSymptom, partners: seq<Option<DiseaseSymptom>>): seq<JoinedRow> {
    seq(|partners|, i requires 0 <= i < |partners| => (a, partners[i]))
  }

  /** Every matched row with every partner, in nested-loop order. */
  function CrossJoin(ms: seq<DiseaseSymptom>, partners: seq<Option<DiseaseSymptom>>): seq<JoinedRow> {
    if ms == [] then [] else PairWith(ms[0], partners) + CrossJoin(ms[1..], partners)
  }

  /** The cross join holds exactly the pairs of a matched row and a partner. */
  lemma {:induction false} CrossJoinMembers(ms: seq<DiseaseSymptom>, partners: seq<Option<DiseaseSymptom>>)
    ensures forall p :: p in CrossJoin(ms, partners) <==> p.0 in ms && p.1 in partners
  {
    if ms != [] {
      var head := PairWith(ms[0], partners);
      assert forall i :: 0 <= i < |head| ==> head[i] == (ms[0], partners[i]);
      assert forall p :: p in head <==> p.0 == ms[0] && p.1 in partners;
      CrossJoinMembers(ms[1..], partners);
      assert ms == [ms[0]] + ms[1..];
    }
  }

  lemma {:induction false} CrossJoinLength(ms: seq<DiseaseSymptom>, partners: seq<Option<DiseaseSymptom>>)
    ensures |CrossJoin(ms, partners)| == |ms| * |partners|
  {
    if ms != [] {
      CrossJoinLength(ms[1..], partners);
      assert |CrossJoin(ms, partners)| == |partners| + (|ms| - 1) * |partners|;
    }
  }

  /** The joined rows that GROUP BY gathers for disease `k`. */
  function GroupRows(ds: seq<DiseaseSymptom>, k: int, symptomIds: seq<int>): seq<JoinedRow> {
    CrossJoin(MatchedRows(ds, k, symptomIds), LeftJoinPartners(ds, k))
  }

  // ----- Aggregates over one group -----

  /** COUNT(DISTINCT ds1.symptom_id) */
  function CountDistinctMatched(g: seq<JoinedRow>): nat {
    |set p | p in g :: p.0.symptomId|
  }

  /** COUNT(DISTINCT ds2.symptom_id); NULL partners are not counted. */
  function CountDistinctTotal(g: seq<JoinedRow>): nat {
    |set p | p in g && p.1.Some? :: p.1.value.symptomId|
  }

  function SumMatchedSpecificity(g: seq<JoinedRow>): real {
    if g == [] then 0.0 else g[0].0.specificity + SumMatchedSpecificity(g[1..])
  }

  /** AVG(ds1.specificity), over the joined rows. */
  function AvgMatchedSpecificity(g: seq<JoinedRow>): real
    requires g != []
  {
    SumMatchedSpecificity(g) / |g| as real
  }

  // ----- The relational meaning of the aggregates -----

  /** The distinct symptoms of disease `k` that are in the input list. */
  ghost function MatchedSymptomIds(ds: seq<DiseaseSymptom>, k: int, symptomIds: seq<int>): set<int> {
    set x | x in ds && x.diseaseId == k && x.symptomId in symptomIds :: x.symptomId
  }

  /** The distinct symptoms of disease `k` over the whole table. */
  ghost function DiseaseSymptomIds(ds: seq<DiseaseSymptom>, k: int): set<int> {
    set x | x in ds && x.diseaseId == k :: x.symptomId
  }

  function Sum(rows: seq<DiseaseSymptom>): real {
    if rows == [] then 0.0 else rows[0].specificity + Sum(rows[1..])
  }

  /** The plain mean specificity of some association rows. */
  function Mean(rows: seq<DiseaseSymptom>): real
    requires rows != []
  {
    Sum(rows) / |rows| as real
  }

  lemma {:induction false} SumMatchedAppend(g: seq<JoinedRow>, h: seq<JoinedRow>)
    ensures SumMatchedSpecificity(g + h) == SumMatchedSpecificity(g) + SumMatchedSpecificity(h)
  {
    if g == [] {
      assert g + h == h;
    } else {
      assert (g + h)[0] == g[0] && (g + h)[1..] == g[1..] + h;
      SumMatchedAppend(g[1..], h);
    }
  }

  /** `x` added up `n` times. */
  function Repeated(n: nat, x: real): real {
    if n == 0 then 0.0 else x + Repeated(n - 1, x)
  }

  lemma {:induction false} RepeatedAdds(n: nat, a: real, b: real)
    ensures Repeated(n, a + b) == Repeated(n, a) + Repeated(n, b)
  {
    if n > 0 {
      RepeatedAdds(n - 1, a, b);
    }
  }

  lemma {:induction false} RepeatedIsProduct(n: nat, x: real)
    ensures Repeated(n, x) == n as real * x
  {
    if n > 0 {
      RepeatedIsProduct(n - 1, x);
      assert (n - 1) as real * x + x == n as real * x;
    }
  }

  lemma {:induction false} SumPairWith(a: DiseaseSymptom, partners: seq<Option<DiseaseSymptom>>)
    ensures SumMatchedSpecificity(PairWith(a, partners)) == Repeated(|partners|, a.specificity)
  {
    if partners != [] {
      assert PairWith(a, partners)[1..] == PairWith(a, partners[1..]);
      SumPairWith(a, partners[1..]);
    }
  }

  lemma ProductAsReal(a: nat, b: nat)
    ensures (a * b) as real == a as real * b as real
  {
  }

  /** Repeating every row `t` times leaves an average unchanged. */
  lemma CancelFactor(total: real, count: real, s: real, n: real, t: real)
    requires n > 0.0 && t > 0.0 && total == t * s && count == n * t
    ensures total / count == s / n
  {
  }

  /** The LEFT JOIN repeats every matched row once per partner. */
  lemma {:induction false} SumCrossJoin(ms: seq<DiseaseSymptom>, partners: seq<Option<DiseaseSymptom>>)
    ensures SumMatchedSpecificity(CrossJoin(ms, partners)) == Repeated(|partners|, Sum(ms))
  {
    if ms == [] {
      assert CrossJoin(ms, partners) == [];
      RepeatedIsProduct(|partners|, 0.0);
    } else {
      var head, tail := PairWith(ms[0], partners), CrossJoin(ms[1..], partners);
      assert CrossJoin(ms, partners) == head + tail;
      SumMatchedAppend(head, tail);
      SumPairWith(ms[0], partners);
      SumCrossJoin(ms[1..], partners);
      RepeatedAdds(|partners|, ms[0].specificity, Sum(ms[1..]));
    }
  }

  /** Each LEFT JOIN partner of disease `k` is one of its rows, never NULL,
      once the disease has a row at all. */
  lemma PartnersAreRows(ds: seq<DiseaseSymptom>, k: int)
    requires RowsOf(ds, k) != []
    ensures |LeftJoinPartners(ds, k)| == |RowsOf(ds, k)|
    ensures forall p :: p in LeftJoinPartners(ds, k) <==> p.Some? && p.value in RowsOf(ds, k)
  {
    var rows := RowsOf(ds, k);
    var partners := LeftJoinPartners(ds, k);
    forall p | p in partners ensures p.Some? && p.value in rows {
      var i :| 0 <= i < |partners| && partners[i] == p;
    }
    forall x | x in rows ensures Some(x) in partners {
      var i :| 0 <= i < |rows| && rows[i] == x;
      assert partners[i] == Some(x);
    }
  }

  /** COUNT(DISTINCT ds1.symptom_id) counts the distinct matched symptoms. */
  lemma MatchedCountMeaning(ds: seq<DiseaseSymptom>, k: int, symptomIds: seq<int>)
    requires MatchedRows(ds, k, symptomIds) != []
    ensures CountDistinctMatched(GroupRows(ds, k, symptomIds)) == |MatchedSymptomIds(ds, k, symptomIds)|
  {
    var ms := MatchedRows(ds, k, symptomIds);
    assert ms[0] in RowsOf(ds, k);
    PartnersAreRows(ds, k);
    var partners := LeftJoinPartners(ds, k);
    var g := GroupRows(ds, k, symptomIds);
    CrossJoinMembers(ms, partners);
    var matched := set p | p in g :: p.0.symptomId;
    forall x | x in ds && x.diseaseId == k && x.symptomId in symptomIds
      ensures x.symptomId in matched
    {
      assert (x, partners[0]) in g;
    }
    assert matched == MatchedSymptomIds(ds, k, symptomIds);
  }

  /** COUNT(DISTINCT ds2.symptom_id) counts the distinct symptoms of the disease. */
  lemma TotalCountMeaning(ds: seq<DiseaseSymptom>, k: int, symptomIds: seq<int>)
    requires MatchedRows(ds, k, symptomIds) != []
    ensures CountDistinctTotal(GroupRows(ds, k, symptomIds)) == |DiseaseSymptomIds(ds, k)|
  {
    var ms := MatchedRows(ds, k, symptomIds);
    assert ms[0] in RowsOf(ds, k);
    PartnersAreRows(ds, k);
    var g := GroupRows(ds, k, symptomIds);
    CrossJoinMembers(ms, LeftJoinPartners(ds, k));
    var total := set p | p in g && p.1.Some? :: p.1.value.symptomId;
    forall x | x in ds && x.diseaseId == k ensures x.symptomId in total {
      assert x in RowsOf(ds, k);
      assert (ms[0], Some(x)) in g;
    }
    assert total == DiseaseSymptomIds(ds, k);
  }

  /** Averaging the cross join of `ms` with `partners` is averaging `ms`:
      each row is repeated once per partner. */
  lemma AverageOfRepeated(ms: seq<DiseaseSymptom>, partners: seq<Option<DiseaseSymptom>>)
    requires ms != [] && partners != []
    ensures CrossJoin(ms, partners) != []
    ensures AvgMatchedSpecificity(CrossJoin(ms, partners)) == Mean(ms)
  {
    var g := CrossJoin(ms, partners);
    var total, count := SumMatchedSpecificity(g), |g| as real;
    var n, t := |ms| as real, |partners| as real;
    assert total == t * Sum(ms) by {
      SumCrossJoin(ms, partners);
      RepeatedIsProduct(|partners|, Sum(ms));
    }
    assert count == n * t by {
      CrossJoinLength(ms, partners);
      ProductAsReal(|ms|, |partners|);
    }
    CancelFactor(total, count, Sum(ms), n, t);
  }

  /** AVG(ds1.specificity) is the plain mean of the matched rows: the LEFT
      JOIN repeats each of them equally often, which cancels out. */
  lemma AverageMeaning(ds: seq<DiseaseSymptom>, k: int, symptomIds: seq<int>)
    requires MatchedRows(ds, k, symptomIds) != []
    ensures GroupRows(ds, k, symptomIds) != []
    ensures AvgMatchedSpecificity(GroupRows(ds, k, symptomIds)) == Mean(MatchedRows(ds, k, symptomIds))
  {
    var ms := MatchedRows(ds, k, symptomIds);
    assert ms[0] in RowsOf(ds, k);
    AverageOfRepeated(ms, LeftJoinPartners(ds, k));
  }

  /** The aggregates of the joined group have their relational meaning: the
      distinct matched symptoms, the distinct symptoms of the disease, and the
      plain mean specificity of the matched rows. */
  lemma GroupAggregatesAreRelational(ds: seq<DiseaseSymptom>, k: int, symptomIds: seq<int>)
    requires MatchedRows(ds, k, symptomIds) != []
    ensures GroupRows(ds, k, symptomIds) != []
    ensures CountDistinctMatched(GroupRows(ds, k, symptomIds)) == |MatchedSymptomIds(ds, k, symptomIds)|
    ensures CountDistinctTotal(GroupRows(ds, k, symptomIds)) == |DiseaseSymptomIds(ds, k)|
    ensures AvgMatchedSpecificity(GroupRows(ds, k, symptomIds)) == Mean(MatchedRows(ds, k, symptomIds))
  {
    MatchedCountMeaning(ds, k, symptomIds);
    TotalCountMeaning(ds, k, symptomIds);
    AverageMeaning(ds, k, symptomIds);
  }

  /** Every matched symptom is a symptom of the disease, and there is one. */
  lemma MatchedWithinTotal(ds: seq<DiseaseSymptom>, k: int, symptomIds: seq<int>)
    requires MatchedRows(ds, k, symptomIds) != []
    ensures 1 <= |MatchedSymptomIds(ds, k, symptomIds)| <= |DiseaseSymptomIds(ds, k)|
  {
    var x := MatchedRows(ds, k, symptomIds)[0];
    assert x.symptomId in MatchedSymptomIds(ds, k, symptomIds);
    SubsetCardinality(MatchedSymptomIds(ds, k, symptomIds), DiseaseSymptomIds(ds, k));
  }

  // ----- The SymptomMatch CTE -----

  /** One row of the CTE: a disease and its three aggregates. */
  datatype SymptomMatch = SymptomMatch(
    disease: Disease,
    matchingSymptoms: nat,
    totalDiseaseSymptoms: pos,
    avgSpecificity: real)

  /** The CTE row of disease `d`, when at least one of its rows matched. */
  function Aggregate(d: Disease, ds: seq<DiseaseSymptom>, symptomIds: seq<int>): SymptomMatch
    requires MatchedRows(ds, d.diseaseId, symptomIds) != []
  {
    var g := GroupRows(ds, d.diseaseId, symptomIds);
    GroupAggregatesAreRelational(ds, d.diseaseId, symptomIds);
    MatchedWithinTotal(ds, d.diseaseId, symptomIds);
    SymptomMatch(d, CountDistinctMatched(g), CountDistinctTotal(g), AvgMatchedSpecificity(g))
  }

  /** The CTE row of a disease carries the relational meaning of its aggregates. */
  lemma AggregateMeaning(d: Disease, ds: seq<DiseaseSymptom>, symptomIds: seq<int>)
    requires MatchedRows(ds, d.diseaseId, symptomIds) != []
    ensures Aggregate(d, ds, symptomIds).disease == d
    ensures Aggregate(d, ds, symptomIds).matchingSymptoms == |MatchedSymptomIds(ds, d.diseaseId, symptomIds)|
    ensures Aggregate(d, ds, symptomIds).totalDiseaseSymptoms == |DiseaseSymptomIds(ds, d.diseaseId)|
    ensures Aggregate(d, ds, symptomIds).avgSpecificity == Mean(MatchedRows(ds, d.diseaseId, symptomIds))
    ensures 1 <= Aggregate(d, ds, symptomIds).matchingSymptoms <= Aggregate(d, ds, symptomIds).totalDiseaseSymptoms
  {
    GroupAggregatesAreRelational(ds, d.diseaseId, symptomIds);
    MatchedWithinTotal(ds, d.diseaseId, symptomIds);
  }

  ghost predicate DistinctDiseases(ms: seq<SymptomMatch>) {
    forall i, j :: 0 <= i < j < |ms| ==> ms[i].disease.diseaseId != ms[j].disease.diseaseId
  }

  /** GROUP BY d.disease_id over the Diseases rows from `diseases` on, skipping
      ids in `seen`: one row per disease id that has a matched row. */
  function GroupsFrom(diseases: seq<Disease>, seen: set<int>, ds: seq<DiseaseSymptom>, symptomIds: seq<int>)
    : seq<SymptomMatch>
  {
    if diseases == [] then []
    else
      var d := diseases[0];
      var rest := GroupsFrom(diseases[1..], seen + {d.diseaseId}, ds, symptomIds);
      if d.diseaseId !in seen && MatchedRows(ds, d.diseaseId, symptomIds) != [] then
        [Aggregate(d, ds, symptomIds)] + rest
      else
        rest
  }

  /** Each group row is the aggregate of a disease of the table, not yet seen,
      that has a matched row. */
  lemma {:induction false} GroupsFromSound(
    diseases: seq<Disease>, seen: set<int>, ds: seq<DiseaseSymptom>, symptomIds: seq<int>, m: SymptomMatch)
    requires m in GroupsFrom(diseases, seen, ds, symptomIds)
    ensures m.disease in diseases
    ensures m.disease.diseaseId !in seen
    ensures MatchedRows(ds, m.disease.diseaseId, symptomIds) != []
    ensures m == Aggregate(m.disease, ds, symptomIds)
  {
    var d := diseases[0];
    var rest := GroupsFrom(diseases[1..], seen + {d.diseaseId}, ds, symptomIds);
    if d.diseaseId !in seen && MatchedRows(ds, d.diseaseId, symptomIds) != [] && m == Aggregate(d, ds, symptomIds) {
    } else {
      assert m in rest;
      GroupsFromSound(diseases[1..], seen + {d.diseaseId}, ds, symptomIds, m);
    }
  }

  /** GROUP BY yields each disease id once. */
  lemma {:induction false} GroupsFromDistinct(
    diseases: seq<Disease>, seen: set<int>, ds: seq<DiseaseSymptom>, symptomIds: seq<int>)
    ensures DistinctDiseases(GroupsFrom(diseases, seen, ds, symptomIds))
  {
    if diseases != [] {
      var d := diseases[0];
      var rest := GroupsFrom(diseases[1..], seen + {d.diseaseId}, ds, symptomIds);
      GroupsFromDistinct(diseases[1..], seen + {d.diseaseId}, ds, symptomIds);
      if d.diseaseId !in seen && MatchedRows(ds, d.diseaseId, symptomIds) != [] {
        forall m | m in rest ensures m.disease.diseaseId != d.diseaseId {
          GroupsFromSound(diseases[1..], seen + {d.diseaseId}, ds, symptomIds, m);
        }
        ConsDistinct(Aggregate(d, ds, symptomIds), rest);
      }
    }
  }

  lemma ConsDistinct(h: SymptomMatch, rest: seq<SymptomMatch>)
    requires DistinctDiseases(rest)
    requires forall m :: m in rest ==> m.disease.diseaseId != h.disease.diseaseId
    ensures DistinctDiseases([h] + rest)
  {
    var r := [h] + rest;
    forall i, j | 0 <= i < j < |r| ensures r[i].disease.diseaseId != r[j].disease.diseaseId {
      assert r[j] == rest[j - 1];
      if i > 0 {
        assert r[i] == rest[i - 1];
      }
    }
  }

  /** No disease id with a matched row is missing from the groups. */
  lemma {:induction false} GroupsFromComplete(
    diseases: seq<Disease>, seen: set<int>, ds: seq<DiseaseSymptom>, symptomIds: seq<int>, d: Disease)
    requires d in diseases && d.diseaseId !in seen && MatchedRows(ds, d.diseaseId, symptomIds) != []
    ensures exists m :: m in GroupsFrom(diseases, seen, ds, symptomIds) && m.disease.diseaseId == d.diseaseId
  {
    var e := diseases[0];
    var rest := GroupsFrom(diseases[1..], seen + {e.diseaseId}, ds, symptomIds);
    if e.diseaseId !in seen && MatchedRows(ds, e.diseaseId, symptomIds) != [] {
      if e.diseaseId == d.diseaseId {
        assert GroupsFrom(diseases, seen, ds, symptomIds)[0].disease == e;
      } else {
        assert d in diseases[1..];
        GroupsFromComplete(diseases[1..], seen + {e.diseaseId}, ds, symptomIds, d);
        var m :| m in rest && m.disease.diseaseId == d.diseaseId;
        assert m in GroupsFrom(diseases, seen, ds, symptomIds);
      }
    } else {
      assert e.diseaseId != d.diseaseId || MatchedRows(ds, e.diseaseId, symptomIds) == [];
      assert d != e;
      assert d in diseases[1..];
      GroupsFromComplete(diseases[1..], seen + {e.diseaseId}, ds, symptomIds, d);
    }
  }

  /** The SymptomMatch CTE (its rows in the order of the Diseases table). When
      a disease id is stored twice, the first row gives name and description. */
  function SymptomMatchCte(db: Database, symptomIds: seq<int>): seq<SymptomMatch> {
    GroupsFrom(db.diseases, {}, db.diseaseSymptoms, symptomIds)
  }

  /** WHERE matching_symptoms >= 2 */
  function AtLeastTwoMatches(cte: seq<SymptomMatch>): (r: seq<SymptomMatch>)
    ensures forall m :: m in r <==> m in cte && m.matchingSymptoms >= 2
    ensures DistinctDiseases(cte) ==> DistinctDiseases(r)
  {
    if cte == [] then []
    else
      var rest := AtLeastTwoMatches(cte[1..]);
      assert DistinctDiseases(cte) ==> forall m :: m in cte[1..] ==> m.disease.diseaseId != cte[0].disease.diseaseId;
      if cte[0].matchingSymptoms >= 2 then [cte[0]] + rest else rest
  }

  /** The diseases the outer query ranks. */
  function Qualifying(db: Database, symptomIds: seq<int>): seq<SymptomMatch> {
    AtLeastTwoMatches(SymptomMatchCte(db, symptomIds))
  }

  // ----- Derived columns and the ranking key -----

  /** matching_symptoms * 1.0 / total_disease_symptoms * 100, before rounding. */
  function MatchRatio(m: SymptomMatch): real {
    m.matchingSymptoms as real / m.totalDiseaseSymptoms as real * 100.0
  }

  /** match_percentage */
  function MatchPercentage(m: SymptomMatch): real {
    Round2(MatchRatio(m))
  }

  /** specificity_score */
  function SpecificityScore(m: SymptomMatch): real {
    Round2(m.avgSpecificity * 100.0)
  }

  /** ORDER BY match_percentage * avg_specificity: the name match_percentage
      is the output column, so the ROUNDED percentage times the UNROUNDED mean. */
  function RankKey(m: SymptomMatch): real {
    MatchPercentage(m) * m.avgSpecificity
  }

  /** `a` may be listed before `b` in the descending order. */
  predicate RanksBefore(a: SymptomMatch, b: SymptomMatch) {
    RankKey(a) >= RankKey(b)
  }

  lemma RanksBeforeIsTotalPreorder()
    ensures TotalPreorder(RanksBefore)
  {
  }

  /** The ranked CTE rows behind the result: sorted by the key, first ten. */
  function RankedMatches(db: Database, symptomIds: seq<int>): seq<SymptomMatch> {
    RanksBeforeIsTotalPreorder();
    Take(InsertionSort(Qualifying(db, symptomIds), RanksBefore), 10)
  }

  /** A row of the returned frame (the SELECT list, lines 44-49). */
  datatype DiseaseMatch = DiseaseMatch(
    diseaseName: string,
    description: string,
    matchingSymptoms: nat,
    totalDiseaseSymptoms: nat,
    matchPercentage: real,
    specificityScore: real)

  function Project(m: SymptomMatch): DiseaseMatch {
    DiseaseMatch(m.disease.diseaseName, m.disease.description, m.matchingSymptoms,
                 m.totalDiseaseSymptoms, MatchPercentage(m), SpecificityScore(m))
  }

  /** What the method returns: a frame without columns, built without any
      query, for an empty list; otherwise the rows of the query. */
  datatype Frame = EmptyFrame | Rows(rows: seq<DiseaseMatch>)

  function ProjectAll(ms: seq<SymptomMatch>): (rows: seq<DiseaseMatch>)
    ensures |rows| == |ms|
    ensures forall i :: 0 <= i < |ms| ==> rows[i] == Project(ms[i])
  {
    seq(|ms|, i requires 0 <= i < |ms| => Project(ms[i]))
  }

  function FindPossibleDiseases(db: Database, symptomIds: seq<int>): (r: Frame)
    ensures r.EmptyFrame? <==> symptomIds == []
    ensures r.Rows? ==> |r.rows| <= 10
  {
    if symptomIds == [] then EmptyFrame
    else Rows(ProjectAll(RankedMatches(db, symptomIds)))
  }

  // ----- What the query promises -----

  /** The ranked rows are what ORDER BY ... DESC LIMIT 10 may return from
      the qualifying diseases: at most ten of them, sorted by the key, and no
      qualifying disease left out whose key beats that of one kept. Ties are
      left in any order. */
  lemma RankedMatchesAreTopTen(db: Database, symptomIds: seq<int>)
    ensures IsTopN(RanksBefore, RankedMatches(db, symptomIds), Qualifying(db, symptomIds), 10)
  {
    RanksBeforeIsTotalPreorder();
    var sorted := InsertionSort(Qualifying(db, symptomIds), RanksBefore);
    SortedPrefixIsTopN(RanksBefore, sorted, Qualifying(db, symptomIds), 10);
  }

  lemma RankedAreQualifying(db: Database, symptomIds: seq<int>, m: SymptomMatch)
    requires m in RankedMatches(db, symptomIds)
    ensures m in Qualifying(db, symptomIds)
  {
    RankedMatchesAreTopTen(db, symptomIds);
    assert m in multiset(RankedMatches(db, symptomIds));
  }

  /** A qualifying disease is a disease of the table with at least two
      distinct matched symptoms, and its row holds the relational meaning of
      the aggregates. */
  lemma QualifyingSound(db: Database, symptomIds: seq<int>, m: SymptomMatch)
    requires m in Qualifying(db, symptomIds)
    ensures m.disease in db.diseases
    ensures MatchedRows(db.diseaseSymptoms, m.disease.diseaseId, symptomIds) != []
    ensures m.matchingSymptoms == |MatchedSymptomIds(db.diseaseSymptoms, m.disease.diseaseId, symptomIds)|
    ensures m.totalDiseaseSymptoms == |DiseaseSymptomIds(db.diseaseSymptoms, m.disease.diseaseId)|
    ensures m.avgSpecificity == Mean(MatchedRows(db.diseaseSymptoms, m.disease.diseaseId, symptomIds))
    ensures 2 <= m.matchingSymptoms <= m.totalDiseaseSymptoms
  {
    assert m in SymptomMatchCte(db, symptomIds);
    GroupsFromSound(db.diseases, {}, db.diseaseSymptoms, symptomIds, m);
    AggregateMeaning(m.disease, db.diseaseSymptoms, symptomIds);
  }

  /** Every disease of the table with at least two distinct matched symptoms
      qualifies (under its id). */
  lemma QualifyingComplete(db: Database, symptomIds: seq<int>, d: Disease)
    requires d in db.diseases
    requires |MatchedSymptomIds(db.diseaseSymptoms, d.diseaseId, symptomIds)| >= 2
    ensures exists m :: m in Qualifying(db, symptomIds) && m.disease.diseaseId == d.diseaseId
  {
    var ds := db.diseaseSymptoms;
    var x :| x in MatchedSymptomIds(ds, d.diseaseId, symptomIds);
    var row :| row in ds && row.diseaseId == d.diseaseId && row.symptomId in symptomIds && row.symptomId == x;
    assert row in MatchedRows(ds, d.diseaseId, symptomIds);
    var cte := GroupsFrom(db.diseases, {}, ds, symptomIds);
    assert cte == SymptomMatchCte(db, symptomIds);
    GroupsFromComplete(db.diseases, {}, ds, symptomIds, d);
    var m :| m in cte && m.disease.diseaseId == d.diseaseId;
    GroupsFromSound(db.diseases, {}, ds, symptomIds, m);
    AggregateMeaning(m.disease, ds, symptomIds);
    assert m.matchingSymptoms >= 2;
    assert m in Qualifying(db, symptomIds);
  }

  /** The unrounded and rounded match percentages lie in (0, 100] and [0, 100]. */
  lemma MatchPercentageBounds(m: SymptomMatch)
    requires 1 <= m.matchingSymptoms <= m.totalDiseaseSymptoms
    ensures 0.0 < MatchRatio(m) <= 100.0
    ensures 0.0 <= MatchPercentage(m) <= 100.0
  {
    FractionWithinOne(m.matchingSymptoms as real, m.totalDiseaseSymptoms as real);
    Round2Percent(MatchRatio(m));
  }

  /** The rounded percentage is strictly positive, as long as a disease has
      no more than 40000 symptoms: two matches then give at least 0.005. */
  lemma MatchPercentagePositive(m: SymptomMatch)
    requires 2 <= m.matchingSymptoms <= m.totalDiseaseSymptoms <= 40000
    ensures MatchPercentage(m) >= 0.01
  {
    RatioAtLeast(m.matchingSymptoms as real, m.totalDiseaseSymptoms as real);
    Round2Monotone(0.005, MatchRatio(m));
    assert Round2(0.005) == 0.01 by {
      assert (0.005 * 100.0 + 0.5).Floor == 1;
    }
  }

  /** Past that size two matches round to 0.00 percent. */
  lemma MatchPercentageCanRoundToZero()
    ensures MatchPercentage(SymptomMatch(Disease(1, "A", ""), 2, 40001, 1.0)) == 0.0
  {
    var m := SymptomMatch(Disease(1, "A", ""), 2, 40001, 1.0);
    assert MatchRatio(m) == 200.0 / 40001.0;
    assert (200.0 / 40001.0 * 100.0 + 0.5).Floor == 0;
  }

  lemma RatioAtLeast(a: real, b: real)
    requires 2.0 <= a && 0.0 < b <= 40000.0
    ensures a / b * 100.0 >= 0.005
  {
    assert a / b * b == a;
  }

  lemma FractionWithinOne(a: real, b: real)
    requires 0.0 < a <= b
    ensures 0.0 < a / b <= 1.0
  {
    assert a / b * b == a;
  }

  /** Every returned disease: a disease of the table, at least two matched
      symptoms, no more matched than it has, and both percentages bounded. */
  lemma RankedRowFacts(db: Database, symptomIds: seq<int>, m: SymptomMatch)
    requires m in RankedMatches(db, symptomIds)
    ensures m.disease in db.diseases
    ensures m.matchingSymptoms == |MatchedSymptomIds(db.diseaseSymptoms, m.disease.diseaseId, symptomIds)|
    ensures m.totalDiseaseSymptoms == |DiseaseSymptomIds(db.diseaseSymptoms, m.disease.diseaseId)|
    ensures 2 <= m.matchingSymptoms <= m.totalDiseaseSymptoms
    ensures 0.0 < MatchRatio(m) <= 100.0
    ensures 0.0 <= MatchPercentage(m) <= 100.0
  {
    RankedAreQualifying(db, symptomIds, m);
    QualifyingSound(db, symptomIds, m);
    MatchPercentageBounds(m);
  }

  lemma {:induction false} SumBounds(rows: seq<DiseaseSymptom>)
    requires forall x :: x in rows ==> 0.0 <= x.specificity <= 1.0
    ensures 0.0 <= Sum(rows) <= |rows| as real
  {
    if rows != [] {
      assert rows[0] in rows;
      assert forall x :: x in rows[1..] ==> x in rows;
      SumBounds(rows[1..]);
    }
  }

  /** With specificities in [0, 1], so is their mean. */
  lemma MeanBounds(rows: seq<DiseaseSymptom>)
    requires rows != []
    requires forall x :: x in rows ==> 0.0 <= x.specificity <= 1.0
    ensures 0.0 <= Mean(rows) <= 1.0
  {
    SumBounds(rows);
    var n := |rows| as real;
    assert Sum(rows) / n <= n / n;
  }

  lemma SpecificityScoreOfMean(m: SymptomMatch)
    requires 0.0 <= m.avgSpecificity <= 1.0
    ensures 0.0 <= SpecificityScore(m) <= 100.0
  {
    Round2Percent(m.avgSpecificity * 100.0);
  }

  /** With specificities in [0, 1], every returned mean specificity is in
      [0, 1] and every specificity score in [0, 100]. */
  lemma SpecificityScoreBounds(db: Database, symptomIds: seq<int>, m: SymptomMatch)
    requires SpecificitiesInRange(db.diseaseSymptoms)
    requires m in RankedMatches(db, symptomIds)
    ensures 0.0 <= m.avgSpecificity <= 1.0
    ensures 0.0 <= SpecificityScore(m) <= 100.0
  {
    RankedAreQualifying(db, symptomIds, m);
    QualifyingSound(db, symptomIds, m);
    var rows := MatchedRows(db.diseaseSymptoms, m.disease.diseaseId, symptomIds);
    MeanBounds(rows);
    SpecificityScoreOfMean(m);
  }

  /** Every row of the returned frame names a disease of the table and
      carries its two distinct counts, with 2 <= matching <= total, a match
      percentage in [0, 100] and, when the specificities are in [0, 1], a
      specificity score in [0, 100]. */
  lemma ReturnedRowFacts(db: Database, symptomIds: seq<int>, i: int)
    requires symptomIds != []
    requires 0 <= i < |FindPossibleDiseases(db, symptomIds).rows|
    ensures var row := FindPossibleDiseases(db, symptomIds).rows[i];
      && (exists d :: d in db.diseases && row.diseaseName == d.diseaseName
            && row.description == d.description
            && row.matchingSymptoms == |MatchedSymptomIds(db.diseaseSymptoms, d.diseaseId, symptomIds)|
            && row.totalDiseaseSymptoms == |DiseaseSymptomIds(db.diseaseSymptoms, d.diseaseId)|)
      && 2 <= row.matchingSymptoms <= row.totalDiseaseSymptoms
      && 0.0 <= row.matchPercentage <= 100.0
      && (SpecificitiesInRange(db.diseaseSymptoms) ==> 0.0 <= row.specificityScore <= 100.0)
  {
    var m := RankedMatches(db, symptomIds)[i];
    RankedRowFacts(db, symptomIds, m);
    if SpecificitiesInRange(db.diseaseSymptoms) {
      SpecificityScoreBounds(db, symptomIds, m);
    }
    assert m.disease in db.diseases;
  }

  /** No disease is returned twice. */
  lemma RankedDistinct(db: Database, symptomIds: seq<int>)
    ensures DistinctDiseases(RankedMatches(db, symptomIds))
  {
    var c := Qualifying(db, symptomIds);
    var r := RankedMatches(db, symptomIds);
    RankedMatchesAreTopTen(db, symptomIds);
    GroupsFromDistinct(db.diseases, {}, db.diseaseSymptoms, symptomIds);
    assert DistinctDiseases(c);
    TopNDistinct(RanksBefore, r, c, 10);
    forall i, j | 0 <= i < j < |r| ensures r[i].disease.diseaseId != r[j].disease.diseaseId {
      assert r[i] in multiset(c) && r[j] in multiset(c);
      var i' :| 0 <= i' < |c| && c[i'] == r[i];
      var j' :| 0 <= j' < |c| && c[j'] == r[j];
      assert i' != j';
    }
  }

  /** When no disease reaches two distinct matched symptoms (for instance
      because the given ids occur in no association row), the query returns
      no rows, and that is not an error. */
  lemma NoQualifyingDiseaseNoRows(db: Database, symptomIds: seq<int>)
    requires symptomIds != []
    requires forall d :: d in db.diseases ==>
      |MatchedSymptomIds(db.diseaseSymptoms, d.diseaseId, symptomIds)| < 2
    ensures FindPossibleDiseases(db, symptomIds) == Rows([])
  {
    var c := Qualifying(db, symptomIds);
    if c != [] {
      QualifyingSound(db, symptomIds, c[0]);
    }
    assert c == [];
  }

  lemma {:induction false} SameMatchedRows(ds: seq<DiseaseSymptom>, k: int, s1: seq<int>, s2: seq<int>)
    requires forall x :: x in ds ==> (x.symptomId in s1 <==> x.symptomId in s2)
    ensures MatchedRows(ds, k, s1) == MatchedRows(ds, k, s2)
  {
    if ds != [] {
      assert ds[0] in ds;
      assert forall x :: x in ds[1..] ==> x in ds;
      SameMatchedRows(ds[1..], k, s1, s2);
    }
  }

  lemma {:induction false} SameGroups(
    diseases: seq<Disease>, seen: set<int>, ds: seq<DiseaseSymptom>, s1: seq<int>, s2: seq<int>)
    requires forall x :: x in ds ==> (x.symptomId in s1 <==> x.symptomId in s2)
    ensures GroupsFrom(diseases, seen, ds, s1) == GroupsFrom(diseases, seen, ds, s2)
  {
    if diseases != [] {
      var d := diseases[0];
      SameMatchedRows(ds, d.diseaseId, s1, s2);
      SameGroups(diseases[1..], seen + {d.diseaseId}, ds, s1, s2);
    }
  }

  /** Only the given ids that occur in some association row matter: ids no
      row mentions contribute nothing, and neither order nor repetition of
      the ids changes the answer. */
  lemma UnknownSymptomsContributeNothing(db: Database, s1: seq<int>, s2: seq<int>)
    requires s1 != [] && s2 != []
    requires forall x :: x in db.diseaseSymptoms ==> (x.symptomId in s1 <==> x.symptomId in s2)
    ensures FindPossibleDiseases(db, s1) == FindPossibleDiseases(db, s2)
  {
    SameGroups(db.diseases, {}, db.diseaseSymptoms, s1, s2);
  }

  /** The whole promise of the query for a non-empty list: the returned rows
      are the projections of a top-ten selection, by the key, of the
      qualifying diseases. */
  lemma FindPossibleDiseasesIsTopTen(db: Database, symptomIds: seq<int>)
    requires symptomIds != []
    ensures exists ranked ::
      && IsTopN(RanksBefore, ranked, Qualifying(db, symptomIds), 10)
      && DistinctDiseases(ranked)
      && FindPossibleDiseases(db, symptomIds) == Rows(ProjectAll(ranked))
  {
    RankedMatchesAreTopTen(db, symptomIds);
    RankedDistinct(db, symptomIds);
    assert FindPossibleDiseases(db, symptomIds) == Rows(ProjectAll(RankedMatches(db, symptomIds)));
  }
}

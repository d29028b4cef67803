/** Worked examples of the matching query on a two-disease knowledge base. */
module MatchingScenarios {
  import opened KnowledgeBase
  import opened Sorting
  import opened SqlFunctions
  import opened DiseaseMatching

  const DiseaseA := Disease(1, "A", "first disease")
  const DiseaseB := Disease(2, "B", "second disease")

  /** A has symptoms 1, 2, 3 (specificities 0.9, 0.5, 0.2); B has 1 and 2 (0.4 each). */
  const Links := [
    DiseaseSymptom(1, 1, 0.9), DiseaseSymptom(1, 2, 0.5), DiseaseSymptom(1, 3, 0.2),
    DiseaseSymptom(2, 1, 0.4), DiseaseSymptom(2, 2, 0.4)]

  const ExampleDb := Database([], [], [DiseaseA, DiseaseB], Links, [], [])

  /** The CTE rows of A and B for the symptoms [1, 2]. */
  const MatchA := SymptomMatch(DiseaseA, 2, 3, 0.7)
  const MatchB := SymptomMatch(DiseaseB, 2, 2, 0.4)

  /** The ds1 rows of A for the symptoms [1, 2]: its first two rows. */
  lemma MatchedRowsOfA()
    ensures MatchedRows(Links, 1, [1, 2]) == [Links[0], Links[1]]
  {
    var s := [1, 2];
    assert Links[4..][1..] == [];
    assert Links[3..][1..] == Links[4..];
    assert Links[2..][1..] == Links[3..];
    assert Links[1..][1..] == Links[2..];
    assert MatchedRows(Links[3..], 1, s) == [] by {
      assert MatchedRows(Links[4..], 1, s) == [];
    }
    assert MatchedRows(Links[2..], 1, s) == [];
    assert MatchedRows(Links[1..], 1, s) == [Links[1]];
  }

  /** The ds1 rows of B for the symptoms [1, 2]: its two rows. */
  lemma MatchedRowsOfB()
    ensures MatchedRows(Links, 2, [1, 2]) == [Links[3], Links[4]]
  {
    var s := [1, 2];
    assert Links[4..][1..] == [];
    assert Links[3..][1..] == Links[4..];
    assert Links[2..][1..] == Links[3..];
    assert Links[1..][1..] == Links[2..];
    assert MatchedRows(Links[3..], 2, s) == [Links[3], Links[4]] by {
      assert MatchedRows(Links[4..], 2, s) == [Links[4]];
    }
    assert MatchedRows(Links[2..], 2, s) == [Links[3], Links[4]];
    assert MatchedRows(Links[1..], 2, s) == [Links[3], Links[4]];
  }

  /** A's distinct symptoms: 1 and 2 matched, 1, 2 and 3 overall. */
  lemma SymptomIdsOfA()
    ensures MatchedSymptomIds(Links, 1, [1, 2]) == {1, 2}
    ensures DiseaseSymptomIds(Links, 1) == {1, 2, 3}
    ensures |{1, 2}| == 2 && |{1, 2, 3}| == 3
  {
    forall x | x in Links && x.diseaseId == 1
      ensures x == Links[0] || x == Links[1] || x == Links[2]
    {
    }
    assert Links[0] in Links && Links[1] in Links && Links[2] in Links;
    assert |{1, 2}| == 2 by { assert {1, 2} == {1} + {2}; }
    assert |{1, 2, 3}| == 3 by { assert {1, 2, 3} == {1, 2} + {3}; }
  }

  /** B's distinct symptoms: 1 and 2, matched and overall. */
  lemma SymptomIdsOfB()
    ensures MatchedSymptomIds(Links, 2, [1, 2]) == {1, 2}
    ensures DiseaseSymptomIds(Links, 2) == {1, 2}
    ensures |{1, 2}| == 2
  {
    forall x | x in Links && x.diseaseId == 2
      ensures x == Links[3] || x == Links[4]
    {
    }
    assert Links[3] in Links && Links[4] in Links;
    assert |{1, 2}| == 2 by { assert {1, 2} == {1} + {2}; }
  }

  /** The mean specificity of the matched rows: (0.9 + 0.5) / 2 for A, (0.4 + 0.4) / 2 for B. */
  lemma MeansOfExample()
    ensures Mean([Links[0], Links[1]]) == 0.7
    ensures Mean([Links[3], Links[4]]) == 0.4
  {
    assert Sum([Links[0], Links[1]]) == 1.4 by {
      assert [Links[0], Links[1]][1..] == [Links[1]];
      assert Sum([Links[1]]) == 0.5 by { assert [Links[1]][1..] == []; }
    }
    assert Sum([Links[3], Links[4]]) == 0.8 by {
      assert [Links[3], Links[4]][1..] == [Links[4]];
      assert Sum([Links[4]]) == 0.4 by { assert [Links[4]][1..] == []; }
    }
  }

  /** A: symptoms 1 and 2 of its three matched, with mean specificity 0.7. */
  lemma AggregateOfA()
    ensures MatchedRows(Links, 1, [1, 2]) != []
    ensures Aggregate(DiseaseA, Links, [1, 2]) == MatchA
  {
    MatchedRowsOfA();
    SymptomIdsOfA();
    MeansOfExample();
    AggregateMeaning(DiseaseA, Links, [1, 2]);
  }

  /** B: both of its symptoms matched, with mean specificity 0.4. */
  lemma AggregateOfB()
    ensures MatchedRows(Links, 2, [1, 2]) != []
    ensures Aggregate(DiseaseB, Links, [1, 2]) == MatchB
  {
    MatchedRowsOfB();
    SymptomIdsOfB();
    MeansOfExample();
    AggregateMeaning(DiseaseB, Links, [1, 2]);
  }

  /** Two diseases with distinct ids and a matched row each give two groups, in table order. */
  lemma GroupsOfTwo(a: Disease, b: Disease, ds: seq<DiseaseSymptom>, s: seq<int>)
    requires a.diseaseId != b.diseaseId
    requires MatchedRows(ds, a.diseaseId, s) != [] && MatchedRows(ds, b.diseaseId, s) != []
    ensures GroupsFrom([a, b], {}, ds, s) == [Aggregate(a, ds, s), Aggregate(b, ds, s)]
  {
    var tail := GroupsFrom([], {a.diseaseId, b.diseaseId}, ds, s);
    var fromB := GroupsFrom([b], {a.diseaseId}, ds, s);
    assert fromB == [Aggregate(b, ds, s)] + tail by {
      assert [b][1..] == [];
      assert {a.diseaseId} + {b.diseaseId} == {a.diseaseId, b.diseaseId};
    }
    assert GroupsFrom([a, b], {}, ds, s) == [Aggregate(a, ds, s)] + fromB by {
      assert [a, b][1..] == [b];
      assert {} + {a.diseaseId} == {a.diseaseId};
    }
  }

  /** The CTE for [1, 2]: A's row, then B's, in the order of the Diseases table. */
  lemma CteOfExample()
    ensures SymptomMatchCte(ExampleDb, [1, 2]) == [MatchA, MatchB]
  {
    AggregateOfA();
    AggregateOfB();
    GroupsOfTwo(DiseaseA, DiseaseB, Links, [1, 2]);
  }

  /** Both diseases match two symptoms, so both pass the floor. */
  lemma QualifyingOfExample()
    ensures Qualifying(ExampleDb, [1, 2]) == [MatchA, MatchB]
  {
    CteOfExample();
    var cte := [MatchA, MatchB];
    assert AtLeastTwoMatches(cte[1..][1..]) == [];
    assert AtLeastTwoMatches(cte[1..]) == [MatchB] by {
      assert cte[1..] == [MatchB];
    }
  }

  /** A covers two thirds of its profile with mean specificity 0.7 and keys
      at 66.67 * 0.7; B covers all of its profile with 0.4 and keys at 40.  */
  lemma KeysOfExample()
    ensures MatchPercentage(MatchA) == 66.67 && SpecificityScore(MatchA) == 70.0
    ensures MatchPercentage(MatchB) == 100.0 && SpecificityScore(MatchB) == 40.0
    ensures RankKey(MatchA) == 66.67 * 0.7 && RankKey(MatchB) == 40.0
  {
    assert MatchRatio(MatchA) * 100.0 + 0.5 == 40003.0 / 6.0;
    assert (40003.0 / 6.0).Floor == 6667;
    Round2OfHundredths(10000);
    Round2OfHundredths(7000);
    Round2OfHundredths(4000);
  }

  /** When one of two candidates keys strictly higher, the only top-ten
      selection lists it first. */
  lemma TopOfTwo(r: seq<SymptomMatch>, x: SymptomMatch, y: SymptomMatch)
    requires RankKey(x) > RankKey(y)
    requires IsTopN(RanksBefore, r, [x, y], 10)
    ensures r == [x, y]
  {
    assert |r| == 2;
    assert r[0] in multiset([x, y]) && r[1] in multiset([x, y]);
    TopNDistinct(RanksBefore, r, [x, y], 10);
    assert RanksBefore(r[0], r[1]);
  }

  /** Whatever order ties would take, every top-ten answer for [1, 2] is A then B. */
  lemma AnyRankingPutsABeforeB(r: seq<SymptomMatch>)
    requires IsTopN(RanksBefore, r, Qualifying(ExampleDb, [1, 2]), 10)
    ensures r == [MatchA, MatchB]
  {
    QualifyingOfExample();
    KeysOfExample();
    TopOfTwo(r, MatchA, MatchB);
  }

  /** A frame whose ranking is two rows shows their projections. */
  lemma FrameOfTwo(db: Database, symptomIds: seq<int>, x: SymptomMatch, y: SymptomMatch)
    requires symptomIds != [] && RankedMatches(db, symptomIds) == [x, y]
    ensures FindPossibleDiseases(db, symptomIds) == Rows([Project(x), Project(y)])
  {
    var rows := ProjectAll([x, y]);
    assert rows == [Project(x), Project(y)];
  }

  /** The frame the query returns for [1, 2]. */
  lemma ExampleResult()
    ensures FindPossibleDiseases(ExampleDb, [1, 2]) == Rows([
      DiseaseMatch("A", "first disease", 2, 3, 66.67, 70.0),
      DiseaseMatch("B", "second disease", 2, 2, 100.0, 40.0)])
  {
    RankedMatchesAreTopTen(ExampleDb, [1, 2]);
    AnyRankingPutsABeforeB(RankedMatches(ExampleDb, [1, 2]));
    FrameOfTwo(ExampleDb, [1, 2], MatchA, MatchB);
    KeysOfExample();
  }

  /** Symptom 99 occurs in no association row: no rows, and no error. */
  lemma UnknownSymptomExample()
    ensures FindPossibleDiseases(ExampleDb, [99]) == Rows([])
  {
    forall d | d in ExampleDb.diseases
      ensures |MatchedSymptomIds(Links, d.diseaseId, [99])| < 2
    {
      assert MatchedSymptomIds(Links, d.diseaseId, [99]) == {};
    }
    NoQualifyingDiseaseNoRows(ExampleDb, [99]);
  }

  /** Symptom 3 matches one symptom of A and none of B: below the floor of two. */
  lemma SingleMatchExample()
    ensures FindPossibleDiseases(ExampleDb, [3]) == Rows([])
  {
    assert MatchedSymptomIds(Links, 1, [3]) == {3};
    assert MatchedSymptomIds(Links, 2, [3]) == {};
    NoQualifyingDiseaseNoRows(ExampleDb, [3]);
  }

}

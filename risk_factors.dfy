/** DiagnosticSupport.get_risk_factors: the risk factors linked to one
    disease, ordered by the CASE rank of their risk level. */
module RiskFactorLookup {
  import opened KnowledgeBase
  import opened Sorting
  import opened SqlFunctions

  datatype RiskLevel = Alto | Medio | Basso | Other(text: string)

  /** The level a stored text names; any other text, including another
      capitalisation, is Other. */
  function Level(text: string): (l: RiskLevel)
    ensures l == Alto <==> text == "Alto"
    ensures l == Medio <==> text == "Medio"
    ensures l == Basso <==> text == "Basso"
  {
    if text == "Alto" then Alto
    else if text == "Medio" then Medio
    else if text == "Basso" then Basso
    else Other(text)
  }

  /** The place of a level in the result order: an unknown level (NULL in
      the CASE below) first, then Alto, Medio, Basso. */
  function Position(l: RiskLevel): nat {
    match l
    case Other(_) => 0
    case Alto => 1
    case Medio => 2
    case Basso => 3
  }

  /** CASE drf.risk_level WHEN 'Alto' THEN 1 WHEN 'Medio' THEN 2
      WHEN 'Basso' THEN 3 END: NULL for any other text. */
  function CaseRank(text: string): Option<int> {
    var l := Level(text);
    if l.Other? then None else Some(Position(l))
  }

  /** A row of the result: factor_name, description, risk_level. */
  datatype RiskFactorRow = RiskFactorRow(factorName: string, description: string, riskLevel: string)

  /** The RiskFactors rows joined with one link (`rf.factor_id = drf.factor_id`). */
  function FactorsOfLink(rfs: seq<RiskFactor>, link: DiseaseRiskFactor): seq<RiskFactorRow> {
    if rfs == [] then []
    else
      (if rfs[0].factorId == link.factorId
       then [RiskFactorRow(rfs[0].factorName, rfs[0].description, link.riskLevel)] else [])
      + FactorsOfLink(rfs[1..], link)
  }

  /** The join restricted to `drf.disease_id = k`, before ordering. */
  function LinkedFactors(rfs: seq<RiskFactor>, links: seq<DiseaseRiskFactor>, k: int): seq<RiskFactorRow> {
    if links == [] then []
    else
      (if links[0].diseaseId == k then FactorsOfLink(rfs, links[0]) else [])
      + LinkedFactors(rfs, links[1..], k)
  }

  /** ORDER BY the CASE rank, ascending: NULL (an unknown level) first, then
      Alto, Medio, Basso. */
  predicate SeverityOrder(x: RiskFactorRow, y: RiskFactorRow) {
    NullsFirstLe(CaseRank(x.riskLevel), CaseRank(y.riskLevel))
  }

  lemma SeverityOrderIsTotalPreorder()
    ensures TotalPreorder(SeverityOrder)
  {
  }

  function GetRiskFactors(db: Database, diseaseId: int): (r: seq<RiskFactorRow>)
    ensures multiset(r) == multiset(LinkedFactors(db.riskFactors, db.diseaseRiskFactors, diseaseId))
    ensures SortedBy(SeverityOrder, r)
  {
    SeverityOrderIsTotalPreorder();
    InsertionSort(LinkedFactors(db.riskFactors, db.diseaseRiskFactors, diseaseId), SeverityOrder)
  }

  // ----- What the query promises -----

  /** The row a factor and one of its links produce. */
  ghost predicate JoinedFrom(x: RiskFactorRow, rf: RiskFactor, link: DiseaseRiskFactor) {
    && rf.factorId == link.factorId
    && x == RiskFactorRow(rf.factorName, rf.description, link.riskLevel)
  }

  lemma {:induction false} FactorsOfLinkMembers(rfs: seq<RiskFactor>, link: DiseaseRiskFactor, x: RiskFactorRow)
    ensures x in FactorsOfLink(rfs, link) <==> exists rf :: rf in rfs && JoinedFrom(x, rf, link)
  {
    if rfs != [] {
      FactorsOfLinkMembers(rfs[1..], link, x);
      var row := RiskFactorRow(rfs[0].factorName, rfs[0].description, link.riskLevel);
      if rfs[0].factorId == link.factorId && x == row {
        assert JoinedFrom(x, rfs[0], link);
      }
      if exists rf :: rf in rfs && JoinedFrom(x, rf, link) {
        var rf :| rf in rfs && JoinedFrom(x, rf, link);
        if rf != rfs[0] {
          assert rf in rfs[1..];
        }
      }
    }
  }

  lemma {:induction false} LinkedFactorsMembers(rfs: seq<RiskFactor>, links: seq<DiseaseRiskFactor>, k: int, x: RiskFactorRow)
    ensures x in LinkedFactors(rfs, links, k) <==>
      exists rf, link :: rf in rfs && link in links && link.diseaseId == k && JoinedFrom(x, rf, link)
  {
    if links != [] {
      LinkedFactorsMembers(rfs, links[1..], k, x);
      FactorsOfLinkMembers(rfs, links[0], x);
      if exists rf, link :: rf in rfs && link in links && link.diseaseId == k && JoinedFrom(x, rf, link) {
        var rf, link :| rf in rfs && link in links && link.diseaseId == k && JoinedFrom(x, rf, link);
        if link != links[0] {
          assert link in links[1..];
        }
      }
    }
  }

  /** A row is returned exactly when some risk factor and some link of the
      disease to it produce it: nothing for links of other diseases, nothing
      for a link to a factor id no RiskFactors row has. */
  lemma GetRiskFactorsMembers(db: Database, diseaseId: int, x: RiskFactorRow)
    ensures x in GetRiskFactors(db, diseaseId) <==>
      exists rf, link :: rf in db.riskFactors && link in db.diseaseRiskFactors
        && link.diseaseId == diseaseId && JoinedFrom(x, rf, link)
  {
    var linked := LinkedFactors(db.riskFactors, db.diseaseRiskFactors, diseaseId);
    assert x in GetRiskFactors(db, diseaseId) <==> x in multiset(linked);
    LinkedFactorsMembers(db.riskFactors, db.diseaseRiskFactors, diseaseId, x);
  }

  /** Alto rows come before Medio rows, which come before Basso rows; rows
      with any other level come before all of them. */
  lemma RiskLevelsInOrder(db: Database, diseaseId: int)
    ensures forall i, j :: 0 <= i < j < |GetRiskFactors(db, diseaseId)| ==>
      Position(Level(GetRiskFactors(db, diseaseId)[i].riskLevel))
        <= Position(Level(GetRiskFactors(db, diseaseId)[j].riskLevel))
  {
    var r := GetRiskFactors(db, diseaseId);
    forall i, j | 0 <= i < j < |r|
      ensures Position(Level(r[i].riskLevel)) <= Position(Level(r[j].riskLevel))
    {
      assert SeverityOrder(r[i], r[j]);
    }
  }

  ghost predicate DistinctFactorIds(rfs: seq<RiskFactor>) {
    forall i, j :: 0 <= i < j < |rfs| ==> rfs[i].factorId != rfs[j].factorId
  }

  ghost predicate HasFactor(link: DiseaseRiskFactor, rfs: seq<RiskFactor>) {
    exists rf :: rf in rfs && rf.factorId == link.factorId
  }

  /** The links of disease k, in table order. */
  ghost function LinksOf(links: seq<DiseaseRiskFactor>, k: int): seq<DiseaseRiskFactor> {
    if links == [] then []
    else (if links[0].diseaseId == k then [links[0]] else []) + LinksOf(links[1..], k)
  }

  /** A link to a factor id no RiskFactors row has joins to nothing. */
  lemma {:induction false} NoFactorRow(rfs: seq<RiskFactor>, link: DiseaseRiskFactor)
    requires forall rf :: rf in rfs ==> rf.factorId != link.factorId
    ensures FactorsOfLink(rfs, link) == []
  {
    if rfs != [] {
      assert rfs[0] in rfs;
      assert forall rf :: rf in rfs[1..] ==> rf in rfs;
      NoFactorRow(rfs[1..], link);
    }
  }

  /** With distinct factor ids, a link to a present factor gives one row. */
  lemma {:induction false} OneRowPerLink(rfs: seq<RiskFactor>, link: DiseaseRiskFactor)
    requires DistinctFactorIds(rfs) && HasFactor(link, rfs)
    ensures |FactorsOfLink(rfs, link)| == 1
  {
    if rfs[0].factorId == link.factorId {
      NoFactorRow(rfs[1..], link);
    } else {
      var rf :| rf in rfs && rf.factorId == link.factorId;
      assert rf in rfs[1..];
      OneRowPerLink(rfs[1..], link);
    }
  }

  lemma {:induction false} EveryLinkOnce(rfs: seq<RiskFactor>, links: seq<DiseaseRiskFactor>, k: int)
    requires DistinctFactorIds(rfs)
    requires forall link :: link in links ==> HasFactor(link, rfs)
    ensures |LinkedFactors(rfs, links, k)| == |LinksOf(links, k)|
  {
    if links != [] {
      assert links[0] in links;
      assert forall link :: link in links[1..] ==> link in links;
      if links[0].diseaseId == k {
        OneRowPerLink(rfs, links[0]);
      }
      EveryLinkOnce(rfs, links[1..], k);
    }
  }

  /** With distinct factor ids and every link's factor present, the query
      returns one row per link of the disease. */
  lemma RiskFactorCount(db: Database, diseaseId: int)
    requires DistinctFactorIds(db.riskFactors)
    requires forall link :: link in db.diseaseRiskFactors ==> HasFactor(link, db.riskFactors)
    ensures |GetRiskFactors(db, diseaseId)| == |LinksOf(db.diseaseRiskFactors, diseaseId)|
  {
    EveryLinkOnce(db.riskFactors, db.diseaseRiskFactors, diseaseId);
    assert |multiset(GetRiskFactors(db, diseaseId))|
      == |multiset(LinkedFactors(db.riskFactors, db.diseaseRiskFactors, diseaseId))|;
  }

  /** An unknown disease id, or one without links, yields no rows (not an error). */
  lemma UnknownDiseaseHasNoRiskFactors(db: Database, diseaseId: int)
    requires forall link :: link in db.diseaseRiskFactors ==> link.diseaseId != diseaseId
    ensures GetRiskFactors(db, diseaseId) == []
  {
    var r := GetRiskFactors(db, diseaseId);
    if r != [] {
      GetRiskFactorsMembers(db, diseaseId, r[0]);
    }
  }
}

/** DiagnosticSupport.get_all_symptoms: every symptom with the name of its
    body system, ordered by system name and then symptom name. */
module SymptomCatalogue {
  import opened KnowledgeBase
  import opened Sorting
  import opened SqlFunctions

  /** A row of the result: symptom_id, symptom_name, system_name, severity_scale. */
  datatype SymptomListing = SymptomListing(
    symptomId: int, symptomName: string, systemName: string, severityScale: int)

  /** The body systems a symptom joins with (`s.system_id = b.system_id`). */
  function ListingsOf(s: Symptom, systems: seq<BodySystem>): seq<SymptomListing> {
    if systems == [] then []
    else
      (if systems[0].systemId == s.systemId
       then [SymptomListing(s.symptomId, s.symptomName, systems[0].systemName, s.severityScale)] else [])
      + ListingsOf(s, systems[1..])
  }

  /** Symptoms JOIN BodySystems, before ordering. */
  function JoinedSymptoms(symptoms: seq<Symptom>, systems: seq<BodySystem>): seq<SymptomListing> {
    if symptoms == [] then [] else ListingsOf(symptoms[0], systems) + JoinedSymptoms(symptoms[1..], systems)
  }

  /** ORDER BY system_name, symptom_name (both ascending, BINARY collation). */
  predicate CatalogueOrder(x: SymptomListing, y: SymptomListing) {
    || TextLt(x.systemName, y.systemName)
    || (x.systemName == y.systemName && TextLe(x.symptomName, y.symptomName))
  }

  lemma CatalogueOrderIsTotalPreorder()
    ensures TotalPreorder(CatalogueOrder)
  {
    forall x, y ensures CatalogueOrder(x, y) || CatalogueOrder(y, x) {
      TextLeTotal(x.systemName, y.systemName);
      TextLeTotal(x.symptomName, y.symptomName);
    }
    forall x, y, z | CatalogueOrder(x, y) && CatalogueOrder(y, z) ensures CatalogueOrder(x, z) {
      if x.systemName == y.systemName && y.systemName == z.systemName {
        TextLeTransitive(x.symptomName, y.symptomName, z.symptomName);
      } else {
        TextLeReflexive(x.systemName);
        TextLeReflexive(y.systemName);
        TextLeTransitive(x.systemName, y.systemName, z.systemName);
        if x.systemName == z.systemName {
          TextLeAntisymmetric(x.systemName, y.systemName);
        }
      }
    }
  }

  function GetAllSymptoms(db: Database): (r: seq<SymptomListing>)
    ensures multiset(r) == multiset(JoinedSymptoms(db.symptoms, db.bodySystems))
    ensures SortedBy(CatalogueOrder, r)
  {
    CatalogueOrderIsTotalPreorder();
    InsertionSort(JoinedSymptoms(db.symptoms, db.bodySystems), CatalogueOrder)
  }

  // ----- What the query promises -----

  /** The row a symptom and its body system produce. */
  ghost predicate JoinedFrom(x: SymptomListing, s: Symptom, b: BodySystem) {
    && s.systemId == b.systemId
    && x == SymptomListing(s.symptomId, s.symptomName, b.systemName, s.severityScale)
  }

  lemma {:induction false} ListingsOfMembers(s: Symptom, systems: seq<BodySystem>, x: SymptomListing)
    ensures x in ListingsOf(s, systems) <==> exists b :: b in systems && JoinedFrom(x, s, b)
  {
    if systems != [] {
      ListingsOfMembers(s, systems[1..], x);
      var row := SymptomListing(s.symptomId, s.symptomName, systems[0].systemName, s.severityScale);
      if systems[0].systemId == s.systemId && x == row {
        assert JoinedFrom(x, s, systems[0]);
      }
      if exists b :: b in systems && JoinedFrom(x, s, b) {
        var b :| b in systems && JoinedFrom(x, s, b);
        if b != systems[0] {
          assert b in systems[1..];
        }
      }
    }
  }

  lemma {:induction false} JoinedSymptomsMembers(symptoms: seq<Symptom>, systems: seq<BodySystem>, x: SymptomListing)
    ensures x in JoinedSymptoms(symptoms, systems) <==>
      exists s, b :: s in symptoms && b in systems && JoinedFrom(x, s, b)
  {
    if symptoms != [] {
      JoinedSymptomsMembers(symptoms[1..], systems, x);
      ListingsOfMembers(symptoms[0], systems, x);
      if exists s, b :: s in symptoms && b in systems && JoinedFrom(x, s, b) {
        var s, b :| s in symptoms && b in systems && JoinedFrom(x, s, b);
        if s != symptoms[0] {
          assert s in symptoms[1..];
        }
      }
    }
  }

  /** A row is listed exactly when a symptom and a body system with its
      system_id produce it; a symptom whose system_id no body system has is
      not listed. */
  lemma GetAllSymptomsMembers(db: Database, x: SymptomListing)
    ensures x in GetAllSymptoms(db) <==>
      exists s, b :: s in db.symptoms && b in db.bodySystems && JoinedFrom(x, s, b)
  {
    var joined := JoinedSymptoms(db.symptoms, db.bodySystems);
    assert x in GetAllSymptoms(db) <==> x in multiset(joined);
    JoinedSymptomsMembers(db.symptoms, db.bodySystems, x);
  }

  /** System names never decrease along the list, and within one system the
      symptom names never decrease. */
  lemma CatalogueIsOrdered(db: Database)
    ensures forall i, j :: 0 <= i < j < |GetAllSymptoms(db)| ==>
      && TextLe(GetAllSymptoms(db)[i].systemName, GetAllSymptoms(db)[j].systemName)
      && (GetAllSymptoms(db)[i].systemName == GetAllSymptoms(db)[j].systemName ==>
            TextLe(GetAllSymptoms(db)[i].symptomName, GetAllSymptoms(db)[j].symptomName))
  {
    var r := GetAllSymptoms(db);
    forall i, j | 0 <= i < j < |r|
      ensures TextLe(r[i].systemName, r[j].systemName)
      ensures r[i].systemName == r[j].systemName ==> TextLe(r[i].symptomName, r[j].symptomName)
    {
      assert CatalogueOrder(r[i], r[j]);
      TextLeReflexive(r[i].systemName);
    }
  }

  ghost predicate DistinctSystemIds(systems: seq<BodySystem>) {
    forall i, j :: 0 <= i < j < |systems| ==> systems[i].systemId != systems[j].systemId
  }

  ghost predicate HasSystem(s: Symptom, systems: seq<BodySystem>) {
    exists b :: b in systems && b.systemId == s.systemId
  }

  lemma {:induction false} OneListingPerSymptom(s: Symptom, systems: seq<BodySystem>)
    requires DistinctSystemIds(systems) && HasSystem(s, systems)
    ensures |ListingsOf(s, systems)| == 1
  {
    if systems[0].systemId == s.systemId {
      NoListing(s, systems[1..]);
    } else {
      var b :| b in systems && b.systemId == s.systemId;
      assert b in systems[1..];
      OneListingPerSymptom(s, systems[1..]);
    }
  }

  lemma {:induction false} NoListing(s: Symptom, systems: seq<BodySystem>)
    requires forall b :: b in systems ==> b.systemId != s.systemId
    ensures ListingsOf(s, systems) == []
  {
    if systems != [] {
      assert systems[0] in systems;
      assert forall b :: b in systems[1..] ==> b in systems;
      NoListing(s, systems[1..]);
    }
  }

  /** With body system ids unique and every symptom's system present, each
      symptom is listed exactly once. */
  lemma {:induction false} EverySymptomOnce(symptoms: seq<Symptom>, systems: seq<BodySystem>)
    requires DistinctSystemIds(systems)
    requires forall s :: s in symptoms ==> HasSystem(s, systems)
    ensures |JoinedSymptoms(symptoms, systems)| == |symptoms|
  {
    if symptoms != [] {
      assert symptoms[0] in symptoms;
      assert forall s :: s in symptoms[1..] ==> s in symptoms;
      OneListingPerSymptom(symptoms[0], systems);
      EverySymptomOnce(symptoms[1..], systems);
    }
  }

  lemma CatalogueSize(db: Database)
    requires DistinctSystemIds(db.bodySystems)
    requires forall s :: s in db.symptoms ==> HasSystem(s, db.bodySystems)
    ensures |GetAllSymptoms(db)| == |db.symptoms|
  {
    EverySymptomOnce(db.symptoms, db.bodySystems);
    assert |multiset(GetAllSymptoms(db))| == |multiset(JoinedSymptoms(db.symptoms, db.bodySystems))|;
  }
}

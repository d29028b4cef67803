/** The tables of the diagnostic knowledge base, one row datatype per table.
    A table is a sequence of rows in storage order; a `Database` holds all six. */
module KnowledgeBase {

  /** A value that may be SQL NULL. */
  datatype Option<+T> = None | Some(value: T)

  datatype BodySystem = BodySystem(systemId: int, systemName: string)

  datatype Symptom = Symptom(symptomId: int, symptomName: string, systemId: int, severityScale: int)

  datatype Disease = Disease(diseaseId: int, diseaseName: string, description: string)

  /** How diagnostic one symptom is for one disease; specificity is meant to lie in [0, 1]. */
  datatype DiseaseSymptom = DiseaseSymptom(diseaseId: int, symptomId: int, specificity: real)

  datatype RiskFactor = RiskFactor(factorId: int, factorName: string, description: string)

  /** The risk level is stored as text ("Alto", "Medio", "Basso" are the intended values). */
  datatype DiseaseRiskFactor = DiseaseRiskFactor(diseaseId: int, factorId: int, riskLevel: string)

  datatype Database = Database(
    bodySystems: seq<BodySystem>,
    symptoms: seq<Symptom>,
    diseases: seq<Disease>,
    diseaseSymptoms: seq<DiseaseSymptom>,
    riskFactors: seq<RiskFactor>,
    diseaseRiskFactors: seq<DiseaseRiskFactor>)

  /** Every association row carries a specificity in [0, 1]. */
  ghost predicate SpecificitiesInRange(ds: seq<DiseaseSymptom>) {
    forall x :: x in ds ==> 0.0 <= x.specificity <= 1.0
  }
}

/**
 * The medication lookup of expert.py (`get_medicine_for_disease`) and the
 * diagnosis lines `main` prints from the matcher's result and that lookup.
 */
module Medication {
  import opened Wrappers

  /** One value of the medicine catalog: a JSON object such as `{"medication": ..., "dosage": ...}`. */
  type MedicineRecord = map<string, string>

  /** The medicine catalog: disease name -> record. */
  type MedicineCatalog = map<string, MedicineRecord>

  /** `medicines.get(disease, {})` */
  function GetMedicineForDisease(medicines: MedicineCatalog, disease: string): (r: MedicineRecord)
    ensures disease in medicines ==> r == medicines[disease]
    ensures disease !in medicines ==> r == map[]
    ensures |r| > 0 <==> disease in medicines && medicines[disease] != map[]
  {
    if disease in medicines then medicines[disease] else map[]
  }

  /** How an f-string shows `record.get(field)`: the value, or `None` when the field is absent. */
  function FieldText(rec: MedicineRecord, field: string): string
  {
    if field in rec then rec[field] else "None"
  }

  const NoDiagnosisLine := "I couldn't determine a potential diagnosis based on your symptoms. Please consult a doctor."
  const NoMedicationLine := "No specific medication recommendations available. Please consult a doctor."
  const MedicationHeader := "Possible medications include:"

  function DiagnosisLine(disease: string): string
  {
    "Based on your symptoms, it could be " + disease + "."
  }

  function MedicationLine(rec: MedicineRecord): string
  {
    "- " + FieldText(rec, "medication") + " (" + FieldText(rec, "dosage") + ")"
  }

  /**
   * `if diagnosed_disease:` is false for `None` and also for an empty name,
   * as Python strings are false when empty.
   */
  predicate IsDiagnosis(diagnosis: Option<string>) {
    diagnosis.Some? && diagnosis.value != ""
  }

  /** The lines `main` prints between `Expert:` and the model's reply. */
  function DiagnosisLines(diagnosis: Option<string>, medicines: MedicineCatalog): (lines: seq<string>)
    ensures !IsDiagnosis(diagnosis) ==> lines == [NoDiagnosisLine]
    ensures IsDiagnosis(diagnosis) ==> |lines| >= 2 && lines[0] == DiagnosisLine(diagnosis.value)
  {
    if IsDiagnosis(diagnosis) then
      var rec := GetMedicineForDisease(medicines, diagnosis.value);
      [DiagnosisLine(diagnosis.value)]
        + (if |rec| > 0 then [MedicationHeader, MedicationLine(rec)] else [NoMedicationLine])
    else [NoDiagnosisLine]
  }

  /**
   * A diagnosed disease with a record holding both fields gets exactly its
   * medication and dosage printed.
   */
  lemma DiagnosisShowsStoredMedication(disease: string, medicines: MedicineCatalog, medication: string, dosage: string)
    requires disease != "" && disease in medicines
    requires "medication" in medicines[disease] && medicines[disease]["medication"] == medication
    requires "dosage" in medicines[disease] && medicines[disease]["dosage"] == dosage
    ensures DiagnosisLines(Some(disease), medicines)
         == [DiagnosisLine(disease), MedicationHeader, "- " + medication + " (" + dosage + ")"]
  {
    var rec := medicines[disease];
    assert "medication" in rec.Keys;
    assert |rec| > 0;
  }

  /**
   * A diagnosed disease gets the consult-a-doctor line exactly when it has
   * no record or an empty one; the lookup never fails.
   */
  lemma ConsultDoctorIffNoRecord(disease: string, medicines: MedicineCatalog)
    requires disease != ""
    ensures DiagnosisLines(Some(disease), medicines) == [DiagnosisLine(disease), NoMedicationLine]
            <==> (disease !in medicines || medicines[disease] == map[])
  {
    var rec := GetMedicineForDisease(medicines, disease);
    if |rec| > 0 {
      assert DiagnosisLines(Some(disease), medicines)[1] == MedicationHeader;
      assert MedicationHeader != NoMedicationLine;
      assert rec != map[];
    } else {
      assert rec == map[];
    }
  }
}

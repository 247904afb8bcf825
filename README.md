# Expert: a Dafny model of the symptom matcher and conversation turn

Expert is a command-line medical assistant written in Python (`expert.py`).
The patient describes their symptoms. The program matches the description
against a disease catalog by token overlap, looks up a medication for the best
match, and forwards the conversation to a remote chat model whose streamed
reply is added to the history. This project models the parts computed
locally, and proves what they guarantee:

- `normaliser.dfy`, module `Normaliser`: `preprocess_symptoms`. It tokenises,
  drops stopwords (compared in lower case) and lemmatises, keeping order.
  NLTK's tokeniser, `str.lower`, WordNet's lemmatiser and the English
  stopword list are fields of a `Toolkit` value passed in, so each lemma
  holds for any behaviour of those primitives.
- `matcher.dfy`, module `Matcher`: `get_disease_from_symptoms`. It builds the
  insertion-ordered dict `disease_symptoms`, modelled as `SymptomIndex`: a key
  sequence plus a map. Assigning an existing name keeps its position and
  replaces its tokens. It then runs the argmax loop with a floor of 0 and a
  strict `>`. The two loops are the methods `BuildSymptomIndex` and
  `BestScoring`, and `GetDiseaseFromSymptoms` composes them as the Python
  function does.
- `medication.dfy`, module `Medication`: `get_medicine_for_disease`
  (`medicines.get(disease, {})`) and the diagnosis and medication lines that
  `main` prints from it.
- `session.dfy`, module `Session`: the history list `messages`, as the class
  `Conversation`, and one pass of the `while True` loop as `Conversation.Turn`.
- `wrappers.dfy`, module `Wrappers`: `Option`, for Python's `None`-or-name
  result.

A medicine record is modelled as a `map<string, string>` (a JSON object), not
as a fixed pair. That matches the source closely: an empty stored record is
falsy like a missing one, and a missing `medication` or `dosage` field prints
as `None`. `if diagnosed_disease:` is also false for a disease whose name is
the empty string, so such a diagnosis prints the "couldn't determine" line;
`Medication.IsDiagnosis` models that.

The score counts every patient token that occurs in a disease's list, so a
repeated patient token counts each time it occurs (expert.py:62). Only
membership in the disease's list matters, not how often a token occurs
there (`Matcher.Score`).

## Model

| member | source | states |
|---|---|---|
| `Normaliser.RemoveStopwords` | expert.py:36-37 | the filtered list is no longer than the input and holds only input tokens whose lower-case form is not a stopword; the in-order selection is `RemoveStopwordsAtPositions` |
| `Normaliser.LemmatizeAll` | expert.py:40-41 | lemmatising keeps the number of tokens |
| `Normaliser.NormaliseTokens` | expert.py:33-43 | the normalised sequence is never longer than the token sequence |
| `Normaliser.PreprocessSymptoms` | expert.py:30-43 | `preprocess_symptoms` returns at most as many tokens as the tokeniser produced |
| `Normaliser.ContentPositions` | expert.py:37 | the reference list of content-word positions only holds positions of the token sequence |
| `Normaliser.ContentPositionsSelect` | expert.py:37 | the reference list of content-word positions is increasing and holds exactly the positions of tokens whose lower-case form is not a stopword |
| `Normaliser.RemoveStopwordsAtPositions` | expert.py:37 | the filter output is, in order, the tokens at those positions |
| `Normaliser.NormaliseSelectsContentWords` | expert.py:33-43 | the output is, in order, the lemma of exactly those tokens whose lower-case form is not a stopword |
| `Normaliser.RemoveStopwordsKeepsContent` | expert.py:37 | a sequence of content words passes the stopword filter unchanged |
| `Normaliser.NormaliseIdempotent` | expert.py:33-43 | normalising twice equals normalising once, when lemmas of content words are content words and lemmatising is idempotent |
| `Matcher.Join` | expert.py:55 | definition only: `' '.join(words)`; used by `RecordTokens` |
| `Matcher.RecordTokens` | expert.py:55 | definition only: the normalised, space-joined symptoms of one record; its place in the dict is stated by `CatalogEntryIsLastRecord` |
| `Matcher.Score` | expert.py:62 | a disease's score is between 0 and the number of patient tokens |
| `Matcher.ScoreAppend` | expert.py:62 | scores add over concatenated patient tokens, so every occurrence of a token counts |
| `Matcher.ScoreZeroIff` | expert.py:62 | the score is 0 exactly when no patient token is among the disease's tokens |
| `Matcher.ScoreFullIff` | expert.py:62 | the score equals the patient token count exactly when every patient token is among the disease's tokens |
| `Matcher.ScoreMonotone` | expert.py:62 | adding symptom tokens never lowers a score, and raises it when a patient token is among the added ones only |
| `Matcher.Insert` | expert.py:56 | dict assignment keeps the dict well formed, keeps an existing key's position, puts a new key last, and changes only that key's value |
| `Matcher.IndexOf` | expert.py:52-56 | the dict built from any catalog has distinct keys, and its keys are exactly its map's domain |
| `Matcher.BuildSymptomIndex` | expert.py:52-56 | the first loop builds exactly the dict `IndexOf` describes |
| `Matcher.BestScoring` | expert.py:59-68 | the second loop returns `None` exactly when every key scores 0; otherwise it returns a key with a positive score that no key exceeds and that every earlier key scores strictly below |
| `Matcher.GetDiseaseFromSymptoms` | expert.py:45-68 | the result is the first best-scoring key of the dict built from the catalog; it is `None` exactly when every score is 0, in particular for an empty catalog; a returned name is the name of a catalog record |
| `Matcher.Entries` | expert.py:53-56 | the first loop performs one assignment per catalog record |
| `Matcher.CatalogIndex` | expert.py:52-56 | the dict built from the catalog is well formed |
| `Matcher.IndexKeyIsAssigned` | expert.py:56 | a name is a dict key exactly when some assignment is for it |
| `Matcher.IndexEntryIsLastAssignment` | expert.py:56 | a key holds the tokens of the last assignment to it |
| `Matcher.IndexKeysInFirstOccurrenceOrder` | expert.py:56 | dict keys are in order of first assignment: every assignment to a later key comes after some assignment to any earlier key |
| `Matcher.FirstOccurrenceOrderRepeatedLast` | expert.py:56 | the order property when the last assignment repeats a name |
| `Matcher.FirstOccurrenceOrderNewLast` | expert.py:56 | the order property when the last assignment brings a new name |
| `Matcher.NewKeyComesLast` | expert.py:56 | a name first met in the last assignment occurs in no earlier one |
| `Matcher.CatalogKeyIsDiseaseName` | expert.py:53-56 | a name is a key of `disease_symptoms` exactly when some catalog record carries it |
| `Matcher.CatalogEntryIsLastRecord` | expert.py:53-56 | when several records share a name, the last of them supplies that name's tokens |
| `Matcher.CatalogKeysInFirstOccurrenceOrder` | expert.py:53-56 | the keys of `disease_symptoms` are in order of first occurrence in the catalog |
| `Matcher.WinnerStaysWinner` | expert.py:59-65 | giving the winning disease extra symptom tokens keeps the dict well formed and keeps that disease the winner |
| `Matcher.BestMatchUnique` | expert.py:59-68 | the matcher's postcondition allows exactly one result, so matching is deterministic |
| `Medication.GetMedicineForDisease` | expert.py:74-76 | lookup returns the stored record for a key and the empty record otherwise, with no precondition; it is non-empty exactly when a non-empty record is stored |
| `Medication.IsDiagnosis` | expert.py:107 | definition only: the truthiness of `if diagnosed_disease:`, false for `None` and for an empty name; used by `DiagnosisLines` |
| `Medication.FieldText` | expert.py:114-116 | definition only: `record.get(field)` as an f-string shows it, `None` when absent; properties in `DiagnosisShowsStoredMedication` |
| `Medication.DiagnosisLine` | expert.py:108 | definition only: the "it could be" line; properties in `DiagnosisLines` |
| `Medication.MedicationLine` | expert.py:116 | definition only: the "- medication (dosage)" line; properties in `DiagnosisShowsStoredMedication` |
| `Medication.DiagnosisLines` | expert.py:107-120 | no diagnosis (None or an empty name) prints only the "couldn't determine" line; a diagnosis starts with "it could be" and the disease name |
| `Medication.DiagnosisShowsStoredMedication` | expert.py:111-116 | a diagnosed disease whose record has both fields prints its medication and, in parentheses, its dosage |
| `Medication.ConsultDoctorIffNoRecord` | expert.py:111-118 | a diagnosed disease gets the consult-a-doctor line exactly when it has no record or an empty one |
| `Session.IsSpace` | expert.py:98 | definition only: the characters for which Python's `str.isspace()` holds; used by `IsBlank` and the trims |
| `Session.Strip` | expert.py:98 | definition only: `s.strip()` as the two trims; properties in `TrimStart`, `TrimEnd` and `StripEmptyIffBlank` |
| `Session.TrimStart` | expert.py:98 | the leading-whitespace trim returns a suffix whose dropped prefix is all whitespace and which does not start with whitespace |
| `Session.TrimEnd` | expert.py:98 | the trailing-whitespace trim returns a prefix whose dropped suffix is all whitespace and which does not end with whitespace |
| `Session.StripEmptyIffBlank` | expert.py:98-100 | `strip()` is empty exactly when the input is whitespace only |
| `Session.StripsToEmpty` | expert.py:98 | the test `not user_symptoms.strip()` holds exactly for whitespace-only input |
| `Session.Concat` | expert.py:130-132 | definition only: the in-order join of the reply fragments; properties in `ConcatAppend` and `ConcatFragmentAt` |
| `Session.ConcatAppend` | expert.py:130-132 | concatenating two runs of fragments is the concatenation of their concatenations |
| `Session.ConcatFragmentAt` | expert.py:130-132 | each fragment sits in the reply between the fragments before it and those after it |
| `Session.ReadStream` | expert.py:130-132 | the accumulated reply is the concatenation of all fragments in arrival order |
| `Session.Diagnose` | expert.py:105-120 | the diagnosis is the matcher's first best-scoring disease and the printed lines are those of that diagnosis and its medicine record |
| `Session.Conversation.constructor` | expert.py:88 | the history starts as the single system greeting |
| `Session.Conversation.Turn` | expert.py:95-136 | whitespace-only input leaves `messages` unchanged and reprompts without a backend reply; other input appends exactly the user message then the assistant message holding the concatenated fragments, leaving earlier entries unchanged, and prints the diagnosis lines of the best match |

## Left out

- NLTK tokenisation, the stopword corpus and WordNet lemmatisation, and their downloads (expert.py:6-9, 15-17): foreign library calls. They are fields of `Normaliser.Toolkit`, and every statement holds for any choice of them.
- Loading `diseases.json` and `medicines.json`, and the exit on a missing file (expert.py:20-28): file input. The catalogs are parameters.
- The AI71 client, the `.env` key, the fatal exit when the client cannot be built, and the streaming request (expert.py:3-4, 11-12, 79-85, 123-127): network and environment. The stream is the `fragments` parameter of `Conversation.Turn`. The model does not capture that the backend is sent the history that already holds the new user message. A chunk whose content is `None` would make the Python `+=` raise; that case is not modelled.
- Console output and `input()` (expert.py:90-120, 133, 137): I/O. The printed diagnosis lines are returned as values by `Medication.DiagnosisLines`, and the input line is a parameter.
- The catch-all `except` of the matcher (expert.py:70-72): records are typed values and the toolkit functions are total, so no exception can arise in the model and that path is not reachable.
- The unbounded `while True` loop (expert.py:93): one pass is `Conversation.Turn`. The endless repetition is not modelled.
- The worked scenarios with concrete diseases ("Flu", "Cold") are not stated: they depend on what NLTK's tokeniser and lemmatiser do to concrete strings, and these are abstract here.

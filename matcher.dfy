/**
 * The symptom matcher of expert.py (`get_disease_from_symptoms`).
 *
 * It first builds the dict `disease_symptoms`, name -> normalised symptoms,
 * in catalog order. Assigning a name that is already a key keeps the key's
 * position and replaces its tokens. It then scores every entry in the dict's
 * order by how many patient tokens, with repetition, occur in that entry's
 * tokens, and keeps the first entry with the greatest positive score.
 */
module Matcher {
  import opened Wrappers
  import opened Normaliser

  /** One entry of the disease catalog: `{"name": ..., "symptoms": [...]}`. */
  datatype DiseaseRecord = DiseaseRecord(name: string, symptoms: seq<string>)

  /** `' '.join(words)` */
  function Join(words: seq<string>): string
  {
    if |words| == 0 then ""
    else if |words| == 1 then words[0]
    else words[0] + " " + Join(words[1..])
  }

  /** The tokens the matcher stores for one catalog record. */
  function RecordTokens(nlp: Toolkit, d: DiseaseRecord): seq<string>
  {
    PreprocessSymptoms(nlp, Join(d.symptoms))
  }

  /** `disease['name']` with its `processed_symptoms`, as the first loop assigns them. */
  datatype Entry = Entry(name: string, tokens: seq<string>)

  /** The assignments the first loop performs, in catalog order. */
  function Entries(nlp: Toolkit, ds: seq<DiseaseRecord>): (es: seq<Entry>)
    ensures |es| == |ds|
  {
    seq(|ds|, i requires 0 <= i < |ds| => Entry(ds[i].name, RecordTokens(nlp, ds[i])))
  }

  /** `sum(1 for symptom in tokens if symptom in symptoms_list)` */
  function Score(tokens: seq<string>, symptoms: seq<string>): (n: nat)
    ensures n <= |tokens|
  {
    if tokens == [] then 0
    else (if tokens[0] in symptoms then 1 else 0) + Score(tokens[1..], symptoms)
  }

  /**
   * A Python dict from disease name to tokens: `keys` in insertion order,
   * `entries` the values.
   */
  datatype SymptomIndex = SymptomIndex(keys: seq<string>, entries: map<string, seq<string>>)
  {
    ghost predicate Valid() {
      && (forall i, j :: 0 <= i < j < |keys| ==> keys[i] != keys[j])
      && (forall name :: name in entries <==> name in keys)
    }
  }

  /**
   * `disease_symptoms[name] = tokens`: a key already present keeps its
   * position and gets the new tokens; a new key goes last.
   */
  function Insert(ix: SymptomIndex, name: string, tokens: seq<string>): (r: SymptomIndex)
    requires ix.Valid()
    ensures r.Valid()
    ensures name in r.entries && r.entries[name] == tokens
    ensures forall k :: k in ix.entries && k != name ==> k in r.entries && r.entries[k] == ix.entries[k]
    ensures name in ix.entries ==> r.keys == ix.keys
    ensures name !in ix.entries ==> r.keys == ix.keys + [name]
  {
    SymptomIndex(if name in ix.entries then ix.keys else ix.keys + [name], ix.entries[name := tokens])
  }

  /** The dict that results from performing the assignments `es` in order on an empty dict. */
  function IndexOf(es: seq<Entry>): (ix: SymptomIndex)
    ensures ix.Valid()
  {
    if es == [] then SymptomIndex([], map[])
    else
      var last := es[|es| - 1];
      Insert(IndexOf(es[..|es| - 1]), last.name, last.tokens)
  }

  /** The dict `disease_symptoms` built from the catalog `ds`. */
  function CatalogIndex(nlp: Toolkit, ds: seq<DiseaseRecord>): (ix: SymptomIndex)
    ensures ix.Valid()
  {
    IndexOf(Entries(nlp, ds))
  }

  /** The score of the `k`-th key of the dict. */
  ghost function ScoreAt(tokens: seq<string>, ix: SymptomIndex, k: int): nat
    requires ix.Valid() && 0 <= k < |ix.keys|
  {
    assert ix.keys[k] in ix.keys;
    Score(tokens, ix.entries[ix.keys[k]])
  }

  /**
   * Key `i` wins: its score is positive, no key scores more, and every
   * earlier key scores strictly less.
   */
  ghost predicate IsFirstMaximum(tokens: seq<string>, ix: SymptomIndex, i: int)
    requires ix.Valid() && 0 <= i < |ix.keys|
  {
    && ScoreAt(tokens, ix, i) > 0
    && (forall j :: 0 <= j < |ix.keys| ==> ScoreAt(tokens, ix, j) <= ScoreAt(tokens, ix, i))
    && (forall j :: 0 <= j < i ==> ScoreAt(tokens, ix, j) < ScoreAt(tokens, ix, i))
  }

  /** What the matcher may return for patient tokens `tokens` and dict `ix`. */
  ghost predicate IsBestMatch(tokens: seq<string>, ix: SymptomIndex, best: Option<string>)
    requires ix.Valid()
  {
    match best
    case None => forall k :: 0 <= k < |ix.keys| ==> ScoreAt(tokens, ix, k) == 0
    case Some(name) => exists i :: 0 <= i < |ix.keys| && ix.keys[i] == name && IsFirstMaximum(tokens, ix, i)
  }

  /** `get_disease_from_symptoms(symptoms, diseases)` */
  method GetDiseaseFromSymptoms(nlp: Toolkit, symptoms: string, diseases: seq<DiseaseRecord>)
    returns (best: Option<string>)
    ensures IsBestMatch(PreprocessSymptoms(nlp, symptoms), CatalogIndex(nlp, diseases), best)
    ensures best.None? <==>
              var ix := CatalogIndex(nlp, diseases);
              forall k :: 0 <= k < |ix.keys| ==> ScoreAt(PreprocessSymptoms(nlp, symptoms), ix, k) == 0
    ensures best.Some? ==> exists i :: 0 <= i < |diseases| && diseases[i].name == best.value
    ensures diseases == [] ==> best == None
  {
    var tokens := PreprocessSymptoms(nlp, symptoms);
    var diseaseSymptoms := BuildSymptomIndex(nlp, diseases);
    best := BestScoring(tokens, diseaseSymptoms);
    if best.Some? {
      ghost var i :| 0 <= i < |diseaseSymptoms.keys| && diseaseSymptoms.keys[i] == best.value
               && IsFirstMaximum(tokens, diseaseSymptoms, i);
      assert best.value in diseaseSymptoms.keys;
      CatalogKeyIsDiseaseName(nlp, diseases, best.value);
    }
  }

  /** The first loop of the matcher: fill `disease_symptoms` in catalog order. */
  method BuildSymptomIndex(nlp: Toolkit, diseases: seq<DiseaseRecord>) returns (diseaseSymptoms: SymptomIndex)
    ensures diseaseSymptoms == CatalogIndex(nlp, diseases)
  {
    ghost var es := Entries(nlp, diseases);
    diseaseSymptoms := SymptomIndex([], map[]);
    for i := 0 to |diseases|
      invariant diseaseSymptoms == IndexOf(es[..i])
    {
      var disease := diseases[i];
      var processedSymptoms := RecordTokens(nlp, disease);
      assert es[..i + 1][..i] == es[..i] && es[i] == Entry(disease.name, processedSymptoms);
      diseaseSymptoms := Insert(diseaseSymptoms, disease.name, processedSymptoms);
    }
    assert es[..|diseases|] == es;
  }

  /**
   * The second loop of the matcher: walk the dict in order, replacing the
   * best candidate only on a strictly greater score, starting from 0.
   */
  method BestScoring(tokens: seq<string>, ix: SymptomIndex) returns (best: Option<string>)
    requires ix.Valid()
    ensures IsBestMatch(tokens, ix, best)
  {
    var maxMatches := 0;
    best := None;
    ghost var bestAt := 0;
    for k := 0 to |ix.keys|
      invariant best.None? <==> maxMatches == 0
      invariant best.None? ==> forall j :: 0 <= j < k ==> ScoreAt(tokens, ix, j) == 0
      invariant best.Some? ==>
                  && 0 <= bestAt < k && ix.keys[bestAt] == best.value
                  && maxMatches == ScoreAt(tokens, ix, bestAt)
                  && (forall j :: 0 <= j < k ==> ScoreAt(tokens, ix, j) <= maxMatches)
                  && (forall j :: 0 <= j < bestAt ==> ScoreAt(tokens, ix, j) < maxMatches)
    {
      var disease := ix.keys[k];
      assert disease in ix.keys;
      var matches := Score(tokens, ix.entries[disease]);
      assert matches == ScoreAt(tokens, ix, k);
      if matches > maxMatches {
        maxMatches := matches;
        best := Some(disease);
        bestAt := k;
      }
    }
    if best.Some? {
      assert IsFirstMaximum(tokens, ix, bestAt);
    }
  }

  // ----- the patient score -----

  lemma {:induction false} ScoreAppend(a: seq<string>, b: seq<string>, symptoms: seq<string>)
    ensures Score(a + b, symptoms) == Score(a, symptoms) + Score(b, symptoms)
  {
    if a != [] {
      assert (a + b)[0] == a[0] && (a + b)[1..] == a[1..] + b;
      ScoreAppend(a[1..], b, symptoms);
    } else {
      assert a + b == b;
    }
  }

  /** A score is zero exactly when no patient token is among the symptoms. */
  lemma {:induction false} ScoreZeroIff(tokens: seq<string>, symptoms: seq<string>)
    ensures Score(tokens, symptoms) == 0 <==> forall i :: 0 <= i < |tokens| ==> tokens[i] !in symptoms
  {
    if tokens != [] {
      ScoreZeroIff(tokens[1..], symptoms);
      assert forall i :: 1 <= i < |tokens| ==> tokens[i] == tokens[1..][i - 1];
    }
  }

  /** A score is the full token count exactly when every patient token is among the symptoms. */
  lemma {:induction false} ScoreFullIff(tokens: seq<string>, symptoms: seq<string>)
    ensures Score(tokens, symptoms) == |tokens| <==> forall i :: 0 <= i < |tokens| ==> tokens[i] in symptoms
  {
    if tokens != [] {
      ScoreFullIff(tokens[1..], symptoms);
      assert forall i :: 1 <= i < |tokens| ==> tokens[i] == tokens[1..][i - 1];
    }
  }

  /**
   * Adding symptom tokens to a disease never lowers its score, and raises it
   * when a patient token is among the added ones but not the old ones.
   */
  lemma {:induction false} ScoreMonotone(tokens: seq<string>, symptoms: seq<string>, extra: seq<string>)
    ensures Score(tokens, symptoms) <= Score(tokens, symptoms + extra)
    ensures (exists i :: 0 <= i < |tokens| && tokens[i] in extra && tokens[i] !in symptoms) ==>
              Score(tokens, symptoms) < Score(tokens, symptoms + extra)
  {
    if tokens != [] {
      ScoreMonotone(tokens[1..], symptoms, extra);
      assert forall i :: 1 <= i < |tokens| ==> tokens[i] == tokens[1..][i - 1];
    }
  }

  // ----- the dict built from the catalog -----

  /** A name is a key of the dict exactly when some assignment is for it. */
  lemma {:induction false} IndexKeyIsAssigned(es: seq<Entry>, name: string)
    ensures name in IndexOf(es).keys <==> exists j :: 0 <= j < |es| && es[j].name == name
  {
    if es != [] {
      var n := |es| - 1;
      var init := es[..n];
      var ix, ix' := IndexOf(es), IndexOf(init);
      assert name in ix.keys <==> name in ix'.keys || name == es[n].name;
      IndexKeyIsAssigned(init, name);
      if name in ix'.keys {
        var j :| 0 <= j < |init| && init[j].name == name;
        assert es[j] == init[j];
      } else if name != es[n].name {
        forall j | 0 <= j < |es|
          ensures es[j].name != name
        {
          if j < n {
            assert es[j] == init[j];
          }
        }
      }
    }
  }

  /** A name's tokens are those of the LAST assignment to the name. */
  lemma {:induction false} IndexEntryIsLastAssignment(es: seq<Entry>, i: int)
    requires 0 <= i < |es|
    requires forall j :: i < j < |es| ==> es[j].name != es[i].name
    ensures es[i].name in IndexOf(es).entries
    ensures IndexOf(es).entries[es[i].name] == es[i].tokens
  {
    var n := |es| - 1;
    if i < n {
      var init := es[..n];
      assert init[i] == es[i];
      IndexEntryIsLastAssignment(init, i);
    }
  }

  /**
   * The dict's keys are in order of first assignment: every assignment to
   * the `q`-th key is preceded by an assignment to the `p`-th key, p < q.
   */
  lemma {:induction false} IndexKeysInFirstOccurrenceOrder(es: seq<Entry>, p: int, q: int, j: int)
    requires 0 <= p < q < |IndexOf(es).keys|
    requires 0 <= j < |es| && es[j].name == IndexOf(es).keys[q]
    ensures exists i :: 0 <= i < j && es[i].name == IndexOf(es).keys[p]
    decreases |es|, 1
  {
    var n := |es| - 1;
    if es[n].name in IndexOf(es[..n]).entries {
      FirstOccurrenceOrderRepeatedLast(es, p, q, j);
    } else {
      FirstOccurrenceOrderNewLast(es, p, q, j);
    }
  }

  /** IndexKeysInFirstOccurrenceOrder when the last assignment repeats an earlier name. */
  lemma {:induction false} FirstOccurrenceOrderRepeatedLast(es: seq<Entry>, p: int, q: int, j: int)
    requires 0 <= p < q < |IndexOf(es).keys|
    requires 0 <= j < |es| && es[j].name == IndexOf(es).keys[q]
    requires es[|es| - 1].name in IndexOf(es[..|es| - 1]).entries
    ensures exists i :: 0 <= i < j && es[i].name == IndexOf(es).keys[p]
    decreases |es|, 0
  {
    var n := |es| - 1;
    var init := es[..n];
    var ix, ix' := IndexOf(es), IndexOf(init);
    var name := es[n].name;
    assert ix.keys == ix'.keys;
    var j' := j;
    if j == n {
      IndexKeyIsAssigned(init, name);
      j' :| 0 <= j' < n && init[j'].name == name;
    }
    assert init[j'] == es[j'];
    IndexKeysInFirstOccurrenceOrder(init, p, q, j');
    var i :| 0 <= i < j' && init[i].name == ix'.keys[p];
    assert es[i] == init[i];
  }

  /** IndexKeysInFirstOccurrenceOrder when the last assignment brings a new name. */
  lemma {:induction false} FirstOccurrenceOrderNewLast(es: seq<Entry>, p: int, q: int, j: int)
    requires 0 <= p < q < |IndexOf(es).keys|
    requires 0 <= j < |es| && es[j].name == IndexOf(es).keys[q]
    requires es[|es| - 1].name !in IndexOf(es[..|es| - 1]).entries
    ensures exists i :: 0 <= i < j && es[i].name == IndexOf(es).keys[p]
    decreases |es|, 0
  {
    var n := |es| - 1;
    var init := es[..n];
    var ix, ix' := IndexOf(es), IndexOf(init);
    assert ix.keys == ix'.keys + [es[n].name];
    assert ix.keys[p] == ix'.keys[p];
    if q == |ix'.keys| {
      NewKeyComesLast(es, p, j);
    } else {
      assert ix.keys[q] == ix'.keys[q] && ix'.keys[q] in ix'.keys;
      assert ix'.keys[q] in ix'.entries;
      assert j != n;
      assert init[j] == es[j];
      IndexKeysInFirstOccurrenceOrder(init, p, q, j);
      var i :| 0 <= i < j && init[i].name == ix'.keys[p];
      assert es[i] == init[i];
      assert 0 <= i < j && es[i].name == ix.keys[p];
    }
  }

  /** A name first met in the last assignment occurs nowhere else, so every key before it occurs earlier. */
  lemma NewKeyComesLast(es: seq<Entry>, p: int, j: int)
    requires es != []
    requires es[|es| - 1].name !in IndexOf(es[..|es| - 1]).entries
    requires 0 <= p < |IndexOf(es[..|es| - 1]).keys|
    requires 0 <= j < |es| && es[j].name == es[|es| - 1].name
    ensures exists i :: 0 <= i < j && es[i].name == IndexOf(es[..|es| - 1]).keys[p]
  {
    var n := |es| - 1;
    var init := es[..n];
    var ix' := IndexOf(init);
    var name := es[n].name;
    IndexKeyIsAssigned(init, name);
    forall k | 0 <= k < n
      ensures es[k].name != name
    {
      assert init[k] == es[k];
    }
    assert j == n;
    assert ix'.keys[p] in ix'.keys;
    IndexKeyIsAssigned(init, ix'.keys[p]);
    var i :| 0 <= i < n && init[i].name == ix'.keys[p];
    assert es[i] == init[i];
  }

  // ----- the same facts stated on the disease catalog -----

  lemma EntriesAt(nlp: Toolkit, ds: seq<DiseaseRecord>, i: int)
    requires 0 <= i < |ds|
    ensures Entries(nlp, ds)[i].name == ds[i].name
    ensures Entries(nlp, ds)[i].tokens == RecordTokens(nlp, ds[i])
  {
  }

  /** A name is a key of `disease_symptoms` exactly when some catalog record carries it. */
  lemma CatalogKeyIsDiseaseName(nlp: Toolkit, ds: seq<DiseaseRecord>, name: string)
    ensures name in CatalogIndex(nlp, ds).keys <==> exists j :: 0 <= j < |ds| && ds[j].name == name
  {
    var es := Entries(nlp, ds);
    IndexKeyIsAssigned(es, name);
    if exists j :: 0 <= j < |ds| && ds[j].name == name {
      var j :| 0 <= j < |ds| && ds[j].name == name;
      EntriesAt(nlp, ds, j);
    }
  }

  /** When several records share a name, the last of them supplies the name's tokens. */
  lemma CatalogEntryIsLastRecord(nlp: Toolkit, ds: seq<DiseaseRecord>, i: int)
    requires 0 <= i < |ds|
    requires forall j :: i < j < |ds| ==> ds[j].name != ds[i].name
    ensures ds[i].name in CatalogIndex(nlp, ds).entries
    ensures CatalogIndex(nlp, ds).entries[ds[i].name] == RecordTokens(nlp, ds[i])
  {
    IndexEntryIsLastAssignment(Entries(nlp, ds), i);
  }

  /**
   * The keys of `disease_symptoms` are in catalog order of first occurrence:
   * every record bearing the `q`-th key comes after some record bearing the
   * `p`-th key, for p < q.
   */
  lemma CatalogKeysInFirstOccurrenceOrder(nlp: Toolkit, ds: seq<DiseaseRecord>, p: int, q: int, j: int)
    requires 0 <= p < q < |CatalogIndex(nlp, ds).keys|
    requires 0 <= j < |ds| && ds[j].name == CatalogIndex(nlp, ds).keys[q]
    ensures exists i :: 0 <= i < j && ds[i].name == CatalogIndex(nlp, ds).keys[p]
  {
    var es := Entries(nlp, ds);
    IndexKeysInFirstOccurrenceOrder(es, p, q, j);
    var i :| 0 <= i < j && es[i].name == IndexOf(es).keys[p];
    EntriesAt(nlp, ds, i);
  }

  // ----- the result -----

  /**
   * Giving the winning disease more symptom tokens keeps it the winner:
   * raising a disease's score never worsens its chance of being selected.
   */
  lemma WinnerStaysWinner(tokens: seq<string>, ix: SymptomIndex, d: string, extra: seq<string>)
    requires ix.Valid() && IsBestMatch(tokens, ix, Some(d))
    ensures d in ix.entries
    ensures var grown := SymptomIndex(ix.keys, ix.entries[d := ix.entries[d] + extra]);
            grown.Valid() && IsBestMatch(tokens, grown, Some(d))
  {
    var i :| 0 <= i < |ix.keys| && ix.keys[i] == d && IsFirstMaximum(tokens, ix, i);
    assert d in ix.keys;
    var grown := SymptomIndex(ix.keys, ix.entries[d := ix.entries[d] + extra]);
    assert grown.Valid();
    ScoreMonotone(tokens, ix.entries[d], extra);
    assert ScoreAt(tokens, grown, i) >= ScoreAt(tokens, ix, i);
    forall j | 0 <= j < |ix.keys| && j != i
      ensures ScoreAt(tokens, grown, j) == ScoreAt(tokens, ix, j)
    {
      assert ix.keys[j] != d;
    }
    assert IsFirstMaximum(tokens, grown, i);
  }

  /** The matcher's postcondition determines its result: matching is deterministic. */
  lemma BestMatchUnique(tokens: seq<string>, ix: SymptomIndex, a: Option<string>, b: Option<string>)
    requires ix.Valid()
    requires IsBestMatch(tokens, ix, a) && IsBestMatch(tokens, ix, b)
    ensures a == b
  {
    if a.Some? && b.Some? {
      var i :| 0 <= i < |ix.keys| && ix.keys[i] == a.value && IsFirstMaximum(tokens, ix, i);
      var i' :| 0 <= i' < |ix.keys| && ix.keys[i'] == b.value && IsFirstMaximum(tokens, ix, i');
    }
  }
}

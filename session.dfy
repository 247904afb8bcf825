/**
 * The conversation history of expert.py's `main` and one pass of its
 * `while True` loop: read a line, ignore it when it is blank, otherwise
 * record it, print the diagnosis, and record the model's streamed reply.
 */
module Session {
  import opened Wrappers
  import opened Normaliser
  import opened Matcher
  import opened Medication

  datatype Role = System | User | Assistant

  /** `{"role": ..., "content": ...}` */
  datatype Message = Message(role: Role, content: string)

  const Greeting := "Hi! I'm a medical assistant, my name is Expert. How do you feel?"

  /** The characters Python's `str.strip()` removes (those for which `str.isspace()` holds). */
  predicate IsSpace(c: char) {
    || c == ' ' || c == '\t' || c == '\n' || c == '\r' || c == '\U{0B}' || c == '\U{0C}'
    || ('\U{1C}' <= c <= '\U{1F}') || c == '\U{85}' || c == '\U{A0}' || c == '\U{1680}'
    || ('\U{2000}' <= c <= '\U{200A}') || c == '\U{2028}' || c == '\U{2029}'
    || c == '\U{202F}' || c == '\U{205F}' || c == '\U{3000}'
  }

  /** The input holds whitespace only (or nothing). */
  predicate IsBlank(s: string) {
    forall i :: 0 <= i < |s| ==> IsSpace(s[i])
  }

  /** Drop leading whitespace. */
  function TrimStart(s: string): (r: string)
    ensures |r| <= |s| && r == s[|s| - |r|..]
    ensures r == [] || !IsSpace(r[0])
    ensures forall i :: 0 <= i < |s| - |r| ==> IsSpace(s[i])
  {
    if s != [] && IsSpace(s[0]) then TrimStart(s[1..]) else s
  }

  /** Drop trailing whitespace. */
  function TrimEnd(s: string): (r: string)
    ensures |r| <= |s| && r == s[..|r|]
    ensures r == [] || !IsSpace(r[|r| - 1])
    ensures forall i :: |r| <= i < |s| ==> IsSpace(s[i])
  {
    if s != [] && IsSpace(s[|s| - 1]) then TrimEnd(s[..|s| - 1]) else s
  }

  /** `s.strip()` */
  function Strip(s: string): string
  {
    TrimEnd(TrimStart(s))
  }

  /** `not s.strip()` holds exactly for blank input. */
  lemma StripEmptyIffBlank(s: string)
    ensures Strip(s) == [] <==> IsBlank(s)
  {
    var t := TrimStart(s);
    assert |t| > 0 ==> t[0] == s[|s| - |t|];
    if !IsBlank(s) {
      var k :| 0 <= k < |s| && !IsSpace(s[k]);
      assert k >= |s| - |t|;
      assert t[k - (|s| - |t|)] == s[k];
    }
  }

  /** `not s.strip()` */
  function StripsToEmpty(s: string): (empty: bool)
    ensures empty <==> IsBlank(s)
  {
    StripEmptyIffBlank(s);
    Strip(s) == []
  }

  /** `"".join(fragments)`, the fragments in arrival order. */
  function Concat(fragments: seq<string>): string
  {
    if fragments == [] then "" else fragments[0] + Concat(fragments[1..])
  }

  lemma {:induction false} ConcatAppend(a: seq<string>, b: seq<string>)
    ensures Concat(a + b) == Concat(a) + Concat(b)
  {
    if a == [] {
      assert a + b == b;
    } else {
      assert (a + b)[0] == a[0] && (a + b)[1..] == a[1..] + b;
      ConcatAppend(a[1..], b);
    }
  }

  /**
   * Fragment `i` sits in the reply right after the fragments that came
   * before it and right before those that came after.
   */
  lemma ConcatFragmentAt(fragments: seq<string>, i: int)
    requires 0 <= i < |fragments|
    ensures Concat(fragments) == Concat(fragments[..i]) + fragments[i] + Concat(fragments[i + 1..])
  {
    assert fragments == fragments[..i] + fragments[i..];
    ConcatAppend(fragments[..i], fragments[i..]);
    assert fragments[i..][1..] == fragments[i + 1..];
  }

  /** `for chunk in response: delta_content += chunk...content`, starting from `""`. */
  method ReadStream(fragments: seq<string>) returns (deltaContent: string)
    ensures deltaContent == Concat(fragments)
  {
    deltaContent := "";
    for i := 0 to |fragments|
      invariant deltaContent == Concat(fragments[..i])
    {
      ConcatAppend(fragments[..i], [fragments[i]]);
      assert fragments[..i + 1] == fragments[..i] + [fragments[i]];
      assert Concat([fragments[i]]) == fragments[i] + Concat([]);
      deltaContent := deltaContent + fragments[i];
    }
    assert fragments[..|fragments|] == fragments;
  }

  /** The diagnosis and medication lines of one turn. */
  method Diagnose(nlp: Toolkit, diseases: seq<DiseaseRecord>, medicines: MedicineCatalog, userSymptoms: string)
    returns (diagnosedDisease: Option<string>, lines: seq<string>)
    ensures IsBestMatch(PreprocessSymptoms(nlp, userSymptoms), CatalogIndex(nlp, diseases), diagnosedDisease)
    ensures lines == DiagnosisLines(diagnosedDisease, medicines)
  {
    diagnosedDisease := GetDiseaseFromSymptoms(nlp, userSymptoms, diseases);
    lines := DiagnosisLines(diagnosedDisease, medicines);
  }

  /** What one pass of the loop produced. */
  datatype TurnOutcome =
    | Reprompt                       // blank input: "Please enter a description of your symptoms."
    | Answered(diagnosis: Option<string>, lines: seq<string>, reply: string)

  class Conversation {
    var messages: seq<Message>

    /** `messages = [{"role": "system", "content": greeting}]` */
    constructor ()
      ensures messages == [Message(System, Greeting)]
    {
      messages := [Message(System, Greeting)];
    }

    /**
     * One pass of the loop for the input line `userSymptoms`. `fragments`
     * stands for the chunks the chat backend streams back.
     */
    method Turn(nlp: Toolkit, diseases: seq<DiseaseRecord>, medicines: MedicineCatalog,
                userSymptoms: string, fragments: seq<string>)
      returns (outcome: TurnOutcome)
      modifies this
      ensures IsBlank(userSymptoms) ==> outcome == Reprompt && messages == old(messages)
      ensures !IsBlank(userSymptoms) ==>
                && outcome.Answered?
                && messages == old(messages) + [Message(User, userSymptoms), Message(Assistant, Concat(fragments))]
                && outcome.reply == Concat(fragments)
                && IsBestMatch(PreprocessSymptoms(nlp, userSymptoms), CatalogIndex(nlp, diseases), outcome.diagnosis)
                && outcome.lines == DiagnosisLines(outcome.diagnosis, medicines)
    {
      if StripsToEmpty(userSymptoms) {
        return Reprompt;
      }

      ghost var history := messages;
      messages := messages + [Message(User, userSymptoms)];

      var diagnosedDisease, lines := Diagnose(nlp, diseases, medicines, userSymptoms);

      var deltaContent := ReadStream(fragments);

      messages := messages + [Message(Assistant, deltaContent)];
      assert messages == history + [Message(User, userSymptoms), Message(Assistant, deltaContent)];
      outcome := Answered(diagnosedDisease, lines, deltaContent);
    }
  }
}

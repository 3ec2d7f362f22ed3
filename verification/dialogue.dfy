/**
 The dialogue simulator script: four pass/warn/fail predicates over the
 knowledge base (an object mapping theme keys to entries with "pergunta",
 "resposta" and "categoria") and the exit-code mapping of its main().
 A string method applied to a member that is present but not a string raises
 in the script; that aborts the run, which is modelled as a crash.
 */
module Dialogue {
  import opened Text
  import opened JsonTree

  datatype TestOutcome = Passed | Warned | Failed

  datatype GreetingCase = GreetingCase(input: string, expected: seq<string>)

  const GreetingCases: seq<GreetingCase> := [
    GreetingCase("Oi", ["oi", "olá", "bom dia", "boa tarde", "boa noite"]),
    GreetingCase("Olá", ["olá", "oi", "bem-vinda"]),
    GreetingCase("Bom dia", ["bom dia", "olá", "oi"])
  ]

  const MedicalMarkers: seq<string> := ["importante", "consulte", "médico"]

  /** value.get(key, "").lower(): the lower-cased text, "" when absent, and
      None when the member is present but not a string (lower() raises). */
  function LowerField(ms: seq<Member>, key: string): Option<string> {
    match Lookup(ms, key)
    case None => Some("")
    case Some(JStr(s)) => Some(ToLower(s))
    case Some(_) => None
  }

  /** Python truthiness of value.get(key). */
  predicate FieldTruthy(ms: seq<Member>, key: string) {
    var v := Lookup(ms, key);
    v.Some? && PyTruthy(v.value)
  }

  // ---------------------------------------------------------------------
  // Greeting flow

  /** Whether reading an entry's pergunta and resposta raises. */
  predicate GreetingEntryCrashes(m: Member) {
    m.value.JObj? && (LowerField(m.value.members, "pergunta").None? || LowerField(m.value.members, "resposta").None?)
  }

  /** An object-valued entry whose lower-cased pergunta or resposta contains
      one of the expected tokens. */
  predicate GreetingEntryMatches(m: Member, expected: seq<string>) {
    && m.value.JObj?
    && !GreetingEntryCrashes(m)
    && var p := LowerField(m.value.members, "pergunta").value;
       var r := LowerField(m.value.members, "resposta").value;
       exists e :: e in expected && (Contains(p, e) || Contains(r, e))
  }

  /** Some entry matches and no entry before it raises. */
  predicate MatchBeforeCrash(entries: seq<Member>, expected: seq<string>) {
    exists i :: 0 <= i < |entries| && GreetingEntryMatches(entries[i], expected) && NoCrashBefore(entries, i)
  }

  predicate NoCrashBefore(entries: seq<Member>, i: int)
    requires 0 <= i <= |entries|
  {
    forall j :: 0 <= j < i ==> !GreetingEntryCrashes(entries[j])
  }

  /** The scan of test_greeting_flow for one case, stopping at the first
      matching entry; None when an entry before any match raises. */
  function GreetingScan(entries: seq<Member>, expected: seq<string>): (r: Option<bool>)
    ensures r == Some(true) <==> MatchBeforeCrash(entries, expected)
    ensures r == Some(false) <==>
      forall i :: 0 <= i < |entries| ==> !GreetingEntryMatches(entries[i], expected) && !GreetingEntryCrashes(entries[i])
  {
    if |entries| == 0 then Some(false)
    else
      var rest := GreetingScan(entries[1..], expected);
      assert forall i :: 1 <= i < |entries| ==> entries[i] == entries[1..][i - 1];
      if GreetingEntryCrashes(entries[0]) then None
      else if GreetingEntryMatches(entries[0], expected) then
        assert NoCrashBefore(entries, 0);
        Some(true)
      else
        MatchBeforeCrashStep(entries, expected);
        rest
  }

  /** Past an entry that neither raises nor matches, a match before a crash
      exists exactly when it exists in the rest. */
  lemma MatchBeforeCrashStep(entries: seq<Member>, expected: seq<string>)
    requires |entries| > 0
    requires !GreetingEntryCrashes(entries[0]) && !GreetingEntryMatches(entries[0], expected)
    ensures MatchBeforeCrash(entries, expected) <==> MatchBeforeCrash(entries[1..], expected)
  {
    if MatchBeforeCrash(entries[1..], expected) {
      var i :| 0 <= i < |entries| - 1 && GreetingEntryMatches(entries[1..][i], expected)
        && NoCrashBefore(entries[1..], i);
      assert GreetingEntryMatches(entries[i + 1], expected);
      assert NoCrashBefore(entries, i + 1);
    }
    if MatchBeforeCrash(entries, expected) {
      var i :| 0 <= i < |entries| && GreetingEntryMatches(entries[i], expected) && NoCrashBefore(entries, i);
      assert i > 0;
      assert GreetingEntryMatches(entries[1..][i - 1], expected);
      assert NoCrashBefore(entries[1..], i - 1);
    }
  }

  /** One greeting case: passed when some entry answers it, a warning
      otherwise. The case's input text is never consulted. */
  function GreetingOutcome(c: GreetingCase, entries: seq<Member>): Option<TestOutcome> {
    match GreetingScan(entries, c.expected)
    case None => None
    case Some(found) => Some(if found then Passed else Warned)
  }

  lemma GreetingIgnoresInput(c: GreetingCase, input: string, entries: seq<Member>)
    ensures GreetingOutcome(c.(input := input), entries) == GreetingOutcome(c, entries)
  {
  }

  /** test_greeting_flow: the cases in order, each with its own outcome; the
      whole test raises as soon as one case's scan raises. */
  function GreetingFlow(cases: seq<GreetingCase>, entries: seq<Member>): (r: Option<seq<TestOutcome>>)
    ensures r.Some? ==> |r.value| == |cases|
    ensures r.None? <==> exists i :: 0 <= i < |cases| && GreetingOutcome(cases[i], entries).None?
    ensures r.Some? ==> forall i :: 0 <= i < |cases| ==> Some(r.value[i]) == GreetingOutcome(cases[i], entries)
  {
    if |cases| == 0 then Some([])
    else
      match GreetingOutcome(cases[0], entries)
      case None => None
      case Some(o) =>
        assert forall i :: 1 <= i < |cases| ==> cases[i] == cases[1..][i - 1];
        match GreetingFlow(cases[1..], entries)
        case None => None
        case Some(os) => Some([o] + os)
  }

  lemma {:induction false} GreetingFlowNeverFails(cases: seq<GreetingCase>, entries: seq<Member>)
    ensures GreetingFlow(cases, entries).Some? ==> Failed !in GreetingFlow(cases, entries).value
  {
    if |cases| > 0 {
      GreetingFlowNeverFails(cases[1..], entries);
    }
  }

  // ---------------------------------------------------------------------
  // Question flow

  predicate SomeTruthy(entries: seq<Member>, key: string) {
    exists i :: 0 <= i < |entries| && entries[i].value.JObj? && FieldTruthy(entries[i].value.members, key)
  }

  function AnyTruthy(entries: seq<Member>, key: string): (r: bool)
    ensures r <==> SomeTruthy(entries, key)
  {
    if |entries| == 0 then false
    else
      assert forall i :: 1 <= i < |entries| ==> entries[i] == entries[1..][i - 1];
      var here := entries[0].value.JObj? && FieldTruthy(entries[0].value.members, key);
      var rest := AnyTruthy(entries[1..], key);
      assert rest ==> SomeTruthy(entries, key) by {
        if rest {
          var i :| 0 <= i < |entries| - 1 && entries[1..][i].value.JObj? && FieldTruthy(entries[1..][i].value.members, key);
          assert entries[i + 1] == entries[1..][i];
        }
      }
      here || rest
  }

  /** test_question_flow: passes when some entry has a truthy pergunta and
      some, possibly different, entry has a truthy resposta; fails otherwise. */
  function QuestionFlow(entries: seq<Member>): (o: TestOutcome)
    ensures o == Passed <==> SomeTruthy(entries, "pergunta") && SomeTruthy(entries, "resposta")
    ensures o != Warned
  {
    if AnyTruthy(entries, "pergunta") && AnyTruthy(entries, "resposta") then Passed else Failed
  }

  // ---------------------------------------------------------------------
  // Context continuity

  const Food: string := "alimenta\U{00E7}\U{00E3}o"
  const Exercise: string := "exerc\U{00ED}cio"

  /** Reading an object entry's categoria or pergunta raises. */
  predicate TopicCrashes(m: Member) {
    m.value.JObj? && (LowerField(m.value.members, "categoria").None? || LowerField(m.value.members, "pergunta").None?)
  }

  /** An object entry whose lower-cased categoria or pergunta mentions topic. */
  predicate MentionsTopic(m: Member, topic: string) {
    && m.value.JObj?
    && !TopicCrashes(m)
    && (Contains(LowerField(m.value.members, "categoria").value, topic)
        || Contains(LowerField(m.value.members, "pergunta").value, topic))
  }

  /** The number of times an entry's key is appended: once per topic
      (alimentação, exercício) found in its categoria or pergunta; None when
      reading them raises. */
  function TopicHits(m: Member): (r: Option<nat>)
    ensures r.Some? ==> r.value <= 2
    ensures r.None? <==> TopicCrashes(m)
    ensures r.Some? ==> r.value == (if MentionsTopic(m, Food) then 1 else 0) + (if MentionsTopic(m, Exercise) then 1 else 0)
  {
    if !m.value.JObj? then Some(0)
    else
      match LowerField(m.value.members, "categoria")
      case None => None
      case Some(cat) =>
        match LowerField(m.value.members, "pergunta")
        case None => None
        case Some(perg) =>
          Some((if Contains(cat, Food) || Contains(perg, Food) then 1 else 0)
             + (if Contains(cat, Exercise) || Contains(perg, Exercise) then 1 else 0))
  }

  /** The topic mentions of all entries, an entry raising counting none. */
  function TotalHits(entries: seq<Member>): (n: nat)
    ensures n <= 2 * |entries|
  {
    if |entries| == 0 then 0 else TopicHits(entries[0]).GetOr(0) + TotalHits(entries[1..])
  }

  /** related_categories of test_context_continuity: as many keys as topic
      mentions, each the key of an entry; None as soon as an entry raises. */
  function RelatedKeys(entries: seq<Member>): (r: Option<seq<string>>)
    ensures r.Some? ==> |r.value| <= 2 * |entries|
    ensures r.Some? ==> forall k :: k in r.value ==> exists i :: 0 <= i < |entries| && entries[i].key == k
    ensures r.None? <==> exists i :: 0 <= i < |entries| && TopicCrashes(entries[i])
    ensures r.Some? ==> |r.value| == TotalHits(entries)
  {
    if |entries| == 0 then Some([])
    else
      assert forall i :: 1 <= i < |entries| ==> entries[i] == entries[1..][i - 1];
      match TopicHits(entries[0])
      case None => None
      case Some(h) =>
        match RelatedKeys(entries[1..])
        case None => None
        case Some(ks) =>
          assert forall k :: k in ks ==> exists i :: 0 <= i < |entries| && entries[i].key == k by {
            forall k | k in ks ensures exists i :: 0 <= i < |entries| && entries[i].key == k {
              var i :| 0 <= i < |entries| - 1 && entries[1..][i].key == k;
              assert entries[i + 1].key == k;
            }
          }
          Some(seq(h, _ => entries[0].key) + ks)
  }

  /** test_context_continuity: raises when an entry does; otherwise passes
      exactly when the topics are mentioned at least twice in all. */
  function ContextContinuity(entries: seq<Member>): (r: Option<TestOutcome>)
    ensures r.None? <==> exists i :: 0 <= i < |entries| && TopicCrashes(entries[i])
    ensures r == Some(Passed) <==> r.Some? && TotalHits(entries) >= 2
    ensures r.Some? ==> r.value != Failed
  {
    match RelatedKeys(entries)
    case None => None
    case Some(ks) => Some(if |ks| >= 2 then Passed else Warned)
  }

  /** A single entry mentioning both topics is appended twice, which is
      enough for the test to pass on its own. */
  lemma SingleEntryKeys(m: Member, h: nat)
    requires TopicHits(m) == Some(h)
    ensures RelatedKeys([m]) == Some(seq(h, _ => m.key))
  {
    assert [m][1..] == [];
    assert RelatedKeys([m][1..]) == Some([]);
    assert seq(h, _ => m.key) + [] == seq(h, _ => m.key);
  }

  lemma BothTopicsCountTwice(m: Member)
    requires TopicHits(m) == Some(2)
    ensures RelatedKeys([m]) == Some([m.key, m.key])
    ensures ContextContinuity([m]) == Some(Passed)
  {
    SingleEntryKeys(m, 2);
    assert seq(2, _ => m.key) == [m.key, m.key];
  }

  // ---------------------------------------------------------------------
  // Medical warnings

  predicate MedicalEntryCrashes(m: Member) {
    m.value.JObj? && LowerField(m.value.members, "resposta").None?
  }

  predicate MedicalEntryMatches(m: Member) {
    && m.value.JObj?
    && LowerField(m.value.members, "resposta").Some?
    && ContainsAny(LowerField(m.value.members, "resposta").value, MedicalMarkers)
  }

  /** Some answer carries a warning and no entry before it raises. */
  predicate MedicalBeforeCrash(entries: seq<Member>) {
    exists i :: 0 <= i < |entries| && MedicalEntryMatches(entries[i]) && NoMedicalCrashBefore(entries, i)
  }

  predicate NoMedicalCrashBefore(entries: seq<Member>, i: int)
    requires 0 <= i <= |entries|
  {
    forall j :: 0 <= j < i ==> !MedicalEntryCrashes(entries[j])
  }

  /** Past an entry that neither raises nor matches, a warning before a
      crash exists exactly when it exists in the rest. */
  lemma MedicalBeforeCrashStep(entries: seq<Member>)
    requires |entries| > 0
    requires !MedicalEntryCrashes(entries[0]) && !MedicalEntryMatches(entries[0])
    ensures MedicalBeforeCrash(entries) <==> MedicalBeforeCrash(entries[1..])
  {
    if MedicalBeforeCrash(entries[1..]) {
      var i :| 0 <= i < |entries| - 1 && MedicalEntryMatches(entries[1..][i]) && NoMedicalCrashBefore(entries[1..], i);
      assert MedicalEntryMatches(entries[i + 1]);
      assert NoMedicalCrashBefore(entries, i + 1);
    }
    if MedicalBeforeCrash(entries) {
      var i :| 0 <= i < |entries| && MedicalEntryMatches(entries[i]) && NoMedicalCrashBefore(entries, i);
      assert i > 0;
      assert MedicalEntryMatches(entries[1..][i - 1]);
      assert NoMedicalCrashBefore(entries[1..], i - 1);
    }
  }

  /** The scan of test_medical_warnings, stopping at the first resposta that
      mentions importante, consulte or médico. */
  function MedicalScan(entries: seq<Member>): (r: Option<bool>)
    ensures r == Some(true) ==> exists i :: 0 <= i < |entries| && MedicalEntryMatches(entries[i])
    ensures r == Some(true) <==> MedicalBeforeCrash(entries)
    ensures r == Some(false) <==>
      forall i :: 0 <= i < |entries| ==> !MedicalEntryMatches(entries[i]) && !MedicalEntryCrashes(entries[i])
  {
    if |entries| == 0 then Some(false)
    else
      assert forall i :: 1 <= i < |entries| ==> entries[i] == entries[1..][i - 1];
      if MedicalEntryCrashes(entries[0]) then None
      else if MedicalEntryMatches(entries[0]) then
        assert NoMedicalCrashBefore(entries, 0);
        Some(true)
      else
        var rest := MedicalScan(entries[1..]);
        MedicalBeforeCrashStep(entries);
        assert rest == Some(true) ==> exists i :: 0 <= i < |entries| && MedicalEntryMatches(entries[i]) by {
          if rest == Some(true) {
            var i :| 0 <= i < |entries| - 1 && MedicalEntryMatches(entries[1..][i]);
            assert MedicalEntryMatches(entries[i + 1]);
          }
        }
        rest
  }

  function MedicalWarnings(entries: seq<Member>): Option<TestOutcome> {
    match MedicalScan(entries)
    case None => None
    case Some(found) => Some(if found then Passed else Warned)
  }

  // ---------------------------------------------------------------------
  // The whole run

  /** The knowledge-base file: absent, present but not loadable (unreadable
      or not JSON, so json.load raises), or parsed. */
  datatype KbFile = Absent | Unloadable | Loaded(data: Json)

  /** What load_base_knowledge returns: the parsed file, or {} when the file
      does not exist. A file json.load rejects raises, and a top-level value
      that is not an object makes base.items() raise. */
  function Entries(kb: KbFile): (r: Option<seq<Member>>)
    ensures kb.Absent? ==> r == Some([])
    ensures r.Some? && kb.Loaded? ==> kb.data == JObj(r.value)
    ensures r.None? <==> kb.Unloadable? || (kb.Loaded? && !kb.data.JObj?)
  {
    match kb
    case Absent => Some([])
    case Unloadable => None
    case Loaded(JObj(ms)) => Some(ms)
    case Loaded(_) => None
  }

  /** run_all_tests: the outcomes in test order (the greeting cases, then
      the question, context and medical tests), or None when the run
      raised. */
  function RunAll(kb: KbFile): (r: Option<seq<TestOutcome>>)
    ensures r.Some? ==> |r.value| == |GreetingCases| + 3
    ensures r.None? <==>
      || Entries(kb).None?
      || GreetingFlow(GreetingCases, Entries(kb).value).None?
      || ContextContinuity(Entries(kb).value).None?
      || MedicalWarnings(Entries(kb).value).None?
    ensures r.Some? ==>
      var entries := Entries(kb).value;
      var n := |GreetingCases|;
      && r.value[..n] == GreetingFlow(GreetingCases, entries).value
      && r.value[n] == QuestionFlow(entries)
      && r.value[n + 1] == ContextContinuity(entries).value
      && r.value[n + 2] == MedicalWarnings(entries).value
  {
    match Entries(kb)
    case None => None
    case Some(entries) =>
      match GreetingFlow(GreetingCases, entries)
      case None => None
      case Some(greet) =>
        var question := QuestionFlow(entries);
        match ContextContinuity(entries)
        case None => None
        case Some(context) =>
          match MedicalWarnings(entries)
          case None => None
          case Some(medical) => Some(greet + [question, context, medical])
  }

  /** main's exit status: 1 on any failure (or when the run raised, as an
      uncaught exception ends Python with status 1), else 2 on any warning,
      else 0. */
  function ExitCode(kb: KbFile): (code: int)
    ensures code in {0, 1, 2}
    ensures RunAll(kb).None? ==> code == 1
    ensures RunAll(kb).Some? ==>
      (code == 1 <==> Failed in RunAll(kb).value)
      && (code == 2 <==> Failed !in RunAll(kb).value && Warned in RunAll(kb).value)
  {
    match RunAll(kb)
    case None => 1
    case Some(outs) => if Failed in outs then 1 else if Warned in outs then 2 else 0
  }

  /** Only the question-flow test can fail: when the run completes, the exit
      status is 1 exactly when no entry has a pergunta or none has a
      resposta. */
  lemma FailureMeansIncompleteBase(kb: KbFile)
    requires RunAll(kb).Some?
    ensures ExitCode(kb) == 1 <==>
      !(SomeTruthy(Entries(kb).value, "pergunta") && SomeTruthy(Entries(kb).value, "resposta"))
  {
    var entries := Entries(kb).value;
    var greet := GreetingFlow(GreetingCases, entries).value;
    GreetingFlowNeverFails(GreetingCases, entries);
    var outs := RunAll(kb).value;
    assert outs == greet + [QuestionFlow(entries), ContextContinuity(entries).value, MedicalWarnings(entries).value];
  }

  /** A missing knowledge-base file is read as {}: the question flow fails
      and the script exits with 1. */
  lemma MissingBaseFails()
    ensures ExitCode(Absent) == 1
  {
    assert Entries(Absent) == Some([]);
    assert !SomeTruthy([], "pergunta");
    assert RunAll(Absent).Some?;
    FailureMeansIncompleteBase(Absent);
  }
}

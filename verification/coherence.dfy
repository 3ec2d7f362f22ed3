/**
 The coherence audit script: per-file dispatch by suffix with counters, the
 forbidden-word rule for JSON data files (judged in a window around the first
 occurrence), the key-schema check chosen by file name, the welcome-message
 consistency check, and the report verdict with its exit code.
 */
module Coherence {
  import opened Text
  import opened JsonTree

  datatype Stats = Stats(filesChecked: nat, jsonFiles: nat, jsFiles: nat, htmlFiles: nat, cssFiles: nat)

  datatype Issue =
    | ForbiddenWord(file: string, word: string)
    | InvalidJson(file: string)
    | ProcessingError(file: string)
    | MissingKeys(file: string, keys: seq<string>)
    | MultipleWelcomeMessages(count: nat)
    | MessagesFileMissing
    | MessagesFileFound

  /** The three issue lists of the checker. */
  datatype Issues = Issues(critical: seq<Issue>, warning: seq<Issue>, info: seq<Issue>)

  /** Which per-type checker a file suffix is sent to. */
  datatype Checker = JsonChecker | JsChecker | HtmlChecker | CssChecker | PythonChecker | NoChecker

  const NoIssues := Issues([], [], [])

  // ---------------------------------------------------------------------
  // Dispatch and counters

  function Dispatch(suffix: string): Checker {
    if suffix == ".json" then JsonChecker
    else if suffix == ".js" then JsChecker
    else if suffix == ".html" then HtmlChecker
    else if suffix == ".css" then CssChecker
    else if suffix == ".py" then PythonChecker
    else NoChecker
  }

  function Counted(st: Stats): nat {
    st.jsonFiles + st.jsFiles + st.htmlFiles + st.cssFiles
  }

  /** check_file's counter updates: files_checked always grows by one, and
      exactly one of the four type counters grows for .json, .js, .html and
      .css; a .py or any other suffix touches none of them. */
  function CountFile(st: Stats, suffix: string): (r: Stats)
    ensures r.filesChecked == st.filesChecked + 1
    ensures r.jsonFiles == st.jsonFiles + (if suffix == ".json" then 1 else 0)
    ensures r.jsFiles == st.jsFiles + (if suffix == ".js" then 1 else 0)
    ensures r.htmlFiles == st.htmlFiles + (if suffix == ".html" then 1 else 0)
    ensures r.cssFiles == st.cssFiles + (if suffix == ".css" then 1 else 0)
  {
    var st' := st.(filesChecked := st.filesChecked + 1);
    match Dispatch(suffix)
    case JsonChecker => st'.(jsonFiles := st.jsonFiles + 1)
    case JsChecker => st'.(jsFiles := st.jsFiles + 1)
    case HtmlChecker => st'.(htmlFiles := st.htmlFiles + 1)
    case CssChecker => st'.(cssFiles := st.cssFiles + 1)
    case _ => st'
  }

  /** Counters after scanning files with the given suffixes, in order. */
  function ScanStats(suffixes: seq<string>): Stats
  {
    if |suffixes| == 0 then Stats(0, 0, 0, 0, 0)
    else CountFile(ScanStats(suffixes[..|suffixes| - 1]), suffixes[|suffixes| - 1])
  }

  /** After a scan, files_checked is the number of files seen, each type
      counter is the number of files with that suffix, and the type counters
      never add up to more than files_checked. */
  lemma {:induction false} ScanStatsCounts(suffixes: seq<string>)
    ensures ScanStats(suffixes).filesChecked == |suffixes|
    ensures ScanStats(suffixes).jsonFiles == multiset(suffixes)[".json"]
    ensures ScanStats(suffixes).jsFiles == multiset(suffixes)[".js"]
    ensures ScanStats(suffixes).htmlFiles == multiset(suffixes)[".html"]
    ensures ScanStats(suffixes).cssFiles == multiset(suffixes)[".css"]
    ensures Counted(ScanStats(suffixes)) <= ScanStats(suffixes).filesChecked
  {
    if |suffixes| > 0 {
      var init := suffixes[..|suffixes| - 1];
      ScanStatsCounts(init);
      assert suffixes == init + [suffixes[|suffixes| - 1]];
      assert multiset(suffixes) == multiset(init) + multiset{suffixes[|suffixes| - 1]};
    }
  }

  // ---------------------------------------------------------------------
  // Forbidden words in JSON files

  const ForbiddenWords: seq<string> := [
    "prescreva", "prescrever", "prescrição",
    "remédio", "medicamento", "medicação",
    "cura", "curar",
    "diagnóstico", "diagnosticar"
  ]

  const AllowedContexts: seq<string> := [
    "importante:", "aviso", "consulte", "profissional", "não substitui",
    "check_coherence", "validate_json", "simulate_dialogue"
  ]

  /** The text judged around position pos: up to 100 characters before it
      followed by up to 100 characters from it. */
  function Window(content: string, pos: nat): (w: string)
    requires pos <= |content|
    ensures |w| <= 200
    ensures w == content[Max(0, pos - 100)..Min(|content|, pos + 100)]
  {
    var before := content[Max(0, pos - 100)..pos];
    var after := content[pos..Min(|content|, pos + 100)];
    assert before + after == content[Max(0, pos - 100)..Min(|content|, pos + 100)];
    before + after
  }

  /** A forbidden word is flagged when it occurs and the window around its
      FIRST occurrence holds none of the allowed contexts. */
  predicate Flagged(contentLower: string, word: string) {
    match Find(contentLower, ToLower(word))
    case None => false
    case Some(pos) => !ContainsAny(Window(contentLower, pos), AllowedContexts)
  }

  /** The loop over forbidden words in check_json_file. */
  function ForbiddenWordIssues(file: string, contentLower: string, words: seq<string>): (r: seq<Issue>)
    ensures |r| <= |words|
    ensures forall w :: ForbiddenWord(file, w) in r <==> w in words && Flagged(contentLower, w)
    ensures forall x :: x in r ==> x.ForbiddenWord? && x.file == file
  {
    if |words| == 0 then []
    else
      (if Flagged(contentLower, words[0]) then [ForbiddenWord(file, words[0])] else [])
      + ForbiddenWordIssues(file, contentLower, words[1..])
  }

  /** Each forbidden word yields at most one critical issue, however often
      it occurs. */
  lemma {:induction false} AtMostOneIssuePerWord(file: string, contentLower: string, words: seq<string>, w: string)
    requires w in words
    ensures multiset(ForbiddenWordIssues(file, contentLower, words))[ForbiddenWord(file, w)]
            <= multiset(words)[w]
  {
    if |words| > 0 {
      assert words == [words[0]] + words[1..];
      if w in words[1..] {
        AtMostOneIssuePerWord(file, contentLower, words[1..], w);
      } else {
        assert ForbiddenWord(file, w) !in ForbiddenWordIssues(file, contentLower, words[1..]);
      }
    }
  }

  /** Only the first occurrence is judged: once an allowed context is near
      the first occurrence, any text may follow without the word being
      flagged. */
  lemma FirstOccurrenceDecides(contentLower: string, rest: string, word: string)
    requires Find(contentLower, ToLower(word)).Some?
    requires !Flagged(contentLower, word)
    requires Find(contentLower, ToLower(word)).value + 100 <= |contentLower|
    ensures !Flagged(contentLower + rest, word)
  {
    var w := ToLower(word);
    var pos := Find(contentLower, w).value;
    var s := contentLower + rest;
    assert w <= s[pos..] by {
      assert s[pos..pos + |w|] == contentLower[pos..pos + |w|];
    }
    ContainsAt(s, w, pos);
    var pos' := Find(s, w).value;
    forall j | 0 <= j < pos ensures !(w <= s[j..]) {
      assert !(w <= contentLower[j..]);
    }
    assert pos' == pos;
    assert Window(s, pos) == Window(contentLower, pos);
  }

  // ---------------------------------------------------------------------
  // Key schemas

  const ExpectedJsonKeys: seq<(string, seq<string>)> := [
    ("base_conhecimento", ["pergunta", "resposta", "categoria"]),
    ("guias_praticos", ["titulo", "descricao", "passos"]),
    ("mensagens_apoio", ["mensagem"]),
    ("cuidados_gestacao", ["trimestre", "titulo", "cuidados"]),
    ("cuidados_pos_parto", ["periodo", "titulo", "cuidados"])
  ]

  /** Index of the first schema, from k on, whose pattern occurs in stem. */
  function SelectSchemaFrom(stem: string, schemas: seq<(string, seq<string>)>, k: nat): (r: Option<nat>)
    requires k <= |schemas|
    ensures r.Some? ==> k <= r.value < |schemas| && Contains(stem, schemas[r.value].0)
    ensures r.Some? ==> forall j :: k <= j < r.value ==> !Contains(stem, schemas[j].0)
    ensures r.None? ==> forall j :: k <= j < |schemas| ==> !Contains(stem, schemas[j].0)
    decreases |schemas| - k
  {
    if k == |schemas| then None
    else if Contains(stem, schemas[k].0) then Some(k)
    else SelectSchemaFrom(stem, schemas, k + 1)
  }

  /** check_json_structure's choice: the expected-key list of the first
      pattern, in declaration order, that is a substring of the file stem. */
  function SelectSchema(stem: string): (r: Option<seq<string>>)
    ensures r.Some? <==> exists j :: 0 <= j < |ExpectedJsonKeys| && Contains(stem, ExpectedJsonKeys[j].0)
    ensures r.Some? ==>
              (exists j :: 0 <= j < |ExpectedJsonKeys| && Contains(stem, ExpectedJsonKeys[j].0)
                 && r.value == ExpectedJsonKeys[j].1
                 && (forall i :: 0 <= i < j ==> !Contains(stem, ExpectedJsonKeys[i].0)))
  {
    match SelectSchemaFrom(stem, ExpectedJsonKeys, 0)
    case None => None
    case Some(j) => Some(ExpectedJsonKeys[j].1)
  }

  /** The expected keys absent from an object, in expected-key order. */
  function AbsentKeys(item: seq<Member>, expected: seq<string>): (r: seq<string>)
    ensures |r| <= |expected|
    ensures forall k :: k in r <==> k in expected && !HasKey(item, k)
    ensures Subsequence(r, expected)
  {
    if |expected| == 0 then []
    else
      var rest := AbsentKeys(item, expected[1..]);
      if HasKey(item, expected[0]) then rest
      else
        assert ([expected[0]] + rest)[1..] == rest;
        [expected[0]] + rest
  }

  predicate HasObjectValue(ms: seq<Member>) {
    exists i :: 0 <= i < |ms| && ms[i].value.JObj?
  }

  /** How many members of ms have an object value. */
  function ObjectCount(ms: seq<Member>): (n: nat)
    ensures n <= |ms|
  {
    if |ms| == 0 then 0 else (if ms[0].value.JObj? then 1 else 0) + ObjectCount(ms[1..])
  }

  /** Object-valued members of ms, in order: the k-th entry holds the members
      of the k-th object-valued member, counted from 0. */
  function ObjectValues(ms: seq<Member>): (r: seq<seq<Member>>)
    ensures |r| <= |ms|
    ensures |r| == 0 <==> !HasObjectValue(ms)
    ensures |r| == ObjectCount(ms)
    ensures forall i :: 0 <= i < |ms| && ms[i].value.JObj? ==>
      ObjectCount(ms[..i]) < |r| && r[ObjectCount(ms[..i])] == ms[i].value.members
  {
    if |ms| == 0 then []
    else
      var rest := ObjectValues(ms[1..]);
      assert HasObjectValue(ms) <==> ms[0].value.JObj? || HasObjectValue(ms[1..]) by {
        if HasObjectValue(ms) {
          var i :| 0 <= i < |ms| && ms[i].value.JObj?;
          if i > 0 { assert ms[1..][i - 1].value.JObj?; }
        }
        if HasObjectValue(ms[1..]) {
          var i :| 0 <= i < |ms| - 1 && ms[1..][i].value.JObj?;
          assert ms[i + 1].value.JObj?;
        }
      }
      ObjectValuesCons(ms, rest);
      if ms[0].value.JObj? then [ms[0].value.members] + rest else rest
  }

  /** The object values of ms[1..], behind the first member's when it is an
      object, are placed as ObjectValues promises for ms. */
  lemma ObjectValuesCons(ms: seq<Member>, rest: seq<seq<Member>>)
    requires |ms| > 0 && |rest| == ObjectCount(ms[1..])
    requires forall i :: 0 <= i < |ms[1..]| && ms[1..][i].value.JObj? ==>
      ObjectCount(ms[1..][..i]) < |rest| && rest[ObjectCount(ms[1..][..i])] == ms[1..][i].value.members
    ensures var r := if ms[0].value.JObj? then [ms[0].value.members] + rest else rest;
      forall i :: 0 <= i < |ms| && ms[i].value.JObj? ==>
        ObjectCount(ms[..i]) < |r| && r[ObjectCount(ms[..i])] == ms[i].value.members
  {
    var r := if ms[0].value.JObj? then [ms[0].value.members] + rest else rest;
    var c := if ms[0].value.JObj? then 1 else 0;
    forall i | 0 <= i < |ms| && ms[i].value.JObj?
      ensures ObjectCount(ms[..i]) < |r| && r[ObjectCount(ms[..i])] == ms[i].value.members
    {
      if i == 0 {
        assert ms[..0] == [];
      } else {
        assert ms[..i][1..] == ms[1..][..i - 1];
        assert ObjectCount(ms[..i]) == c + ObjectCount(ms[1..][..i - 1]);
        assert ms[1..][i - 1] == ms[i];
      }
    }
  }

  /** The objects validate_keys checks: the object itself when none of its
      member values is an object, otherwise each object-valued member (other
      members are skipped); a top-level array or scalar is not checked. */
  function CheckedItems(data: Json): (r: seq<seq<Member>>)
    ensures !data.JObj? ==> r == []
    ensures data.JObj? && !HasObjectValue(data.members) ==> r == [data.members]
    ensures data.JObj? && HasObjectValue(data.members) ==> r == ObjectValues(data.members)
  {
    match data
    case JObj(ms) => if HasObjectValue(ms) then ObjectValues(ms) else [ms]
    case _ => []
  }

  /** How many of the objects lack some expected key. */
  function IncompleteCount(items: seq<seq<Member>>, expected: seq<string>): (n: nat)
    ensures n <= |items|
  {
    if |items| == 0 then 0
    else (if AbsentKeys(items[0], expected) != [] then 1 else 0) + IncompleteCount(items[1..], expected)
  }

  /** One warning per object that lacks expected keys, in the objects'
      order: the k-th warning is about the k-th incomplete object. */
  function MissingKeyWarnings(file: string, items: seq<seq<Member>>, expected: seq<string>): (r: seq<Issue>)
    ensures |r| <= |items|
    ensures forall x :: x in r ==> x.MissingKeys? && x.file == file && x.keys != []
    ensures forall i :: 0 <= i < |items| && AbsentKeys(items[i], expected) != [] ==>
              MissingKeys(file, AbsentKeys(items[i], expected)) in r
    ensures |r| == IncompleteCount(items, expected)
    ensures forall i :: 0 <= i < |items| && AbsentKeys(items[i], expected) != [] ==>
      IncompleteCount(items[..i], expected) < |r|
      && r[IncompleteCount(items[..i], expected)] == MissingKeys(file, AbsentKeys(items[i], expected))
  {
    if |items| == 0 then []
    else
      var m := AbsentKeys(items[0], expected);
      var rest := MissingKeyWarnings(file, items[1..], expected);
      assert forall i :: 1 <= i < |items| ==> items[i] == items[1..][i - 1];
      MissingKeyWarningsCons(file, items, expected, rest);
      (if m != [] then [MissingKeys(file, m)] else []) + rest
  }

  lemma MissingKeyWarningsCons(file: string, items: seq<seq<Member>>, expected: seq<string>, rest: seq<Issue>)
    requires |items| > 0 && |rest| == IncompleteCount(items[1..], expected)
    requires forall i :: 0 <= i < |items[1..]| && AbsentKeys(items[1..][i], expected) != [] ==>
      IncompleteCount(items[1..][..i], expected) < |rest|
      && rest[IncompleteCount(items[1..][..i], expected)] == MissingKeys(file, AbsentKeys(items[1..][i], expected))
    ensures var m := AbsentKeys(items[0], expected);
      var r := (if m != [] then [MissingKeys(file, m)] else []) + rest;
      forall i :: 0 <= i < |items| && AbsentKeys(items[i], expected) != [] ==>
        IncompleteCount(items[..i], expected) < |r|
        && r[IncompleteCount(items[..i], expected)] == MissingKeys(file, AbsentKeys(items[i], expected))
  {
    var m := AbsentKeys(items[0], expected);
    var r := (if m != [] then [MissingKeys(file, m)] else []) + rest;
    var c := if m != [] then 1 else 0;
    forall i | 0 <= i < |items| && AbsentKeys(items[i], expected) != []
      ensures IncompleteCount(items[..i], expected) < |r|
      ensures r[IncompleteCount(items[..i], expected)] == MissingKeys(file, AbsentKeys(items[i], expected))
    {
      if i == 0 {
        assert items[..0] == [];
      } else {
        assert items[..i][1..] == items[1..][..i - 1];
        assert IncompleteCount(items[..i], expected) == c + IncompleteCount(items[1..][..i - 1], expected);
        assert items[1..][i - 1] == items[i];
      }
    }
  }

  /** validate_keys: one warning per checked object with missing keys. */
  function ValidateKeys(file: string, data: Json, expected: seq<string>): seq<Issue> {
    MissingKeyWarnings(file, CheckedItems(data), expected)
  }

  /** An object without object-valued members is checked as a whole: it is
      warned about exactly when some expected key is absent, and the warning
      lists exactly the absent keys in expected-key order. */
  lemma FlatObjectCheckedWhole(file: string, ms: seq<Member>, expected: seq<string>)
    requires !HasObjectValue(ms)
    ensures ValidateKeys(file, JObj(ms), expected) ==
              if AbsentKeys(ms, expected) == [] then [] else [MissingKeys(file, AbsentKeys(ms, expected))]
  {
  }

  // ---------------------------------------------------------------------
  // check_json_file

  /** What opening a .json file and json.load produce. `dumped` is the text
      json.dumps(data, ensure_ascii=False) renders. */
  datatype JsonRead =
    | Loaded(data: Json, dumped: string)
    | BadJson
    | ReadFailure

  /** check_json_file: forbidden words become critical issues, the schema
      check adds warnings; malformed JSON is critical, other failures are
      warnings. */
  function CheckJsonFile(iss: Issues, file: string, stem: string, read: JsonRead): (r: Issues)
    ensures r.info == iss.info
    ensures iss.critical <= r.critical && iss.warning <= r.warning
    ensures read.BadJson? ==> r == iss.(critical := iss.critical + [InvalidJson(file)])
    ensures read.ReadFailure? ==> r == iss.(warning := iss.warning + [ProcessingError(file)])
    ensures read.Loaded? ==> |r.critical| <= |iss.critical| + |ForbiddenWords|
    ensures read.Loaded? ==>
      r.critical == iss.critical + ForbiddenWordIssues(file, ToLower(read.dumped), ForbiddenWords)
    ensures read.Loaded? && SelectSchema(stem).None? ==> r.warning == iss.warning
    ensures read.Loaded? && SelectSchema(stem).Some? ==>
      r.warning == iss.warning + ValidateKeys(file, read.data, SelectSchema(stem).value)
  {
    match read
    case BadJson => iss.(critical := iss.critical + [InvalidJson(file)])
    case ReadFailure => iss.(warning := iss.warning + [ProcessingError(file)])
    case Loaded(data, dumped) =>
      var crit := ForbiddenWordIssues(file, ToLower(dumped), ForbiddenWords);
      var warn := match SelectSchema(stem)
        case None => []
        case Some(keys) => ValidateKeys(file, data, keys);
      Issues(iss.critical + crit, iss.warning + warn, iss.info)
  }

  // ---------------------------------------------------------------------
  // Project-wide checks

  /** check_messages_centralization. */
  function CheckMessagesCentralization(iss: Issues, messagesFileExists: bool): (r: Issues)
    ensures r.critical == iss.critical
    ensures messagesFileExists ==> r.warning == iss.warning && |r.info| == |iss.info| + 1
    ensures !messagesFileExists ==> r.info == iss.info && |r.warning| == |iss.warning| + 1
  {
    if messagesFileExists then iss.(info := iss.info + [MessagesFileFound])
    else iss.(warning := iss.warning + [MessagesFileMissing])
  }

  /** check_consistency, given the number of "Bem-vinda" matches found in
      the page template. */
  function CheckConsistency(iss: Issues, welcomeMatches: nat): (r: Issues)
    ensures r.critical == iss.critical && r.info == iss.info
    ensures |r.warning| == |iss.warning| + 1 <==> welcomeMatches > 1
    ensures welcomeMatches <= 1 ==> r == iss
  {
    if welcomeMatches > 1 then iss.(warning := iss.warning + [MultipleWelcomeMessages(welcomeMatches)])
    else iss
  }

  // ---------------------------------------------------------------------
  // Verdict and exit code

  datatype Verdict = Total | Inconsistent | Critical

  /** The summary line of generate_report. */
  function ReportVerdict(iss: Issues): (v: Verdict)
    ensures v == Total <==> iss.critical == [] && iss.warning == []
    ensures v == Inconsistent <==> iss.critical == [] && iss.warning != []
    ensures v == Critical <==> iss.critical != []
  {
    if |iss.critical| == 0 && |iss.warning| == 0 then Total
    else if |iss.critical| == 0 then Inconsistent
    else Critical
  }

  /** main's exit code. */
  function ExitCode(iss: Issues): (code: int)
    ensures code == 1 <==> iss.critical != []
    ensures code == 2 <==> iss.critical == [] && iss.warning != []
    ensures code == 0 <==> iss.critical == [] && iss.warning == []
  {
    if iss.critical != [] then 1
    else if iss.warning != [] then 2
    else 0
  }

  /** The printed verdict and the exit code always agree, and informational
      entries never change either. */
  lemma VerdictMatchesExitCode(iss: Issues, info: seq<Issue>)
    ensures ReportVerdict(iss) == Total <==> ExitCode(iss) == 0
    ensures ReportVerdict(iss) == Inconsistent <==> ExitCode(iss) == 2
    ensures ReportVerdict(iss) == Critical <==> ExitCode(iss) == 1
    ensures ReportVerdict(iss.(info := info)) == ReportVerdict(iss)
    ensures ExitCode(iss.(info := info)) == ExitCode(iss)
  {
  }
}

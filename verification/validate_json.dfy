/**
 The JSON validation script: a shared validator that accumulates errors and
 warnings over a fixed list of data files, a structure check on the top-level
 value, and a recursive walk that warns about object members whose value is
 "" or null, labelling each with its path.
 */
module JsonValidator {
  import opened Text
  import opened JsonTree

  datatype Report =
    | StructureError(file: string)
    | DecodeError(file: string, detail: string)
    | ReadError(file: string, detail: string)
    | EmptyField(file: string, path: string)

  /** The validator object: both lists only ever grow. */
  datatype Validator = Validator(errors: seq<Report>, warnings: seq<Report>)

  /** What reading and json.load produce for one file. */
  datatype FileContent =
    | Parsed(data: Json)
    | Malformed(detail: string)
    | Unreadable(detail: string)

  // ---------------------------------------------------------------------
  // Paths

  /** Path of an object member: a root key stays bare, nested keys are
      joined with ".". */
  function MemberPath(path: string, key: string): string {
    if path != "" then path + "." + key else key
  }

  /** Path of an array element: the index in brackets, with no dot. */
  function ItemPath(path: string, i: nat): string {
    if path != "" then path + "[" + NatToString(i) + "]" else "[" + NatToString(i) + "]"
  }

  // ---------------------------------------------------------------------
  // The walk

  /** Paths the walk warns about, for the children of j from index i on. */
  function WalkFrom(j: Json, path: string, i: nat): seq<string>
    decreases j, if j.JObj? then |j.members| - i else if j.JArr? then |j.items| - i else 0
  {
    match j
    case JObj(ms) =>
      if i >= |ms| then []
      else
        var m := ms[i];
        var p := MemberPath(path, m.key);
        var here :=
          if IsBlank(m.value) then [p]
          else if IsContainer(m.value) then WalkFrom(m.value, p, 0)
          else [];
        here + WalkFrom(j, path, i + 1)
    case JArr(items) =>
      if i >= |items| then []
      else
        var here := if IsContainer(items[i]) then WalkFrom(items[i], ItemPath(path, i), 0) else [];
        here + WalkFrom(j, path, i + 1)
    case _ => []
  }

  /** check_empty_fields(data, path): the warning paths in document order. */
  function EmptyFieldPaths(j: Json, path: string): seq<string> {
    WalkFrom(j, path, 0)
  }

  // ---------------------------------------------------------------------
  // Reference: every object member reachable through containers

  /** Every object member reachable from the children of j (index i on),
      paired with its path, in document order, whatever its value. */
  function OccurrencesFrom(j: Json, path: string, i: nat): seq<(string, Json)>
    decreases j, if j.JObj? then |j.members| - i else if j.JArr? then |j.items| - i else 0
  {
    match j
    case JObj(ms) =>
      if i >= |ms| then []
      else
        var p := MemberPath(path, ms[i].key);
        [(p, ms[i].value)] + OccurrencesFrom(ms[i].value, p, 0) + OccurrencesFrom(j, path, i + 1)
    case JArr(items) =>
      if i >= |items| then []
      else OccurrencesFrom(items[i], ItemPath(path, i), 0) + OccurrencesFrom(j, path, i + 1)
    case _ => []
  }

  /** Paths of the occurrences whose value is "" or null, in order. */
  function BlankPaths(occ: seq<(string, Json)>): (r: seq<string>)
    ensures |r| <= |occ|
  {
    if |occ| == 0 then []
    else (if IsBlank(occ[0].1) then [occ[0].0] else []) + BlankPaths(occ[1..])
  }

  lemma BlankPathsAppend(a: seq<(string, Json)>, b: seq<(string, Json)>)
    ensures BlankPaths(a + b) == BlankPaths(a) + BlankPaths(b)
  {
    if |a| > 0 {
      assert (a + b)[1..] == a[1..] + b;
      BlankPathsAppend(a[1..], b);
    } else {
      assert a + b == b;
    }
  }

  lemma {:induction false} ScalarHasNoOccurrences(j: Json, path: string, i: nat)
    requires !IsContainer(j)
    ensures OccurrencesFrom(j, path, i) == []
  {
  }

  /** The walk warns exactly once per object member whose value is "" or
      null, reachable through nested objects and arrays, in document order
      and with that member's path; no other value is ever reported. */
  lemma {:induction false} WalkReportsBlankMembers(j: Json, path: string, i: nat)
    ensures WalkFrom(j, path, i) == BlankPaths(OccurrencesFrom(j, path, i))
    decreases j, if j.JObj? then |j.members| - i else if j.JArr? then |j.items| - i else 0
  {
    match j
    case JObj(ms) =>
      if i < |ms| {
        var m := ms[i];
        var p := MemberPath(path, m.key);
        WalkReportsBlankMembers(j, path, i + 1);
        WalkReportsBlankMembers(m.value, p, 0);
        BlankPathsAppend([(p, m.value)] + OccurrencesFrom(m.value, p, 0), OccurrencesFrom(j, path, i + 1));
        BlankPathsAppend([(p, m.value)], OccurrencesFrom(m.value, p, 0));
        if IsBlank(m.value) {
          ScalarHasNoOccurrences(m.value, p, 0);
        } else if !IsContainer(m.value) {
          ScalarHasNoOccurrences(m.value, p, 0);
        }
      }
    case JArr(items) =>
      if i < |items| {
        WalkReportsBlankMembers(j, path, i + 1);
        WalkReportsBlankMembers(items[i], ItemPath(path, i), 0);
        BlankPathsAppend(OccurrencesFrom(items[i], ItemPath(path, i), 0), OccurrencesFrom(j, path, i + 1));
        if !IsContainer(items[i]) {
          ScalarHasNoOccurrences(items[i], ItemPath(path, i), 0);
        }
      }
    case _ =>
  }

  /** Elements of an array are never reported themselves, whatever their
      value: an array of scalars (including "" and null) yields no warning. */
  lemma ScalarArrayIsSilent(items: seq<Json>, path: string)
    requires forall k :: 0 <= k < |items| ==> !IsContainer(items[k])
    ensures EmptyFieldPaths(JArr(items), path) == []
  {
    ScalarItemsAreSilent(items, path, 0);
  }

  lemma {:induction false} ScalarItemsAreSilent(items: seq<Json>, path: string, i: nat)
    requires forall k :: 0 <= k < |items| ==> !IsContainer(items[k])
    ensures WalkFrom(JArr(items), path, i) == []
    decreases |items| - i
  {
    if i < |items| {
      ScalarItemsAreSilent(items, path, i + 1);
    }
  }

  /** Every warning from a walk started at a non-empty path extends that
      path: nested keys are labelled below their parent. */
  lemma {:induction false} WalkPathsExtendPrefix(j: Json, path: string, i: nat)
    requires path != ""
    ensures forall w :: w in WalkFrom(j, path, i) ==> path <= w
    decreases j, if j.JObj? then |j.members| - i else if j.JArr? then |j.items| - i else 0
  {
    match j
    case JObj(ms) =>
      if i < |ms| {
        var p := MemberPath(path, ms[i].key);
        WalkPathsExtendPrefix(j, path, i + 1);
        if IsContainer(ms[i].value) {
          WalkPathsExtendPrefix(ms[i].value, p, 0);
          forall w | w in WalkFrom(ms[i].value, p, 0) ensures path <= w {
            assert p <= w;
            assert path <= p;
          }
        }
      }
    case JArr(items) =>
      if i < |items| {
        var p := ItemPath(path, i);
        WalkPathsExtendPrefix(j, path, i + 1);
        if IsContainer(items[i]) {
          WalkPathsExtendPrefix(items[i], p, 0);
          forall w | w in WalkFrom(items[i], p, 0) ensures path <= w {
            assert p <= w;
            assert path <= p;
          }
        }
      }
    case _ =>
  }

  /** A worked example of the path format. */
  lemma PathFormatExample()
    ensures EmptyFieldPaths(
      JObj([Member("a", JObj([Member("b", JStr(""))])),
            Member("c", JArr([JStr(""), JObj([Member("d", JNull)])])),
            Member("e", JStr("x"))]), "")
      == ["a.b", "c[1].d"]
  {
    var b := JObj([Member("b", JStr(""))]);
    var d := JObj([Member("d", JNull)]);
    var c := JArr([JStr(""), d]);
    var root := JObj([Member("a", b), Member("c", c), Member("e", JStr("x"))]);
    assert WalkFrom(b, "a", 1) == [];
    assert MemberPath("a", "b") == "a.b";
    assert WalkFrom(b, "a", 0) == ["a.b"];
    assert NatToString(1) == "1";
    assert ItemPath("c", 1) == "c[1]";
    assert WalkFrom(d, "c[1]", 1) == [];
    assert MemberPath("c[1]", "d") == "c[1].d";
    assert WalkFrom(d, "c[1]", 0) == ["c[1].d"];
    assert WalkFrom(c, "c", 1) == ["c[1].d"];
    assert WalkFrom(c, "c", 0) == ["c[1].d"];
    assert WalkFrom(root, "", 2) == [];
    assert WalkFrom(root, "", 1) == ["c[1].d"];
  }

  // ---------------------------------------------------------------------
  // The validator

  function CheckStructure(v: Validator, file: string, data: Json): (r: Validator)
    ensures r.warnings == v.warnings
    ensures |r.errors| == |v.errors| + (if IsContainer(data) then 0 else 1)
    ensures v.errors <= r.errors
  {
    if IsContainer(data) then v
    else v.(errors := v.errors + [StructureError(file)])
  }

  /** check_empty_fields from the root: one warning for each member whose
      value is "" or null, in document order, appended after the warnings
      already held. */
  function CheckEmptyFields(v: Validator, file: string, data: Json): (r: Validator)
    ensures r.errors == v.errors
    ensures v.warnings <= r.warnings
    ensures var blank := BlankPaths(OccurrencesFrom(data, "", 0));
      && |r.warnings| == |v.warnings| + |blank|
      && forall k :: 0 <= k < |blank| ==> r.warnings[|v.warnings| + k] == EmptyField(file, blank[k])
  {
    var ws := EmptyFieldPaths(data, "");
    WalkReportsBlankMembers(data, "", 0);
    v.(warnings := v.warnings + seq(|ws|, k requires 0 <= k < |ws| => EmptyField(file, ws[k])))
  }

  /** validate_file: the verdict is whether the shared validator holds no
      error at all, so after a first error every later file fails too. */
  function ValidateFile(v: Validator, file: string, c: FileContent): (r: (Validator, bool))
    ensures r.1 <==> r.0.errors == []
    ensures v.errors <= r.0.errors
    ensures v.warnings <= r.0.warnings
    ensures c.Parsed? ==> |r.0.errors| == |v.errors| + (if IsContainer(c.data) then 0 else 1)
    ensures !c.Parsed? ==> r.0.warnings == v.warnings && |r.0.errors| == |v.errors| + 1
  {
    match c
    case Parsed(data) =>
      var v' := CheckEmptyFields(CheckStructure(v, file, data), file, data);
      (v', v'.errors == [])
    case Malformed(detail) =>
      (v.(errors := v.errors + [DecodeError(file, detail)]), false)
    case Unreadable(detail) =>
      (v.(errors := v.errors + [ReadError(file, detail)]), false)
  }

  /** Warnings never influence the verdict of validate_file. */
  lemma WarningsDoNotMatter(errors: seq<Report>, w1: seq<Report>, w2: seq<Report>, file: string, c: FileContent)
    ensures ValidateFile(Validator(errors, w1), file, c).1 == ValidateFile(Validator(errors, w2), file, c).1
  {
  }

  /** The ten files main() validates, in order. */
  const JsonFiles: seq<string> := [
    "backend/base_conhecimento.json",
    "backend/guias_praticos.json",
    "backend/mensagens_apoio.json",
    "backend/cuidados_gestacao.json",
    "backend/cuidados_pos_parto.json",
    "backend/vacinas_mae.json",
    "backend/vacinas_bebe.json",
    "dados/base_conhecimento.json",
    "dados/guias_praticos.json",
    "dados/mensagens_apoio.json"
  ]

  /** The loop of main(): a file absent from fs is skipped with a notice;
      the flag is cleared by any file whose validation fails. */
  function RunFrom(v: Validator, files: seq<string>, fs: map<string, FileContent>): (r: (Validator, bool))
    ensures v.errors <= r.0.errors
    ensures v.warnings <= r.0.warnings
    decreases |files|
  {
    if |files| == 0 then (v, true)
    else if files[0] in fs then
      var step := ValidateFile(v, files[0], fs[files[0]]);
      var rest := RunFrom(step.0, files[1..], fs);
      (rest.0, step.1 && rest.1)
    else RunFrom(v, files[1..], fs)
  }

  lemma {:induction false} RunVerdictIsNoErrors(v: Validator, files: seq<string>, fs: map<string, FileContent>)
    requires v.errors == []
    ensures RunFrom(v, files, fs).1 <==> RunFrom(v, files, fs).0.errors == []
    decreases |files|
  {
    if |files| > 0 {
      if files[0] in fs {
        var step := ValidateFile(v, files[0], fs[files[0]]);
        if step.1 {
          RunVerdictIsNoErrors(step.0, files[1..], fs);
        } else {
          var rest := RunFrom(step.0, files[1..], fs);
          assert step.0.errors != [] && step.0.errors <= rest.0.errors;
        }
      } else {
        RunVerdictIsNoErrors(v, files[1..], fs);
      }
    }
  }

  /** main(): exit code 0 when every existing file validated, else 1. */
  function ExitStatus(fs: map<string, FileContent>): (code: int)
    ensures code == 0 || code == 1
  {
    if RunFrom(Validator([], []), JsonFiles, fs).1 then 0 else 1
  }

  /** The exit code is 1 exactly when some error was recorded; warnings
      alone never make it fail. */
  lemma ExitStatusFailsIffErrors(fs: map<string, FileContent>)
    ensures ExitStatus(fs) == 1 <==> RunFrom(Validator([], []), JsonFiles, fs).0.errors != []
  {
    RunVerdictIsNoErrors(Validator([], []), JsonFiles, fs);
  }
}

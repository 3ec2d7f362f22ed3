/**
 The vaccination card (showVacinas, renderVacinasMae/Bebe, marcarVacina,
 desmarcarVacina and showCelebration in chat.js): which check boxes are
 drawn ticked, and what a tick or an untick does once the server answers.
 The catalog and the status are the decoded JSON the client receives.
 */
module Vaccines {
  import opened Text

  datatype Recipient = Mother | Baby

  /** The `tipo` the client sends for a recipient. */
  function Tipo(r: Recipient): string {
    match r
    case Mother => "mae"
    case Baby => "bebe"
  }

  /** One entry of the catalog object: an object, possibly with a `vacinas`
      list (arrays count as objects without it), or any other JSON value,
      on which the `in` operator throws a TypeError. */
  datatype Period =
    | PeriodObject(vacinas: Option<seq<string>>)
    | NotAnObject

  type Catalog = seq<(string, Period)>

  /** Catalog keys that are not periods and are never rendered. */
  function SkippedKeys(r: Recipient): set<string> {
    match r
    case Mother => {"calendario", "importante"}
    case Baby => {"calendario", "recomendacoes", "carteira_vacinacao"}
  }

  /** GET /api/vacinas/status: the names already taken, per recipient. */
  datatype Status = Status(mae: seq<string>, bebe: seq<string>)

  /** What fetchVacinasStatus yields when the request fails, the status is
      not ok or the body is not JSON: `{}`, where both lists are missing. */
  const NoStatus: Status := Status([], [])

  function FetchStatus(reply: Option<Status>): (s: Status)
    ensures reply.None? ==> s == NoStatus
    ensures reply.Some? ==> s == reply.value
  {
    reply.GetOr(NoStatus)
  }

  function TakenNames(status: Status, r: Recipient): (names: set<string>)
    ensures forall n :: n in names <==> n in (if r == Mother then status.mae else status.bebe)
  {
    var taken := if r == Mother then status.mae else status.bebe;
    set n | n in taken
  }

  datatype Item = Item(recipient: Recipient, name: string, checked: bool)

  // ---------------------------------------------------------------------
  // Reference: the vaccines a catalog lists

  /** No rendered entry would make the `in` test throw. */
  predicate Renderable(r: Recipient, catalog: Catalog) {
    forall i :: 0 <= i < |catalog| && catalog[i].0 !in SkippedKeys(r) ==> catalog[i].1.PeriodObject?
  }

  /** The names of the vaccines listed by the rendered periods, in order. */
  function ListedNames(r: Recipient, catalog: Catalog): seq<string> {
    if |catalog| == 0 then []
    else
      var (key, period) := catalog[0];
      var here := if key !in SkippedKeys(r) && period.PeriodObject? && period.vacinas.Some? then period.vacinas.value else [];
      here + ListedNames(r, catalog[1..])
  }

  function ItemsFor(r: Recipient, names: seq<string>, taken: set<string>): (items: seq<Item>)
    ensures |items| == |names|
    ensures forall i :: 0 <= i < |items| ==> items[i] == Item(r, names[i], names[i] in taken)
  {
    seq(|names|, i requires 0 <= i < |names| => Item(r, names[i], names[i] in taken))
  }

  /** renderVacinasMae / renderVacinasBebe, keeping only the check boxes.
      None when the rendering throws. */
  function Render(r: Recipient, catalog: Catalog, taken: set<string>): (items: Option<seq<Item>>)
    ensures items.Some? <==> Renderable(r, catalog)
    ensures items.Some? ==> |items.value| == |ListedNames(r, catalog)|
    ensures items.Some? ==> forall i :: 0 <= i < |items.value| ==>
      items.value[i] == Item(r, ListedNames(r, catalog)[i], ListedNames(r, catalog)[i] in taken)
  {
    if |catalog| == 0 then Some([])
    else
      var (key, period) := catalog[0];
      assert forall i :: 1 <= i < |catalog| ==> catalog[i] == catalog[1..][i - 1];
      if key in SkippedKeys(r) then Render(r, catalog[1..], taken)
      else
        match period
        case NotAnObject => None
        case PeriodObject(vacinas) =>
          match Render(r, catalog[1..], taken)
          case None => None
          case Some(rest) =>
            var here := if vacinas.Some? then ItemsFor(r, vacinas.value, taken) else [];
            Some(here + rest)
  }

  /** A box is ticked exactly when its vaccine is in the recipient's status
      list. */
  lemma CheckedIffTaken(r: Recipient, catalog: Catalog, status: Status, i: int)
    requires Render(r, catalog, TakenNames(status, r)).Some?
    requires 0 <= i < |Render(r, catalog, TakenNames(status, r)).value|
    ensures var it := Render(r, catalog, TakenNames(status, r)).value[i];
      it.checked <==> it.name in (if r == Mother then status.mae else status.bebe)
  {
  }

  /** When the status could not be fetched nothing is ticked. */
  lemma FailedStatusTicksNothing(r: Recipient, catalog: Catalog)
    requires Render(r, catalog, TakenNames(FetchStatus(None), r)).Some?
    ensures forall it :: it in Render(r, catalog, TakenNames(FetchStatus(None), r)).value ==> !it.checked
  {
  }

  /** A skipped key never shows, and never throws, whatever its value. */
  lemma {:induction false} SkippedKeyIgnored(r: Recipient, before: Catalog, key: string, p: Period, after: Catalog, taken: set<string>)
    requires key in SkippedKeys(r)
    ensures Render(r, before + [(key, p)] + after, taken) == Render(r, before + after, taken)
  {
    if |before| == 0 {
      assert (before + [(key, p)] + after)[1..] == after;
      assert before + after == after;
    } else {
      assert (before + [(key, p)] + after)[1..] == before[1..] + [(key, p)] + after;
      assert (before + after)[1..] == before[1..] + after;
      SkippedKeyIgnored(r, before[1..], key, p, after, taken);
    }
  }

  /** The mother's card skips "importante", which holds a plain text; the
      baby's card does not, so the same entry makes the baby's card throw. */
  lemma ImportanteOnlySkippedForMother(taken: set<string>)
    ensures Render(Mother, [("importante", NotAnObject)], taken) == Some([])
    ensures Render(Baby, [("importante", NotAnObject)], taken) == None
  {
    var c: Catalog := [("importante", NotAnObject)];
    assert c[1..] == [];
    assert "importante" !in SkippedKeys(Baby);
  }

  datatype Panel =
    | LoadFailed
    | Cards(mae: seq<Item>, bebe: seq<Item>)

  /** showVacinas: both catalogs must arrive (Promise.all), and both cards
      must render; otherwise one error alert and no panel. */
  function ShowVacinas(mae: Option<Catalog>, bebe: Option<Catalog>, statusReply: Option<Status>): (p: Panel)
    ensures p.Cards? <==>
      mae.Some? && bebe.Some? && Renderable(Mother, mae.value) && Renderable(Baby, bebe.value)
    ensures p.Cards? ==> forall it :: it in p.mae ==> it.recipient == Mother && (it.checked <==> it.name in FetchStatus(statusReply).mae)
    ensures p.Cards? ==> forall it :: it in p.bebe ==> it.recipient == Baby && (it.checked <==> it.name in FetchStatus(statusReply).bebe)
  {
    if mae.None? || bebe.None? then LoadFailed
    else
      var status := FetchStatus(statusReply);
      match (Render(Mother, mae.value, TakenNames(status, Mother)), Render(Baby, bebe.value, TakenNames(status, Baby)))
      case (Some(m), Some(b)) => Cards(m, b)
      case _ => LoadFailed
  }

  // ---------------------------------------------------------------------
  // Ticking and unticking

  /** A box as the page shows it: the input's own tick and the item's
      "checked" styling. */
  datatype Box = Box(inputChecked: bool, itemMarked: bool)

  predicate Consistent(b: Box) {
    b.inputChecked == b.itemMarked
  }

  /** The server's answer to POST /api/vacinas/marcar or desmarcar. For a
      tick, Accepted is a 2xx reply, Refused any other status, and
      Unreachable a request that throws or a body that is not JSON. For an
      untick the body is never read: any 2xx reply is Accepted, any other
      status Refused, and only a request that throws is Unreachable. */
  datatype Answer =
    | Accepted(tipo: Option<string>, babyName: Option<string>, userName: Option<string>)
    | Refused(erro: string)
    | Unreachable

  datatype Celebration = BabyByName(baby: string, user: string) | BabyUnnamed(user: string) | MotherCelebrated(user: string)

  /** showCelebration: the user is addressed by the name the server gave,
      else the signed-in name, else "Mamãe"; a baby vaccine names the baby
      when the server knows it. */
  function CelebrationFor(tipo: Option<string>, babyName: Option<string>, userName: Option<string>, currentUser: Option<string>): (c: Celebration)
    ensures c.user == (if Truthy(userName) then userName.value else if Truthy(currentUser) then currentUser.value else "Mam\U{00E3}e")
    ensures c.BabyByName? <==> tipo == Some("bebe") && Truthy(babyName)
    ensures c.BabyUnnamed? <==> tipo == Some("bebe") && !Truthy(babyName)
  {
    var user := if Truthy(userName) then userName.value else if Truthy(currentUser) then currentUser.value else "Mam\U{00E3}e";
    if tipo == Some("bebe") && Truthy(babyName) then BabyByName(babyName.value, user)
    else if tipo == Some("bebe") then BabyUnnamed(user)
    else MotherCelebrated(user)
  }

  datatype Outcome = Outcome(box: Box, celebration: Option<Celebration>, alerted: bool)

  /** The change handler: the click has already flipped the input; a tick
      runs marcarVacina, an untick desmarcarVacina. */
  function Toggle(before: Box, answer: Answer, currentUser: Option<string>): (o: Outcome)
    ensures !before.inputChecked ==>
      && (answer.Accepted? ==> o.box == Box(true, true) && o.celebration.Some? && !o.alerted)
      && (!answer.Accepted? ==> o.box == Box(false, before.itemMarked) && o.celebration.None? && o.alerted)
    ensures before.inputChecked ==>
      && o.celebration.None?
      && (answer.Accepted? ==> o.box == Box(false, false) && !o.alerted)
      && (answer.Refused? ==> o.box == Box(false, before.itemMarked) && !o.alerted)
      && (answer.Unreachable? ==> o.box == Box(false, before.itemMarked) && o.alerted)
  {
    if !before.inputChecked then
      match answer
      case Accepted(tipo, babyName, userName) =>
        Outcome(Box(true, true), Some(CelebrationFor(tipo, babyName, userName, currentUser)), false)
      case Refused(_) => Outcome(Box(false, before.itemMarked), None, true)
      case Unreachable => Outcome(Box(false, before.itemMarked), None, true)
    else
      match answer
      case Accepted(_, _, _) => Outcome(Box(false, false), None, false)
      case Refused(_) => Outcome(Box(false, before.itemMarked), None, false)
      case Unreachable => Outcome(Box(false, before.itemMarked), None, true)
  }

  /** Ticking never leaves the box and its styling disagreeing: a failed
      tick is rolled back. */
  lemma TickKeepsConsistent(before: Box, answer: Answer, currentUser: Option<string>)
    requires Consistent(before) && !before.inputChecked
    ensures Consistent(Toggle(before, answer, currentUser).box)
    ensures Toggle(before, answer, currentUser).box.inputChecked <==> answer.Accepted?
  {
  }

  /** A failed untick is not rolled back: the input shows unticked while the
      item keeps its ticked styling. */
  lemma FailedUntickDisagrees(answer: Answer, currentUser: Option<string>)
    requires !answer.Accepted?
    ensures !Consistent(Toggle(Box(true, true), answer, currentUser).box)
  {
  }

  /** A successful answer always ends consistent, whichever way the box went. */
  lemma AcceptedEndsConsistent(before: Box, answer: Answer, currentUser: Option<string>)
    requires answer.Accepted?
    ensures Consistent(Toggle(before, answer, currentUser).box)
    ensures Toggle(before, answer, currentUser).box.inputChecked == !before.inputChecked
  {
  }
}

/**
 The time-of-day greeting shown above the chat (updateWelcomeMessage in
 chat.js): the first space-separated token of the user's name, after a
 salutation chosen by the hour, followed by an emoji.
 */
module Greeting {
  import opened Text

  datatype Period = Morning | Afternoon | Evening | Night

  /** The part of the day an hour of the local clock falls in. */
  function PeriodOf(hour: int): (p: Period)
    ensures p == Morning <==> 5 <= hour < 12
    ensures p == Afternoon <==> 12 <= hour < 18
    ensures p == Evening <==> 18 <= hour < 22
    ensures p == Night <==> hour < 5 || hour >= 22
  {
    if hour >= 5 && hour < 12 then Morning
    else if hour >= 12 && hour < 18 then Afternoon
    else if hour >= 18 && hour < 22 then Evening
    else Night
  }

  function Salutation(p: Period): string {
    match p
    case Morning => "Bom dia"
    case Afternoon => "Boa tarde"
    case Evening => "Boa noite"
    case Night => "Boa madrugada"
  }

  function Emoji(p: Period): string {
    match p
    case Morning => "\U{1F305}"
    case Afternoon => "\U{2600}\U{FE0F}"
    case Evening => "\U{1F306}"
    case Night => "\U{1F319}"
  }

  /** JavaScript's name.split(' ')[0]: everything before the first space
      (only U+0020 separates; other whitespace stays in the token). */
  function FirstToken(name: string): (r: string)
    ensures r <= name
    ensures ' ' !in r
    ensures |r| < |name| ==> name[|r|] == ' '
  {
    if |name| == 0 || name[0] == ' ' then "" else [name[0]] + FirstToken(name[1..])
  }

  function GreetingText(hour: int, name: string): (g: string)
    ensures Salutation(PeriodOf(hour)) + ", " <= g
    ensures var k := |Salutation(PeriodOf(hour))| + 2;
      && |g| == k + |FirstToken(name)| + 1 + |Emoji(PeriodOf(hour))|
      && g[k..k + |FirstToken(name)|] == FirstToken(name)
      && g[k + |FirstToken(name)|] == ' '
      && g[k + |FirstToken(name)| + 1..] == Emoji(PeriodOf(hour))
  {
    Salutation(PeriodOf(hour)) + ", " + FirstToken(name) + " " + Emoji(PeriodOf(hour))
  }

  /** The new text of the greeting element: replaced only when the element
      exists and the user name is truthy, otherwise left as it was. */
  function UpdateGreeting(current: Option<string>, userName: Option<string>, hour: int): (r: Option<string>)
    ensures current.None? ==> r == current
    ensures !Truthy(userName) ==> r == current
    ensures current.Some? && Truthy(userName) ==> r == Some(GreetingText(hour, userName.value))
  {
    if current.Some? && Truthy(userName) then Some(GreetingText(hour, userName.value)) else current
  }

  // ---------------------------------------------------------------------
  // Properties

  /** Whatever follows the first space never reaches the greeting. */
  lemma {:induction false} FirstTokenOfFullName(first: string, rest: string)
    requires ' ' !in first
    ensures FirstToken(first + " " + rest) == first
  {
    if |first| > 0 {
      assert (first + " " + rest)[1..] == first[1..] + " " + rest;
      FirstTokenOfFullName(first[1..], rest);
    }
  }

  lemma GreetingIgnoresSurname(hour: int, first: string, rest: string)
    requires ' ' !in first
    ensures GreetingText(hour, first + " " + rest) == GreetingText(hour, first)
  {
    FirstTokenOfFullName(first, rest);
    FirstTokenOfSingleWord(first);
  }

  /** A name without spaces is its own first token. */
  lemma {:induction false} FirstTokenOfSingleWord(name: string)
    requires ' ' !in name
    ensures FirstToken(name) == name
  {
    if |name| > 0 {
      FirstTokenOfSingleWord(name[1..]);
    }
  }

  /** Two names sharing a first token get the same greeting. */
  lemma GreetingDependsOnFirstTokenOnly(hour: int, a: string, b: string)
    requires FirstToken(a) == FirstToken(b)
    ensures GreetingText(hour, a) == GreetingText(hour, b)
  {
  }

  /** Hours in different parts of the day get different salutations, so the
      greeting always tells the period it was written in. */
  lemma SalutationIdentifiesPeriod(h1: int, h2: int, name: string)
    requires PeriodOf(h1) != PeriodOf(h2)
    ensures GreetingText(h1, name) != GreetingText(h2, name)
  {
    var g1 := GreetingText(h1, name);
    var g2 := GreetingText(h2, name);
    var p1 := PeriodOf(h1);
    var p2 := PeriodOf(h2);
    assert g1[..|Salutation(p1)|] == Salutation(p1);
    assert g2[..|Salutation(p2)|] == Salutation(p2);
    if |Salutation(p1)| == |Salutation(p2)| {
      // "Bom dia" and "Boa tarde" / "Boa noite" differ at the third letter
      // or in length.
      assert Salutation(p1) != Salutation(p2);
    } else if |Salutation(p1)| < |Salutation(p2)| {
      assert g1[|Salutation(p1)|] == ',';
      assert g2[|Salutation(p1)|] != ',';
    } else {
      assert g2[|Salutation(p2)|] == ',';
      assert g1[|Salutation(p2)|] != ',';
    }
  }

  /** Scenario: at 9 o'clock "Ana Maria" is greeted as Ana. */
  lemma MorningExample()
    ensures UpdateGreeting(Some(""), Some("Ana Maria"), 9) == Some("Bom dia, Ana \U{1F305}")
  {
    assert "Ana Maria" == "Ana" + " " + "Maria";
    FirstTokenOfFullName("Ana", "Maria");
    assert PeriodOf(9) == Morning;
    assert GreetingText(9, "Ana Maria") == "Bom dia" + ", " + "Ana" + " " + "\U{1F305}";
    assert "Bom dia" + ", " + "Ana" + " " + "\U{1F305}" == "Bom dia, Ana \U{1F305}";
    assert Truthy(Some("Ana Maria"));
  }
}

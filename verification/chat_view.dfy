/**
 The chat panel of the browser client (chat.js): the transcript effect of
 sending a question and of replaying the stored history, clearing the
 history, the character counter under the input box, and the label shown
 for an answer's category. The page is an abstract record; rendering,
 timers and notifications are not part of it.
 */
module ChatView {
  import opened Text

  datatype Sender = User | Assistant

  /** One rendered message: its author, its text, and the category badge and
      alert words shown under an answer. */
  datatype Entry = Entry(sender: Sender, text: string, category: Option<string>, alerts: seq<string>)

  datatype View = View(
    welcomeVisible: bool,
    chatActive: bool,
    transcript: seq<Entry>,
    typing: bool,
    inputDisabled: bool,
    sendDisabled: bool,
    input: string,
    alertBanner: Option<seq<string>>,
    userId: string)

  /** Ready for the next question: no typing indicator, input and send
      button enabled. */
  predicate Idle(v: View) {
    !v.typing && !v.inputDisabled && !v.sendDisabled
  }

  const NoReplyApology: string :=
    "Desculpe, n\U{00E3}o consegui processar sua pergunta. Tente reformul\U{00E1}-la ou tente novamente mais tarde."
  const ErrorApology: string :=
    "Desculpe, ocorreu um erro ao processar sua pergunta. Verifique sua conex\U{00E3}o e tente novamente."

  /** What POST /api/chat produced: either the request failed (network
      error, a status outside 2xx, or a body that is not JSON), or a JSON
      body with the answer fields, each possibly absent. */
  datatype ChatOutcome =
    | RequestFailed
    | Answered(resposta: Option<string>, categoria: Option<string>, alertas: seq<string>)

  function UserEntry(text: string): Entry {
    Entry(User, text, None, [])
  }

  // ---------------------------------------------------------------------
  // Transcript shape

  /** The transcript is a run of question/answer pairs: user entries, which
      never carry a badge or alerts, at even positions and assistant entries
      at odd ones. */
  predicate Alternating(t: seq<Entry>) {
    && |t| % 2 == 0
    && (forall i :: 0 <= i < |t| ==> (t[i].sender == User <==> i % 2 == 0))
    && (forall i :: 0 <= i < |t| && t[i].sender == User ==> t[i].category == None && t[i].alerts == [])
  }

  lemma AlternatingAppend(a: seq<Entry>, b: seq<Entry>)
    requires Alternating(a) && Alternating(b)
    ensures Alternating(a + b)
  {
    forall i | |a| <= i < |a + b|
      ensures (a + b)[i] == b[i - |a|]
    {
    }
  }

  // ---------------------------------------------------------------------
  // sendMessage

  /** The synchronous part of sendMessage, up to the request: the trimmed
      question is shown, the input is cleared and locked, the welcome view
      is hidden and the typing indicator appears. */
  function BeginSend(v: View, message: string): (p: View)
    ensures p.transcript == v.transcript + [UserEntry(message)]
    ensures p.typing && p.inputDisabled && p.sendDisabled
    ensures p.input == "" && !p.welcomeVisible && p.chatActive
    ensures p.alertBanner == v.alertBanner && p.userId == v.userId
  {
    v.(transcript := v.transcript + [UserEntry(message)], input := "",
       inputDisabled := true, sendDisabled := true,
       welcomeVisible := false, chatActive := true, typing := true)
  }

  /** The part after the request settles: exactly one assistant entry, and
      the finally block unlocks the input whatever happened. */
  function FinishSend(p: View, o: ChatOutcome): (r: View)
    ensures |r.transcript| == |p.transcript| + 1 && r.transcript[..|p.transcript|] == p.transcript
    ensures r.transcript[|p.transcript|].sender == Assistant
    ensures o.Answered? && Truthy(o.resposta) ==>
      r.transcript[|p.transcript|] == Entry(Assistant, o.resposta.value, o.categoria, o.alertas)
    ensures o.Answered? && !Truthy(o.resposta) ==>
      r.transcript[|p.transcript|] == Entry(Assistant, NoReplyApology, None, [])
    ensures o.RequestFailed? ==> r.transcript[|p.transcript|] == Entry(Assistant, ErrorApology, None, [])
    ensures Idle(r)
    ensures r.alertBanner == (if o.Answered? && Truthy(o.resposta) && |o.alertas| > 0 then Some(o.alertas) else p.alertBanner)
    ensures r.input == p.input && r.welcomeVisible == p.welcomeVisible && r.chatActive == p.chatActive
    ensures r.userId == p.userId
  {
    var settled := p.(typing := false, inputDisabled := false, sendDisabled := false);
    match o
    case RequestFailed =>
      settled.(transcript := p.transcript + [Entry(Assistant, ErrorApology, None, [])])
    case Answered(resposta, categoria, alertas) =>
      if Truthy(resposta) then
        settled.(transcript := p.transcript + [Entry(Assistant, resposta.value, categoria, alertas)],
                 alertBanner := if |alertas| > 0 then Some(alertas) else p.alertBanner)
      else
        settled.(transcript := p.transcript + [Entry(Assistant, NoReplyApology, None, [])])
  }

  /** sendMessage: a blank (empty or whitespace-only) input is ignored;
      otherwise the question and one answer are appended. */
  function SendMessage(v: View, o: ChatOutcome): (r: View)
    ensures JsTrim(v.input) == "" ==> r == v
    ensures JsTrim(v.input) != "" ==>
      && |r.transcript| == |v.transcript| + 2
      && r.transcript[..|v.transcript|] == v.transcript
      && r.transcript[|v.transcript|] == UserEntry(JsTrim(v.input))
      && r.transcript[|v.transcript| + 1].sender == Assistant
      && Idle(r) && r.input == "" && !r.welcomeVisible && r.chatActive
      && r.userId == v.userId
  {
    var message := JsTrim(v.input);
    if message == "" then v
    else
      var p := BeginSend(v, message);
      var r := FinishSend(p, o);
      assert r.transcript[..|v.transcript|] == p.transcript[..|p.transcript|][..|v.transcript|];
      r
  }

  /** Whatever the server does, a sent question is answered by exactly one
      entry and the page ends ready for the next question. */
  lemma SendKeepsAlternating(v: View, o: ChatOutcome)
    requires Alternating(v.transcript)
    ensures Alternating(SendMessage(v, o).transcript)
  {
    if JsTrim(v.input) != "" {
      var t := SendMessage(v, o).transcript;
      var n := |v.transcript|;
      var pair := [t[n], t[n + 1]];
      assert t == v.transcript + pair by {
        assert t == t[..n] + t[n..];
        assert t[n..] == pair;
      }
      assert Alternating(pair);
      AlternatingAppend(v.transcript, pair);
    }
  }

  /** The question shown is never blank and carries no surrounding
      whitespace. */
  lemma SentQuestionIsTrimmed(v: View, o: ChatOutcome)
    requires JsTrim(v.input) != ""
    ensures var q := SendMessage(v, o).transcript[|v.transcript|].text;
      q != "" && !IsJsSpace(q[0]) && !IsJsSpace(q[|q| - 1]) && JsTrim(q) == q
  {
    var q := JsTrim(v.input);
    assert SendMessage(v, o).transcript[|v.transcript|].text == q;
    TrimIdempotent(v.input, IsJsSpace);
  }

  // ---------------------------------------------------------------------
  // loadChatHistory

  /** One record of GET /api/historico. */
  datatype HistoryItem = HistoryItem(pergunta: string, resposta: string, categoria: Option<string>, alertas: seq<string>)

  /** An answered send appends the same two entries a replay of that
      exchange would show. */
  lemma SendShowsReplayOf(v: View, resposta: string, categoria: Option<string>, alertas: seq<string>)
    requires JsTrim(v.input) != "" && resposta != ""
    ensures SendMessage(v, Answered(Some(resposta), categoria, alertas)).transcript[|v.transcript|..]
         == HistoryEntries([HistoryItem(JsTrim(v.input), resposta, categoria, alertas)])
  {
    var shown := SendMessage(v, Answered(Some(resposta), categoria, alertas)).transcript;
    var item := HistoryItem(JsTrim(v.input), resposta, categoria, alertas);
    HistoryEntriesAt([item], 0);
    assert shown[|v.transcript|..] == [shown[|v.transcript|], shown[|v.transcript| + 1]];
  }

  /** The entries the replay adds: for each record, its question and then its
      answer with the record's badge and alerts. */
  function HistoryEntries(items: seq<HistoryItem>): (t: seq<Entry>)
    ensures |t| == 2 * |items|
  {
    if |items| == 0 then []
    else [UserEntry(items[0].pergunta), AnswerEntry(items[0])] + HistoryEntries(items[1..])
  }

  function AnswerEntry(item: HistoryItem): Entry {
    Entry(Assistant, item.resposta, item.categoria, item.alertas)
  }

  /** Record i lands at positions 2i (question) and 2i+1 (answer). */
  lemma {:induction false} HistoryEntriesAt(items: seq<HistoryItem>, i: nat)
    requires i < |items|
    ensures HistoryEntries(items)[2 * i] == UserEntry(items[i].pergunta)
    ensures HistoryEntries(items)[2 * i + 1] == AnswerEntry(items[i])
  {
    if i > 0 {
      HistoryEntriesAt(items[1..], i - 1);
      assert items[1..][i - 1] == items[i];
    }
  }

  /** Reads the records back from a run of question/answer pairs. */
  function Pairs(t: seq<Entry>): (items: seq<HistoryItem>)
    requires |t| % 2 == 0
    ensures |items| == |t| / 2
    decreases |t|
  {
    if |t| == 0 then []
    else [HistoryItem(t[0].text, t[1].text, t[1].category, t[1].alerts)] + Pairs(t[2..])
  }

  /** Replaying loses nothing: the records can be read back from the
      entries. */
  lemma {:induction false} PairsOfHistoryEntries(items: seq<HistoryItem>)
    ensures Pairs(HistoryEntries(items)) == items
  {
    if |items| > 0 {
      var t := HistoryEntries(items);
      HistoryEntriesAt(items, 0);
      assert t[2..] == HistoryEntries(items[1..]);
      PairsOfHistoryEntries(items[1..]);
      assert items == [items[0]] + items[1..];
    }
  }

  lemma HistoryEntriesAlternate(items: seq<HistoryItem>)
    ensures Alternating(HistoryEntries(items))
  {
    var t := HistoryEntries(items);
    forall i | 0 <= i < |t|
      ensures (t[i].sender == User <==> i % 2 == 0)
      ensures t[i].sender == User ==> t[i].category == None && t[i].alerts == []
    {
      HistoryEntriesAt(items, i / 2);
      if i % 2 == 0 {
        assert t[i] == t[2 * (i / 2)];
      } else {
        assert t[i] == t[2 * (i / 2) + 1];
      }
    }
  }

  /** loadChatHistory: `fetched` is None when the request or the decoding
      fails (the error is only logged). */
  function LoadChatHistory(v: View, fetched: Option<seq<HistoryItem>>): (r: View)
    ensures fetched.None? || fetched == Some([]) ==> r == v
    ensures fetched.Some? && |fetched.value| > 0 ==>
      && r.transcript == v.transcript + HistoryEntries(fetched.value)
      && !r.welcomeVisible && r.chatActive
      && r.typing == v.typing && r.inputDisabled == v.inputDisabled && r.sendDisabled == v.sendDisabled
      && r.input == v.input && r.userId == v.userId && r.alertBanner == v.alertBanner
  {
    match fetched
    case None => v
    case Some(items) =>
      if |items| > 0 then
        v.(welcomeVisible := false, chatActive := true, transcript := v.transcript + HistoryEntries(items))
      else v
  }

  /** Replaying n records adds 2n entries, user and assistant alternating,
      in the order of the records. */
  lemma LoadAppendsPairsInOrder(v: View, items: seq<HistoryItem>)
    requires |items| > 0
    ensures var t := LoadChatHistory(v, Some(items)).transcript;
      && |t| == |v.transcript| + 2 * |items|
      && (forall i :: 0 <= i < |items| ==>
            t[|v.transcript| + 2 * i] == UserEntry(items[i].pergunta)
            && t[|v.transcript| + 2 * i + 1].sender == Assistant
            && t[|v.transcript| + 2 * i + 1].text == items[i].resposta)
  {
    forall i | 0 <= i < |items|
      ensures HistoryEntries(items)[2 * i] == UserEntry(items[i].pergunta)
      ensures HistoryEntries(items)[2 * i + 1] == AnswerEntry(items[i])
    {
      HistoryEntriesAt(items, i);
    }
  }

  lemma LoadKeepsAlternating(v: View, fetched: Option<seq<HistoryItem>>)
    requires Alternating(v.transcript)
    ensures Alternating(LoadChatHistory(v, fetched).transcript)
  {
    if fetched.Some? && |fetched.value| > 0 {
      HistoryEntriesAlternate(fetched.value);
      AlternatingAppend(v.transcript, HistoryEntries(fetched.value));
    }
  }

  // ---------------------------------------------------------------------
  // clearHistory

  /** clearHistory: only the page is cleared (the server keeps its copy), and
      a fresh user id, supplied by the caller, replaces the old one. */
  function ClearHistory(v: View, confirmed: bool, freshUserId: string): (r: View)
    ensures !confirmed ==> r == v
    ensures confirmed ==> r.transcript == [] && r.welcomeVisible && !r.chatActive && r.userId == freshUserId
    ensures confirmed ==> r.typing == v.typing && r.input == v.input && r.inputDisabled == v.inputDisabled
    ensures confirmed ==> r.sendDisabled == v.sendDisabled && r.alertBanner == v.alertBanner
  {
    if confirmed then v.(transcript := [], chatActive := false, welcomeVisible := true, userId := freshUserId)
    else v
  }

  /** After a confirmed clear, replaying the new (empty) history keeps the
      welcome view. */
  lemma ClearThenEmptyReplayShowsWelcome(v: View, freshUserId: string)
    ensures var r := LoadChatHistory(ClearHistory(v, true, freshUserId), Some([]));
      r.welcomeVisible && r.transcript == [] && Alternating(r.transcript)
  {
  }

  // ---------------------------------------------------------------------
  // Character counter

  datatype CounterColor = Gray | Orange | Red

  /** The CSS color the counter is painted in. */
  function ColorCode(c: CounterColor): string {
    match c
    case Gray => "#6c757d"
    case Orange => "#f39c12"
    case Red => "#e74c3c"
  }

  function Severity(c: CounterColor): nat {
    match c
    case Gray => 0
    case Orange => 1
    case Red => 2
  }

  function ColorFor(count: nat): (c: CounterColor)
    ensures c == Red <==> count > 450
    ensures c == Orange <==> 400 < count <= 450
    ensures c == Gray <==> count <= 400
  {
    if count > 450 then Red else if count > 400 then Orange else Gray
  }

  /** updateCharCount: the counter text "n/500", n counted in UTF-16 code
      units as the input's `length` is, and its color. */
  function CharCounter(input: string): (r: (string, CounterColor))
    ensures |r.0| > 4 && r.0[|r.0| - 4..] == "/500"
    ensures AllDigits(r.0[..|r.0| - 4]) && DigitsValue(r.0[..|r.0| - 4]) == Utf16Length(input)
    ensures r.1 == ColorFor(Utf16Length(input))
  {
    var digits := NatToString(Utf16Length(input));
    NatToStringRoundTrip(Utf16Length(input));
    var text := digits + "/500";
    assert text[..|text| - 4] == digits;
    (text, ColorFor(Utf16Length(input)))
  }

  /** A longer input never gets a calmer color. */
  lemma ColorMonotone(a: nat, b: nat)
    requires a <= b
    ensures Severity(ColorFor(a)) <= Severity(ColorFor(b))
  {
  }

  /** A sent question resets the counter. */
  lemma SendResetsCounter(v: View, o: ChatOutcome)
    requires JsTrim(v.input) != ""
    ensures CharCounter(SendMessage(v, o).input) == ("0/500", Gray)
  {
    assert SendMessage(v, o).input == "";
    assert Utf16Length("") == 0;
    assert NatToString(0) == "0";
    assert "0" + "/500" == "0/500";
  }

  // ---------------------------------------------------------------------
  // Category labels

  /** A character of JavaScript's \w class: ASCII letters, digits and _. */
  predicate IsWordChar(c: char) {
    IsAsciiLetter(c) || ('0' <= c <= '9') || c == '_'
  }

  /** category.replace(/_/g, ' '). */
  function SpacedOut(s: string): (t: string)
    ensures |t| == |s|
    ensures forall i :: 0 <= i < |s| ==> t[i] == (if s[i] == '_' then ' ' else s[i])
  {
    seq(|s|, i requires 0 <= i < |s| => if s[i] == '_' then ' ' else s[i])
  }

  /** Position i starts a word of the label: first, or right after a space. */
  predicate WordStart(t: string, i: int)
    requires 0 <= i < |t|
  {
    i == 0 || t[i - 1] == ' '
  }

  /** formatCategoryName as written: /\b\w/g upper-cases every \w character
      right after a \b boundary. \w is ASCII-only, so an accented letter
      ends a "word" and the letter after it is capitalised. */
  function FormatCategoryNameAsWritten(category: string): (r: string)
    ensures |r| == |category|
    ensures forall i :: 0 <= i < |r| ==> LowerChar(r[i]) == LowerChar(SpacedOut(category)[i])
  {
    var t := SpacedOut(category);
    seq(|t|, i requires 0 <= i < |t| =>
      if IsWordChar(t[i]) && (i == 0 || !IsWordChar(t[i - 1])) then UpperChar(t[i]) else t[i])
  }

  /** The label as evidently intended: the first letter of every
      space-separated word upper-cased, nothing else touched. */
  function FormatCategoryName(category: string): (r: string)
    ensures |r| == |category|
    ensures forall i :: 0 <= i < |r| && WordStart(SpacedOut(category), i) ==> !IsLower(r[i])
    ensures forall i :: 0 <= i < |r| && !WordStart(SpacedOut(category), i) ==> r[i] == SpacedOut(category)[i]
  {
    var t := SpacedOut(category);
    seq(|t|, i requires 0 <= i < |t| => if WordStart(t, i) then UpperChar(t[i]) else t[i])
  }

  /** Only case changes: the label lower-cases to the spaced-out key. */
  lemma FormatCategoryNameOnlyChangesCase(category: string)
    ensures ToLower(FormatCategoryName(category)) == ToLower(SpacedOut(category))
  {
  }

  /** The badge under an answer, when it has a category. The page formats
      it with formatCategoryName as written; for a key made of ASCII word
      characters and spaces that is the intended label. */
  function CategoryBadge(e: Entry): (b: Option<string>)
    ensures b.Some? <==> Truthy(e.category)
    ensures b.Some? ==> |b.value| == |e.category.value|
    ensures b.Some? ==> ToLower(b.value) == ToLower(SpacedOut(e.category.value))
    ensures b.Some? && PlainKey(e.category.value) ==> b.value == FormatCategoryName(e.category.value)
  {
    if Truthy(e.category) then
      var shown := FormatCategoryNameAsWritten(e.category.value);
      assert ToLower(shown) == ToLower(SpacedOut(e.category.value));
      PlainKeyLabelsAgree(e.category.value);
      Some(shown)
    else None
  }

  /** A category key of ASCII letters, digits, underscores and spaces. */
  predicate PlainKey(category: string) {
    forall i :: 0 <= i < |category| ==> IsWordChar(category[i]) || category[i] == ' '
  }

  /** On a plain key the as-written and the intended labels agree: after the
      underscores become spaces, a non-word character is a space. */
  lemma PlainKeyLabelsAgree(category: string)
    ensures PlainKey(category) ==> FormatCategoryNameAsWritten(category) == FormatCategoryName(category)
  {
    if !PlainKey(category) { return; }
    var t := SpacedOut(category);
    var a := FormatCategoryNameAsWritten(category);
    var b := FormatCategoryName(category);
    forall i | 0 <= i < |t| ensures a[i] == b[i] {
      assert IsWordChar(t[i]) || t[i] == ' ';
      if i > 0 { assert IsWordChar(t[i - 1]) || t[i - 1] == ' '; }
    }
  }

  /** The as-written label of "amamentação" capitalises the final o, after
      the non-ASCII ã; the intended label does not. */
  lemma AccentedCategoryCounterexample()
    ensures FormatCategoryNameAsWritten("amamenta\U{00E7}\U{00E3}o")[10] == 'O'
    ensures FormatCategoryName("amamenta\U{00E7}\U{00E3}o") == "Amamenta\U{00E7}\U{00E3}o"
  {
    AccentedCategoryAsWritten();
    AccentedCategoryCorrected();
  }

  lemma AccentedCategoryAsWritten()
    ensures FormatCategoryNameAsWritten("amamenta\U{00E7}\U{00E3}o")[10] == 'O'
  {
    var s := "amamenta\U{00E7}\U{00E3}o";
    assert SpacedOut(s)[9] == '\U{00E3}' && SpacedOut(s)[10] == 'o';
  }

  lemma AccentedCategoryCorrected()
    ensures FormatCategoryName("amamenta\U{00E7}\U{00E3}o") == "Amamenta\U{00E7}\U{00E3}o"
  {
    var s := "amamenta\U{00E7}\U{00E3}o";
    assert FormatCategoryName(s)[0] == 'A';
  }
}

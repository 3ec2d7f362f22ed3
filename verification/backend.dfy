/**
 The answer pipeline of the Flask backend (ChatbotPuerperio and the /api/chat
 and /api/historico routes in app.py): alert keywords, the closest local
 answer, the choice between the knowledge base, the language model and a
 support message, the alert and phone blocks appended to the answer, the
 per-user history, and the message list sent to the language model.

 The similarity ratio, the language model's reply, the random pick of a
 support message and the clock are inputs; the data files are a Config.
 */
module Backend {
  import opened Text

  // ---------------------------------------------------------------------
  // Alert keywords

  /** palavras_alerta, in declaration order. */
  const AlertWords: seq<string> := [
    "sangramento", "febre", "dor", "incha\U{00E7}o", "tristeza", "depress\U{00E3}o", "emerg\U{00EA}ncia"
  ]

  /** The words of `words` that occur in `text`, in list order. */
  function KeepContained(words: seq<string>, text: string): (r: seq<string>)
    ensures forall w :: w in r <==> w in words && Contains(text, w)
    ensures Subsequence(r, words)
    ensures Distinct(words) ==> Distinct(r)
  {
    if |words| == 0 then []
    else
      var rest := KeepContained(words[1..], text);
      assert forall w :: w in words <==> w == words[0] || w in words[1..];
      DistinctTail(words);
      if Contains(text, words[0]) then
        var r := [words[0]] + rest;
        assert r[1..] == rest;
        r
      else
        SubsequenceOfTail(rest, words);
        rest
  }

  lemma DistinctTail<T>(s: seq<T>)
    requires |s| > 0
    ensures Distinct(s) ==> s[0] !in s[1..] && Distinct(s[1..])
  {
  }

  lemma SubsequenceOfTail<T>(a: seq<T>, b: seq<T>)
    requires |b| > 0 && Subsequence(a, b[1..])
    ensures Subsequence(a, b)
  {
  }

  /** verificar_alertas: the alert words found in the lower-cased question. */
  function DetectAlerts(question: string): (r: seq<string>)
    ensures forall w :: w in r <==> w in AlertWords && Contains(ToLower(question), w)
    ensures Subsequence(r, AlertWords)
    ensures Distinct(r)
  {
    assert Distinct(AlertWords);
    KeepContained(AlertWords, ToLower(question))
  }

  // ---------------------------------------------------------------------
  // Phone numbers

  /** The CVV entry of telefones_uteis: None when it is missing or empty. */
  datatype Cvv = Cvv(disque: Option<string>, site: Option<string>)

  /** The parts of telefones_uteis the answer uses; a missing number is None. */
  datatype Phones = Phones(cvv: Option<Cvv>, samu: Option<string>, bombeiros: Option<string>, policia: Option<string>)

  const CvvHeader: string := "\n\U{1F198} **Precisa de ajuda?**"
  const EmergencyHeader: string := "\n\U{1F6A8} **TELEFONES DE EMERG\U{00CA}NCIA:**"

  /** The question speaks of sadness or depression. */
  predicate SoundsSad(question: string) {
    var q := ToLower(question);
    Contains(q, "depress\U{00E3}o") || Contains(q, "tristeza") || Contains(q, "triste")
  }

  function CvvLines(c: Cvv): (lines: seq<string>)
    ensures |lines| == 4 && lines[0] == CvvHeader
  {
    [ CvvHeader,
      "CVV - Centro de Valoriza\U{00E7}\U{00E3}o da Vida: " + c.disque.GetOr("188"),
      "Ligue 188 gratuitamente, 24h por dia",
      "Site: " + c.site.GetOr("https://www.cvv.org.br") ]
  }

  function EmergencyLines(p: Phones): (lines: seq<string>)
    ensures |lines| == 4 && lines[0] == EmergencyHeader
  {
    [ EmergencyHeader,
      "SAMU: " + p.samu.GetOr("192"),
      "Bombeiros: " + p.bombeiros.GetOr("193"),
      "Pol\U{00ED}cia: " + p.policia.GetOr("190") ]
  }

  /** The lines of adicionar_telefones_relevantes: the CVV block when the
      question sounds sad and CVV data exists, then the emergency block when
      an alert word was found. */
  function PhoneLines(question: string, alerts: seq<string>, p: Phones): (lines: seq<string>)
    ensures |lines| == (if SoundsSad(question) && p.cvv.Some? then 4 else 0) + (if |alerts| > 0 then 4 else 0)
    ensures (SoundsSad(question) && p.cvv.Some?) <==> (|lines| > 0 && lines[0] == CvvHeader)
    ensures |alerts| > 0 <==> (|lines| >= 4 && lines[|lines| - 4] == EmergencyHeader)
  {
    var cvvPart := if SoundsSad(question) && p.cvv.Some? then CvvLines(p.cvv.value) else [];
    var emergencyPart := if |alerts| > 0 then EmergencyLines(p) else [];
    assert CvvHeader != EmergencyHeader by { assert CvvHeader[1] != EmergencyHeader[1]; }
    cvvPart + emergencyPart
  }

  function PhoneText(question: string, alerts: seq<string>, p: Phones): (t: string)
    ensures t == "" <==> !(SoundsSad(question) && p.cvv.Some?) && |alerts| == 0
    ensures t != "" ==> t[0] == '\n'
  {
    var lines := PhoneLines(question, alerts, p);
    if |lines| == 0 then ""
    else
      assert lines[0] == CvvHeader || lines[0] == EmergencyHeader;
      var t := Join(lines, "\n");
      assert lines[0] <= t;
      t
  }

  // ---------------------------------------------------------------------
  // Closest local answer

  /** One theme of base_conhecimento: its key, its model question and its
      answer. */
  datatype Theme = Theme(key: string, pergunta: string, resposta: string)

  /** The running maximum of buscar_resposta_local over scores: the best score
      and its index, starting from 0 and replacing only on a strictly greater
      score; index -1 when no score beats 0. */
  function BestScore(scores: seq<real>): (r: (real, int))
    ensures r.1 == -1 <==> forall j :: 0 <= j < |scores| ==> scores[j] <= 0.0
    ensures r.1 == -1 ==> r.0 == 0.0
    ensures r.1 != -1 ==>
      && 0 <= r.1 < |scores| && r.0 == scores[r.1] && r.0 > 0.0
      && (forall j :: 0 <= j < |scores| ==> scores[j] <= r.0)
      && (forall j :: 0 <= j < r.1 ==> scores[j] < r.0)
  {
    if |scores| == 0 then (0.0, -1)
    else
      var prefix := scores[..|scores| - 1];
      var (b, i) := BestScore(prefix);
      assert forall j :: 0 <= j < |scores| - 1 ==> scores[j] == prefix[j];
      if scores[|scores| - 1] > b then (scores[|scores| - 1], |scores| - 1) else (b, i)
  }

  datatype LocalAnswer = LocalAnswer(answer: Option<string>, category: Option<string>, score: real)

  const NoLocalAnswer: LocalAnswer := LocalAnswer(None, None, 0.0)

  /** The similarity of the lower-cased question to every theme's question. */
  function Scores(question: string, base: seq<Theme>, sim: (string, string) -> real): (s: seq<real>)
    ensures |s| == |base|
    ensures forall i :: 0 <= i < |base| ==> s[i] == sim(ToLower(question), ToLower(base[i].pergunta))
  {
    seq(|base|, i requires 0 <= i < |base| => sim(ToLower(question), ToLower(base[i].pergunta)))
  }

  /** buscar_resposta_local: the first theme with the highest similarity,
      provided that similarity exceeds 0.5. */
  function LocalMatch(question: string, base: seq<Theme>, sim: (string, string) -> real): (m: LocalAnswer)
    ensures m.answer.Some? <==> exists i :: 0 <= i < |base| && Scores(question, base, sim)[i] > 0.5
    ensures m.answer.None? ==> m == NoLocalAnswer
    ensures m.answer.Some? ==> exists i :: 0 <= i < |base| && FirstBest(Scores(question, base, sim), i)
                                        && m == LocalAnswer(Some(base[i].resposta), Some(base[i].key), Scores(question, base, sim)[i])
  {
    var s := Scores(question, base, sim);
    var (b, i) := BestScore(s);
    if b > 0.5 then LocalAnswer(Some(base[i].resposta), Some(base[i].key), b)
    else NoLocalAnswer
  }

  /** Index i holds the maximum, and no earlier index reaches it. */
  predicate FirstBest(s: seq<real>, i: int) {
    && 0 <= i < |s|
    && (forall j :: 0 <= j < |s| ==> s[j] <= s[i])
    && (forall j :: 0 <= j < i ==> s[j] < s[i])
  }

  /** Only one index is the first maximum. */
  lemma FirstBestUnique(s: seq<real>, i: int, k: int)
    requires FirstBest(s, i) && FirstBest(s, k)
    ensures i == k
  {
    var si, sk := s[i], s[k];
  }

  /** The theme holding the first highest score above 0.5 is the answer; of
      themes tied at the top, the one listed first wins. */
  lemma LocalMatchIsFirstBest(question: string, base: seq<Theme>, sim: (string, string) -> real, i: int)
    requires FirstBest(Scores(question, base, sim), i)
    requires Scores(question, base, sim)[i] > 0.5
    ensures LocalMatch(question, base, sim)
         == LocalAnswer(Some(base[i].resposta), Some(base[i].key), Scores(question, base, sim)[i])
  {
    var s := Scores(question, base, sim);
    var m := LocalMatch(question, base, sim);
    var b :| 0 <= b < |base| && FirstBest(s, b)
      && m == LocalAnswer(Some(base[b].resposta), Some(base[b].key), s[b]);
    FirstBestUnique(s, b, i);
  }

  // ---------------------------------------------------------------------
  // The language model's message list

  datatype Role = System | UserRole | AssistantRole

  datatype Message = Message(role: Role, content: string)

  /** One exchange of the stored history. */
  datatype Record = Record(timestamp: string, pergunta: string, resposta: string,
                           categoria: Option<string>, fonte: Source, alertas: seq<string>)

  datatype Source = KnowledgeBase | LanguageModel | SupportMessage

  /** The `fonte` string reported for a source. */
  function SourceName(s: Source): string {
    match s
    case KnowledgeBase => "base_conhecimento"
    case LanguageModel => "openai"
    case SupportMessage => "mensagem_apoio"
  }

  /** historico[-10:]. */
  function LastTen(history: seq<Record>): (r: seq<Record>)
    ensures |r| == Min(|history|, 10)
    ensures r == history[|history| - |r|..]
  {
    if |history| <= 10 then history else history[|history| - 10..]
  }

  /** Each record becomes a user message holding its question followed by an
      assistant message holding its answer: record i is messages 2i and 2i+1. */
  function ExchangeMessages(records: seq<Record>): (ms: seq<Message>)
    ensures |ms| == 2 * |records|
    ensures forall i :: 0 <= i < |records| ==>
      ms[2 * i] == Message(UserRole, records[i].pergunta)
      && ms[2 * i + 1] == Message(AssistantRole, records[i].resposta)
  {
    if |records| == 0 then []
    else
      var tail := ExchangeMessages(records[1..]);
      ExchangePairsCons(records, tail);
      [Message(UserRole, records[0].pergunta), Message(AssistantRole, records[0].resposta)] + tail
  }

  /** The pairs of records[1..] behind the pair of records[0] are the pairs
      of records. */
  lemma ExchangePairsCons(records: seq<Record>, tail: seq<Message>)
    requires |records| > 0 && |tail| == 2 * (|records| - 1)
    requires forall i :: 0 <= i < |records| - 1 ==>
      tail[2 * i] == Message(UserRole, records[1..][i].pergunta)
      && tail[2 * i + 1] == Message(AssistantRole, records[1..][i].resposta)
    ensures var ms := [Message(UserRole, records[0].pergunta), Message(AssistantRole, records[0].resposta)] + tail;
      forall i :: 0 <= i < |records| ==>
        ms[2 * i] == Message(UserRole, records[i].pergunta)
        && ms[2 * i + 1] == Message(AssistantRole, records[i].resposta)
  {
    var ms := [Message(UserRole, records[0].pergunta), Message(AssistantRole, records[0].resposta)] + tail;
    forall i | 0 <= i < |records|
      ensures ms[2 * i] == Message(UserRole, records[i].pergunta)
      ensures ms[2 * i + 1] == Message(AssistantRole, records[i].resposta)
    {
      if i > 0 {
        assert records[1..][i - 1] == records[i];
        assert ms[2 * i] == tail[2 * (i - 1)];
        assert ms[2 * i + 1] == tail[2 * (i - 1) + 1];
      }
    }
  }

  /** The message list of gerar_resposta_openai: the persona (with the extra
      context when there is one), the last ten exchanges as question/answer
      pairs, then the new question. */
  function LlmMessages(persona: string, contexto: string, history: seq<Record>, question: string): (ms: seq<Message>)
    ensures |ms| == 2 + 2 * Min(|history|, 10)
    ensures ms[0].role == System && persona <= ms[0].content
    ensures ms[|ms| - 1] == Message(UserRole, question)
  {
    var system := if contexto != "" then persona + "\n\nContexto adicional: " + contexto else persona;
    [Message(System, system)] + ExchangeMessages(LastTen(history)) + [Message(UserRole, question)]
  }

  /** Message 1+2i is the i-th question of the window and 2+2i its answer;
      the window is the most recent records, oldest first. */
  lemma LlmMessagesWindow(persona: string, contexto: string, history: seq<Record>, question: string, i: nat)
    requires i < Min(|history|, 10)
    ensures var ms := LlmMessages(persona, contexto, history, question);
      var first := |history| - Min(|history|, 10);
      && ms[1 + 2 * i] == Message(UserRole, history[first + i].pergunta)
      && ms[2 + 2 * i] == Message(AssistantRole, history[first + i].resposta)
  {
    var w := LastTen(history);
    var ms := LlmMessages(persona, contexto, history, question);
    var ex := ExchangeMessages(w);
    assert ms[1 + 2 * i] == ex[2 * i];
    assert ms[2 + 2 * i] == ex[2 * i + 1];
  }

  // ---------------------------------------------------------------------
  // Source selection and the final answer

  /** The chat cascade. None when it falls through to a support message and
      there is none (random.choice raises on an empty list). The random
      choice is the caller's `pick`, reduced modulo the number of messages. */
  function SelectAnswer(local: LocalAnswer, llmReply: Option<string>, support: seq<string>, pick: nat): (r: Option<(string, Source)>)
    ensures r.Some? && r.value.1 == KnowledgeBase <==>
      Truthy(local.answer) && (local.score > 0.7 || !Truthy(llmReply))
    ensures r.Some? && r.value.1 == LanguageModel <==>
      !(Truthy(local.answer) && local.score > 0.7) && Truthy(llmReply)
    ensures r.Some? && r.value.1 == SupportMessage <==>
      !Truthy(local.answer) && !Truthy(llmReply) && |support| > 0
    ensures r.None? <==> !Truthy(local.answer) && !Truthy(llmReply) && |support| == 0
    ensures r.Some? && r.value.1 == KnowledgeBase ==> r.value.0 == local.answer.value
    ensures r.Some? && r.value.1 == LanguageModel ==> r.value.0 == llmReply.value
    ensures r.Some? && r.value.1 == SupportMessage ==> r.value.0 in support
  {
    if Truthy(local.answer) && local.score > 0.7 then Some((local.answer.value, KnowledgeBase))
    else if Truthy(llmReply) then Some((llmReply.value, LanguageModel))
    else if Truthy(local.answer) then Some((local.answer.value, KnowledgeBase))
    else if |support| > 0 then Some((support[pick % |support|], SupportMessage))
    else None
  }

  /** A confident local answer is never overridden by the language model. */
  lemma ConfidentLocalWins(local: LocalAnswer, llmReply: Option<string>, support: seq<string>, pick: nat)
    requires Truthy(local.answer) && local.score > 0.7
    ensures SelectAnswer(local, llmReply, support, pick) == Some((local.answer.value, KnowledgeBase))
  {
  }

  const AlertHeading: string := "\n\n**ALERTA IMPORTANTE:**\n"

  /** The text appended when an alert word was found: the heading, then
      every configured alert text, not only those of the words found. */
  function AlertBlock(alertTexts: seq<string>): (b: string)
    ensures AlertHeading <= b
  {
    AlertHeading + Join(alertTexts, "\n")
  }

  lemma AlertBlockListsEveryText(alertTexts: seq<string>, i: nat)
    requires i < |alertTexts|
    ensures Contains(AlertBlock(alertTexts), alertTexts[i])
  {
    JoinContainsParts(alertTexts, "\n", i);
    ContainsInSuffix(AlertHeading, Join(alertTexts, "\n"), alertTexts[i]);
  }

  /** The chosen answer, then the alert block when alerts were found, then
      the phone text. */
  function FinalAnswer(chosen: string, alerts: seq<string>, alertTexts: seq<string>, phones: string): (r: string)
    ensures chosen <= r
    ensures |alerts| > 0 ==> AlertHeading <= r[|chosen|..]
    ensures |alerts| == 0 ==> r[|chosen|..] == phones
  {
    if |alerts| > 0 then
      assert (chosen + AlertBlock(alertTexts) + phones)[|chosen|..] == AlertBlock(alertTexts) + phones;
      chosen + AlertBlock(alertTexts) + phones
    else chosen + phones
  }

  /** With an alert word, the answer carries every configured alert text and
      ends with the phone text. */
  lemma FinalAnswerCarriesAlerts(chosen: string, alerts: seq<string>, alertTexts: seq<string>, phones: string, i: nat)
    requires |alerts| > 0 && i < |alertTexts|
    ensures Contains(FinalAnswer(chosen, alerts, alertTexts, phones), alertTexts[i])
    ensures phones <= FinalAnswer(chosen, alerts, alertTexts, phones)[|FinalAnswer(chosen, alerts, alertTexts, phones)| - |phones|..]
  {
    var block := AlertBlock(alertTexts);
    AlertBlockListsEveryText(alertTexts, i);
    ContainsInPrefix(block, phones, alertTexts[i]);
    ContainsInSuffix(chosen, block + phones, alertTexts[i]);
    assert chosen + block + phones == chosen + (block + phones);
    var r := FinalAnswer(chosen, alerts, alertTexts, phones);
    assert r[|r| - |phones|..] == phones;
  }

  /** Without alert words the alert heading is never placed after the
      answer: the phone text starts with a single line break. */
  lemma NoAlertsNoHeading(chosen: string, question: string, alertTexts: seq<string>, p: Phones)
    ensures !(AlertHeading <= FinalAnswer(chosen, [], alertTexts, PhoneText(question, [], p))[|chosen|..])
  {
    var phones := PhoneText(question, [], p);
    var r := FinalAnswer(chosen, [], alertTexts, phones);
    assert r[|chosen|..] == phones;
    if phones != "" {
      var lines := PhoneLines(question, [], p);
      assert lines[0] == CvvHeader;
      assert CvvHeader <= phones;
      assert phones[1] == CvvHeader[1];
      assert AlertHeading[1] != CvvHeader[1];
    }
  }

  // ---------------------------------------------------------------------
  // chat and the routes

  /** The data files the chatbot loads, the persona prompt, and whether a
      language model client exists. */
  datatype Config = Config(base: seq<Theme>, support: seq<string>, alertTexts: seq<string>,
                           phones: Phones, persona: string, llmAvailable: bool)

  type History = map<string, seq<Record>>

  function HistoryOf(conv: History, userId: string): seq<Record> {
    if userId in conv then conv[userId] else []
  }

  datatype Reply = Reply(resposta: string, categoria: Option<string>, fonte: Source, alertas: seq<string>, timestamp: string)

  /** The language model's answer as chat sees it: not asked when the local
      answer is confident, None without a client, otherwise its reply to the
      message list built from the user's history (None for an error). */
  function ModelReply(cfg: Config, history: seq<Record>, question: string, local: LocalAnswer,
                      llm: seq<Message> -> Option<string>): (r: Option<string>)
    ensures (Truthy(local.answer) && local.score > 0.7) || !cfg.llmAvailable ==> r == None
    ensures !(Truthy(local.answer) && local.score > 0.7) && cfg.llmAvailable ==>
      r == llm(LlmMessages(cfg.persona, "", history, question))
  {
    if Truthy(local.answer) && local.score > 0.7 then None
    else if cfg.llmAvailable then llm(LlmMessages(cfg.persona, "", history, question))
    else None
  }

  /** ChatbotPuerperio.chat. None when random.choice would raise. */
  function Chat(cfg: Config, conv: History, question: string, userId: string,
                sim: (string, string) -> real, llm: seq<Message> -> Option<string>,
                pick: nat, timestamp: string): (r: Option<(History, Reply)>)
    ensures r.None? <==>
      var local := LocalMatch(question, cfg.base, sim);
      !Truthy(local.answer) && !Truthy(ModelReply(cfg, HistoryOf(conv, userId), question, local, llm)) && |cfg.support| == 0
    ensures r.Some? ==>
      var (conv', reply) := r.value;
      && conv'.Keys == conv.Keys + {userId}
      && conv'[userId] == HistoryOf(conv, userId)
           + [Record(timestamp, question, reply.resposta, reply.categoria, reply.fonte, reply.alertas)]
      && (forall u :: u in conv && u != userId ==> conv'[u] == conv[u])
      && reply.alertas == DetectAlerts(question)
      && reply.categoria == LocalMatch(question, cfg.base, sim).category
      && reply.timestamp == timestamp
  {
    var history := HistoryOf(conv, userId);
    var alerts := DetectAlerts(question);
    var local := LocalMatch(question, cfg.base, sim);
    match SelectAnswer(local, ModelReply(cfg, history, question, local, llm), cfg.support, pick)
    case None => None
    case Some((chosen, source)) =>
      var text := FinalAnswer(chosen, alerts, cfg.alertTexts, PhoneText(question, alerts, cfg.phones));
      var record := Record(timestamp, question, text, local.category, source, alerts);
      Some((conv[userId := history + [record]], Reply(text, local.category, source, alerts, timestamp)))
  }

  /** The chat answer starts with the cascade's choice, and the alert
      heading follows that choice exactly when an alert word was found. */
  lemma ChatAnswerShape(cfg: Config, conv: History, question: string, userId: string,
                        sim: (string, string) -> real, llm: seq<Message> -> Option<string>,
                        pick: nat, timestamp: string)
    requires Chat(cfg, conv, question, userId, sim, llm, pick, timestamp).Some?
    ensures var reply := Chat(cfg, conv, question, userId, sim, llm, pick, timestamp).value.1;
      var local := LocalMatch(question, cfg.base, sim);
      var choice := SelectAnswer(local, ModelReply(cfg, HistoryOf(conv, userId), question, local, llm), cfg.support, pick);
      && choice.Some?
      && reply.fonte == choice.value.1
      && choice.value.0 <= reply.resposta
      && (|reply.alertas| > 0 <==> AlertHeading <= reply.resposta[|choice.value.0|..])
  {
    var local := LocalMatch(question, cfg.base, sim);
    var (chosen, source) := SelectAnswer(local, ModelReply(cfg, HistoryOf(conv, userId), question, local, llm), cfg.support, pick).value;
    var alerts := DetectAlerts(question);
    if |alerts| == 0 {
      NoAlertsNoHeading(chosen, question, cfg.alertTexts, cfg.phones);
    }
  }

  /** A confident local answer makes the language model irrelevant: two
      different models yield the same chat result. */
  lemma ConfidentLocalSkipsModel(cfg: Config, conv: History, question: string, userId: string,
                                 sim: (string, string) -> real, llm1: seq<Message> -> Option<string>,
                                 llm2: seq<Message> -> Option<string>, pick: nat, timestamp: string)
    requires var local := LocalMatch(question, cfg.base, sim); Truthy(local.answer) && local.score > 0.7
    ensures Chat(cfg, conv, question, userId, sim, llm1, pick, timestamp)
         == Chat(cfg, conv, question, userId, sim, llm2, pick, timestamp)
    ensures Chat(cfg, conv, question, userId, sim, llm1, pick, timestamp).Some?
    ensures Chat(cfg, conv, question, userId, sim, llm1, pick, timestamp).value.1.fonte == KnowledgeBase
  {
  }

  /** A body of POST /api/chat, with absent fields as None. */
  datatype ChatRequest = ChatRequest(pergunta: Option<string>, userId: Option<string>)

  datatype ApiResponse =
    | BadRequest
    | ServerError
    | Answered(reply: Reply)

  /** api_chat: a blank question (by Python's strip) is refused with 400
      before anything is recorded; an absent user id is "default". */
  function ApiChat(cfg: Config, conv: History, body: ChatRequest,
                   sim: (string, string) -> real, llm: seq<Message> -> Option<string>,
                   pick: nat, timestamp: string): (r: (History, ApiResponse))
    ensures PyStrip(body.pergunta.GetOr("")) == "" ==> r == (conv, BadRequest)
    ensures r.1.BadRequest? <==> PyStrip(body.pergunta.GetOr("")) == ""
    ensures r.1.ServerError? <==>
      && PyStrip(body.pergunta.GetOr("")) != ""
      && Chat(cfg, conv, body.pergunta.GetOr(""), body.userId.GetOr("default"), sim, llm, pick, timestamp).None?
    ensures r.1.ServerError? ==> r.0 == conv
    ensures r.1.Answered? ==>
      Chat(cfg, conv, body.pergunta.GetOr(""), body.userId.GetOr("default"), sim, llm, pick, timestamp)
        == Some((r.0, r.1.reply))
    ensures
      && PyStrip(body.pergunta.GetOr("")) != ""
      && Chat(cfg, conv, body.pergunta.GetOr(""), body.userId.GetOr("default"), sim, llm, pick, timestamp).Some?
      ==>
      var (conv', reply) := Chat(cfg, conv, body.pergunta.GetOr(""), body.userId.GetOr("default"), sim, llm, pick, timestamp).value;
      r == (conv', Answered(reply))
  {
    var question := body.pergunta.GetOr("");
    var userId := body.userId.GetOr("default");
    if PyStrip(question) == "" then (conv, BadRequest)
    else
      match Chat(cfg, conv, question, userId, sim, llm, pick, timestamp)
      case None => (conv, ServerError)
      case Some((conv', reply)) => (conv', Answered(reply))
  }

  /** api_historico: the stored list, or [] for a user never seen. */
  function ApiHistorico(conv: History, userId: string): (h: seq<Record>)
    ensures userId !in conv ==> h == []
    ensures userId in conv ==> h == conv[userId]
  {
    HistoryOf(conv, userId)
  }

  /** After an answered question, the user's history ends with exactly that
      exchange, and every other user's history reads as before. */
  lemma AnsweredQuestionIsRecorded(cfg: Config, conv: History, body: ChatRequest,
                                   sim: (string, string) -> real, llm: seq<Message> -> Option<string>,
                                   pick: nat, timestamp: string, other: string)
    requires ApiChat(cfg, conv, body, sim, llm, pick, timestamp).1.Answered?
    ensures var (conv', resp) := ApiChat(cfg, conv, body, sim, llm, pick, timestamp);
      var uid := body.userId.GetOr("default");
      var h := ApiHistorico(conv', uid);
      && h == ApiHistorico(conv, uid) + [h[|h| - 1]]
      && h[|h| - 1].pergunta == body.pergunta.GetOr("")
      && h[|h| - 1].resposta == resp.reply.resposta
      && h[|h| - 1].fonte == resp.reply.fonte
      && h[|h| - 1].alertas == resp.reply.alertas
      && (other != uid ==> ApiHistorico(conv', other) == ApiHistorico(conv, other))
  {
    var question := body.pergunta.GetOr("");
    var uid := body.userId.GetOr("default");
    var (conv', resp) := ApiChat(cfg, conv, body, sim, llm, pick, timestamp);
    assert Chat(cfg, conv, question, uid, sim, llm, pick, timestamp) == Some((conv', resp.reply));
  }
}

/**
 The page and the server together: what sendMessage shows for a response of
 POST /api/chat, and what loadChatHistory later replays from
 GET /api/historico for the same exchange.
 */
module Exchange {
  import opened Text
  import opened ChatView
  import opened Backend

  /** How sendMessage reads a response: anything but a 2xx status throws and
      ends in the error apology; a body's resposta, categoria and alertas
      are passed on. */
  function OutcomeOf(resp: ApiResponse): (o: ChatOutcome)
    ensures o.RequestFailed? <==> !resp.Answered?
    ensures resp.Answered? ==> o.resposta == Some(resp.reply.resposta) && o.alertas == resp.reply.alertas
  {
    match resp
    case Answered(reply) => ChatOutcome.Answered(Some(reply.resposta), reply.categoria, reply.alertas)
    case _ => RequestFailed
  }

  /** The fields of a stored record that loadChatHistory reads. */
  function ItemOf(r: Record): HistoryItem {
    HistoryItem(r.pergunta, r.resposta, r.categoria, r.alertas)
  }

  /** The request sendMessage posts for the text in the input box. */
  function RequestFor(v: View): ChatRequest {
    ChatRequest(Some(JsTrim(v.input)), Some(v.userId))
  }

  /** Reloading the page replays an answered exchange exactly as it was
      shown when it was sent: the same question, the same answer, category
      and alert words. */
  lemma ReplayMatchesLiveExchange(v: View, cfg: Config, conv: History,
                                  sim: (string, string) -> real, llm: seq<Message> -> Option<string>,
                                  pick: nat, timestamp: string)
    requires JsTrim(v.input) != ""
    requires var resp := ApiChat(cfg, conv, RequestFor(v), sim, llm, pick, timestamp).1;
      resp.Answered? && resp.reply.resposta != ""
    ensures var (conv', resp) := ApiChat(cfg, conv, RequestFor(v), sim, llm, pick, timestamp);
      var shown := SendMessage(v, OutcomeOf(resp)).transcript;
      var stored := ApiHistorico(conv', v.userId);
      && |stored| > 0
      && shown[|v.transcript|..] == HistoryEntries([ItemOf(stored[|stored| - 1])])
  {
    var (conv', resp) := ApiChat(cfg, conv, RequestFor(v), sim, llm, pick, timestamp);
    StoredItemIsSentItem(v, cfg, conv, sim, llm, pick, timestamp);
    SendShowsReplayOf(v, resp.reply.resposta, resp.reply.categoria, resp.reply.alertas);
  }

  /** The record stored for an answered question holds the trimmed text the
      page sent and the fields of the reply the page received. */
  lemma StoredItemIsSentItem(v: View, cfg: Config, conv: History,
                             sim: (string, string) -> real, llm: seq<Message> -> Option<string>,
                             pick: nat, timestamp: string)
    requires ApiChat(cfg, conv, RequestFor(v), sim, llm, pick, timestamp).1.Answered?
    ensures var (conv', resp) := ApiChat(cfg, conv, RequestFor(v), sim, llm, pick, timestamp);
      var stored := ApiHistorico(conv', v.userId);
      && |stored| > 0
      && ItemOf(stored[|stored| - 1])
         == HistoryItem(JsTrim(v.input), resp.reply.resposta, resp.reply.categoria, resp.reply.alertas)
      && OutcomeOf(resp) == ChatOutcome.Answered(Some(resp.reply.resposta), resp.reply.categoria, resp.reply.alertas)
  {
    AnsweredQuestionIsRecorded(cfg, conv, RequestFor(v), sim, llm, pick, timestamp, v.userId);
  }

  /** The page trims with JavaScript's whitespace and the server with
      Python's. An information separator (U+001C) is text to the page but
      space to the server: the question is posted, refused with 400, and the
      page shows its error apology after it. */
  lemma SeparatorQuestionRefused(v: View, cfg: Config, conv: History,
                                 sim: (string, string) -> real, llm: seq<Message> -> Option<string>,
                                 pick: nat, timestamp: string)
    requires v.input == "\U{001C}"
    ensures JsTrim(v.input) == "\U{001C}"
    ensures ApiChat(cfg, conv, RequestFor(v), sim, llm, pick, timestamp) == (conv, BadRequest)
    ensures var shown := SendMessage(v, OutcomeOf(BadRequest)).transcript;
      shown[|v.transcript|..] == [UserEntry("\U{001C}"), Entry(Assistant, ErrorApology, None, [])]
  {
    SeparatorIsTextToPage(v.input);
    SeparatorIsSpaceToServer(v.input);
    var shown := SendMessage(v, RequestFailed).transcript;
    assert shown[|v.transcript|..] == [shown[|v.transcript|], shown[|v.transcript| + 1]];
  }

  lemma SeparatorIsTextToPage(s: string)
    requires s == "\U{001C}"
    ensures JsTrim(s) == s
  {
    TrimFixed(s, IsJsSpace);
  }

  lemma SeparatorIsSpaceToServer(s: string)
    requires s == "\U{001C}"
    ensures PyStrip(s) == ""
  {
    assert AllSatisfy(s, IsPySpace);
  }
}

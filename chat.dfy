/**
 * The chat composer and conversation list of the chat page
 * (`app/chat/chat-client.tsx`): detecting an `@query` at the caret, ranking
 * mention candidates, splicing a chosen handle into the draft, routing a
 * message to an agent, titling a conversation, and the component state
 * transitions `send`, `createConversation`, `setDefaultAgent` and
 * `applyMention`. The agent catalogue, message ids and timestamps are
 * parameters.
 */
module Chat {
  import opened Wrappers
  import opened Text
  import opened Agents

  /** The chat page identifies agents by string id. */
  type ChatAgent = Agent<string>

  datatype Role = User | Assistant

  datatype ChatMessage = ChatMessage(
    id: string,
    role: Role,
    agentId: Option<string>,
    content: string,
    createdAt: int)

  datatype Conversation = Conversation(
    id: string,
    title: string,
    defaultAgentId: string,
    messages: seq<ChatMessage>,
    updatedAt: int)

  /** An open `@query` in the draft: `query` spans `[start + 1, end)`. */
  datatype MentionState = MentionState(open: bool, query: string, start: nat, end: nat)

  /** The title of a conversation nobody has written in yet. */
  const NewTitle: string := "新会话"
  /** Characters of the first message kept in a title. */
  const TitleLimit: nat := 18
  /** The agent id used when the catalogue is empty. */
  const FallbackAgentId: string := "general"
  /** At most this many mention candidates are offered. */
  const CandidateLimit: nat := 8
  /** The name shown when the target agent is not in the catalogue. */
  const UnknownAgentName: string := "智能体"
  const WelcomeText: string := "欢迎来到 FunAiStation（前端 MVP）。你可以直接聊天，或在消息里输入 @智能体 来指定处理者。"
  const CreatedText: string := "已创建新会话。提示：输入 @研发助手 / @数据分析 等，可将本条消息定向给对应智能体。"

  /** The placeholder reply of the front-end-only chat. */
  function PlaceholderReply(agentName: string): string
  {
    "（MVP 占位回复）我将由 " + agentName + " 处理这条消息。\n\n下一步：我们会接入后端流式接口，把真实生成内容逐 token 输出到这里。"
  }

  // ---------------------------------------------------------------------
  // Routing a message: `pickMentionAgentId`

  /** `i` is the first agent, in catalogue order, whose handle occurs in `content`. */
  ghost predicate FirstMentioned(agents: seq<ChatAgent>, content: string, i: int)
  {
    0 <= i < |agents| && Includes(content, agents[i].handle)
    && forall j :: 0 <= j < i ==> !Includes(content, agents[j].handle)
  }

  /** The agent a message is routed to by mention: the first agent in
      catalogue order whose handle occurs anywhere in the content (not the
      mention that comes first in the text). */
  function MentionedAgentId(agents: seq<ChatAgent>, content: string): (r: Option<string>)
    ensures r.None? <==> forall i :: 0 <= i < |agents| ==> !Includes(content, agents[i].handle)
    ensures r.Some? ==> exists i :: FirstMentioned(agents, content, i) && agents[i].id == r.value
  {
    if agents == [] then None
    else if Includes(content, agents[0].handle) then
      assert FirstMentioned(agents, content, 0);
      Some(agents[0].id)
    else
      var r := MentionedAgentId(agents[1..], content);
      assert r.Some? ==> exists i :: FirstMentioned(agents, content, i) && agents[i].id == r.value by {
        if r.Some? {
          var i :| FirstMentioned(agents[1..], content, i) && agents[1..][i].id == r.value;
          assert FirstMentioned(agents, content, i + 1);
        }
      }
      assert r.None? <==> forall i :: 0 <= i < |agents| ==> !Includes(content, agents[i].handle) by {
        if r.None? {
          forall i | 0 <= i < |agents| ensures !Includes(content, agents[i].handle) {
            if i > 0 { assert agents[i] == agents[1..][i - 1]; }
          }
        }
      }
      r
  }

  /** `pickMentionAgentId(content)`: the search loop with early return. */
  method PickMentionAgentId(agents: seq<ChatAgent>, content: string) returns (r: Option<string>)
    ensures r == MentionedAgentId(agents, content)
  {
    var i := 0;
    while i < |agents|
      invariant 0 <= i <= |agents|
      invariant forall j :: 0 <= j < i ==> !Includes(content, agents[j].handle)
    {
      if Includes(content, agents[i].handle) {
        MentionedIsFirst(agents, content, i);
        return Some(agents[i].id);
      }
      i := i + 1;
    }
    return None;
  }

  /** The first mentioned agent is the one routed to. */
  lemma {:induction false} MentionedIsFirst(agents: seq<ChatAgent>, content: string, i: int)
    requires FirstMentioned(agents, content, i)
    ensures MentionedAgentId(agents, content) == Some(agents[i].id)
  {
    var r := MentionedAgentId(agents, content);
    var k :| FirstMentioned(agents, content, k) && agents[k].id == r.value;
    assert k == i;
  }

  // ---------------------------------------------------------------------
  // Conversation titles: `makeTitleFromFirstUserMessage`

  /** The title derived from the first message of a conversation: the
      trimmed, collapsed text when that is neither empty nor too long. */
  function MakeTitle(content: string): (r: string)
    ensures |r| <= TitleLimit + 1
    ensures var t := CollapseWhitespace(Trim(content));
            0 < |t| <= TitleLimit ==> r == t
  {
    var t := CollapseWhitespace(Trim(content));
    if |t| > TitleLimit then t[..TitleLimit] + ['…']
    else if t == [] then NewTitle
    else t
  }

  /** The new-conversation title holds no whitespace. */
  lemma {:induction false} NewTitleIsBare()
    ensures Collapsed(NewTitle) && Trimmed(NewTitle)
  {
    assert NewTitle == ['新', '会', '话'];
    assert !IsSpace('新') && !IsSpace('会') && !IsSpace('话');
  }

  /** A blank message is titled as a new conversation. */
  lemma {:induction false} MakeTitleOfBlank(content: string)
    requires forall i :: 0 <= i < |content| ==> IsSpace(content[i])
    ensures MakeTitle(content) == NewTitle
  {
    TrimEmptyIffBlank(content);
  }

  /** The normalised text of a message is collapsed, has no whitespace at
      either end, and keeps every non-whitespace character in order. */
  lemma {:induction false} NormalisedText(content: string)
    ensures var t := CollapseWhitespace(Trim(content));
            Collapsed(t) && Trimmed(t) && NonSpace(t) == NonSpace(content)
  {
    var s := Trim(content);
    TrimIsTrimmed(content);
    CollapseIsCollapsed(s);
    CollapseKeepsText(s);
    if s != [] {
      CollapseLast(s);
    }
    TrimKeepsText(content);
  }

  /** A title has no whitespace at either end. */
  lemma {:induction false} MakeTitleTrimmed(content: string)
    ensures var r := MakeTitle(content);
            r != [] && !IsSpace(r[0]) && !IsSpace(r[|r| - 1])
  {
    var t := CollapseWhitespace(Trim(content));
    NormalisedText(content);
    var r := MakeTitle(content);
    if |t| > TitleLimit {
      assert r[0] == t[0];
      assert r[|r| - 1] == '…';
    } else if t == [] {
      NewTitleIsBare();
    }
  }

  /** Inside a title, whitespace is a single plain space. */
  lemma {:induction false} MakeTitleCollapsed(content: string)
    ensures Collapsed(MakeTitle(content))
  {
    var t := CollapseWhitespace(Trim(content));
    if |t| > TitleLimit {
      CollapseIsCollapsed(Trim(content));
      CollapsedTruncate(t, TitleLimit, '…');
      assert MakeTitle(content) == t[..TitleLimit] + ['…'];
    } else if t == [] {
      NewTitleIsBare();
      assert MakeTitle(content) == NewTitle;
    } else {
      CollapseIsCollapsed(Trim(content));
      assert MakeTitle(content) == t;
    }
  }

  /** A title that is not truncated keeps every non-whitespace character of a
      non-blank message, in order. */
  lemma {:induction false} MakeTitleKeepsText(content: string)
    requires NonSpace(content) != []
    requires |CollapseWhitespace(Trim(content))| <= TitleLimit
    ensures NonSpace(MakeTitle(content)) == NonSpace(content)
  {
    NormalisedText(content);
  }

  /** A normalised text longer than eighteen characters is cut to its first
      eighteen characters followed by `…`, and the characters kept are the
      first non-whitespace characters of the message, in order. */
  lemma {:induction false} MakeTitleTruncated(content: string)
    requires |CollapseWhitespace(Trim(content))| > TitleLimit
    ensures var r := MakeTitle(content);
            var t := CollapseWhitespace(Trim(content));
            && |r| == TitleLimit + 1 && r[TitleLimit] == '…'
            && r[..TitleLimit] == t[..TitleLimit]
            && NonSpace(r[..TitleLimit]) <= NonSpace(content)
  {
    var t := CollapseWhitespace(Trim(content));
    var r := MakeTitle(content);
    NormalisedText(content);
    assert r[..TitleLimit] == t[..TitleLimit];
    assert t == t[..TitleLimit] + t[TitleLimit..];
    NonSpaceAppend(t[..TitleLimit], t[TitleLimit..]);
  }

  /** Titling a title changes nothing. */
  lemma {:induction false} MakeTitleIdempotent(content: string)
    ensures MakeTitle(MakeTitle(content)) == MakeTitle(content)
  {
    var r := MakeTitle(content);
    MakeTitleTrimmed(content);
    MakeTitleCollapsed(content);
    TrimOfTrimmed(r);
    CollapseOfCollapsed(r);
    var t := CollapseWhitespace(Trim(content));
    if |t| > TitleLimit {
      assert r[..TitleLimit] == t[..TitleLimit];
    }
  }

  // ---------------------------------------------------------------------
  // Mention detection: `computeMentionState`

  /** `k` is an `@` of `before` that opens a mention reaching the caret: it is
      the last `@`, it starts the text or follows whitespace, and no
      whitespace follows it. */
  ghost predicate MentionAt(before: string, k: int)
  {
    && 0 <= k < |before|
    && before[k] == '@'
    && (k == 0 || IsSpace(before[k - 1]))
    && forall j :: k < j < |before| ==> before[j] != '@' && !IsSpace(before[j])
  }

  /** `computeMentionState(value, caret)` */
  function ComputeMentionState(value: string, caret: nat): (r: Option<MentionState>)
    ensures var before := SliceTo(value, caret);
            && (r.Some? <==> exists k :: MentionAt(before, k))
            && (r.Some? ==> (&& MentionAt(before, r.value.start) && r.value.open && r.value.end == caret
                            && r.value.query == before[r.value.start + 1..]))
  {
    var before := SliceTo(value, caret);
    var at := LastIndexOf(before, '@');
    MentionAtLast(before, at);
    if at < 0 then None
    else if at > 0 && !IsSpace(before[at - 1]) then None
    else
      var query := before[at + 1..];
      if HasSpace(query) then None
      else Some(MentionState(true, query, at, caret))
  }

  /** Only the last `@` before the caret can open a mention, and it does
      exactly when it starts the text or follows whitespace and no
      whitespace follows it. */
  lemma {:induction false} MentionAtLast(before: string, at: int)
    requires at == LastIndexOf(before, '@')
    ensures forall k :: MentionAt(before, k) ==> k == at
    ensures (exists k :: MentionAt(before, k)) <==>
              at >= 0 && (at == 0 || IsSpace(before[at - 1])) && !HasSpace(before[at + 1..])
  {
    if at >= 0 {
      var query := before[at + 1..];
      assert forall j :: at < j < |before| ==> before[j] == query[j - at - 1];
      if (at == 0 || IsSpace(before[at - 1])) && !HasSpace(query) {
        assert MentionAt(before, at);
      }
    }
  }

  /** An open mention's query holds neither whitespace nor `@`, so trimming it
      changes nothing, and it begins right after an `@` inside the text. */
  lemma {:induction false} MentionQueryIsBare(value: string, caret: nat, m: MentionState)
    requires ComputeMentionState(value, caret) == Some(m)
    ensures && !HasSpace(m.query) && '@' !in m.query && Trim(m.query) == m.query
            && m.start < |value| && value[m.start] == '@' && m.start + 1 + |m.query| <= m.end
  {
    MentionStateBare(value, caret, m);
  }

  /** The facts about a mention read off the text before the caret. */
  lemma {:induction false} MentionStateBare(value: string, caret: nat, m: MentionState)
    requires var before := SliceTo(value, caret);
             MentionAt(before, m.start) && m.query == before[m.start + 1..] && m.end == caret
    ensures && !HasSpace(m.query) && '@' !in m.query && Trim(m.query) == m.query
            && m.start < |value| && value[m.start] == '@' && m.start + 1 + |m.query| <= m.end
  {
    var before := SliceTo(value, caret);
    QueryAfterMention(before, m.start);
    TrimOfTrimmed(m.query);
    assert value[m.start] == before[m.start];
  }

  /** What follows the `@` of a mention up to the caret holds neither
      whitespace nor `@`. */
  lemma {:induction false} QueryAfterMention(before: string, k: int)
    requires MentionAt(before, k)
    ensures var q := before[k + 1..];
            !HasSpace(q) && '@' !in q && Trimmed(q) && k + 1 + |q| == |before|
  {
    var q := before[k + 1..];
    assert forall i :: 0 <= i < |q| ==> q[i] == before[k + 1 + i];
    assert !HasSpace(q);
    assert '@' !in q;
    if q != [] {
      assert !IsSpace(q[0]) && !IsSpace(q[|q| - 1]);
    }
  }


  /** Without an `@` before the caret there is no mention. */
  lemma {:induction false} NoAtNoMention(value: string, caret: nat)
    requires '@' !in SliceTo(value, caret)
    ensures ComputeMentionState(value, caret).None?
  {
    var before := SliceTo(value, caret);
    forall k | 0 <= k < |before| ensures !MentionAt(before, k) {
      assert before[k] in before;
    }
  }

  // ---------------------------------------------------------------------
  // Mention candidates: the `mentionCandidates` filter

  /** The autocomplete filter for one agent against a lower-cased query. */
  predicate MatchesQuery(a: ChatAgent, q: string)
  {
    || q == []
    || Includes(Lower(a.name), q)
    || Includes(Lower(a.handle), q)
    || (exists i :: 0 <= i < |a.tags| && Includes(Lower(a.tags[i]), q))
    || (exists i :: 0 <= i < |a.capabilities| && Includes(Lower(a.capabilities[i]), q))
  }

  /** `agents.filter(...)`: the matching agents in catalogue order. */
  function FilterAgents(agents: seq<ChatAgent>, q: string): seq<ChatAgent>
  {
    if agents == [] then []
    else (if MatchesQuery(agents[0], q) then [agents[0]] else []) + FilterAgents(agents[1..], q)
  }

  /** The filter keeps exactly the matching agents: everything it returns is
      a matching agent of the catalogue, and every matching agent is returned. */
  lemma {:induction false} FilterAgentsSpec(agents: seq<ChatAgent>, q: string)
    ensures |FilterAgents(agents, q)| <= |agents|
    ensures forall a :: a in FilterAgents(agents, q) <==> a in agents && MatchesQuery(a, q)
  {
    if agents != [] {
      FilterAgentsSpec(agents[1..], q);
      assert agents == [agents[0]] + agents[1..];
    }
  }

  /** Filtering distributes over concatenation: the filter keeps catalogue order. */
  lemma {:induction false} FilterAgentsAppend(a: seq<ChatAgent>, b: seq<ChatAgent>, q: string)
    ensures FilterAgents(a + b, q) == FilterAgents(a, q) + FilterAgents(b, q)
  {
    if a == [] {
      assert a + b == b;
    } else {
      FilterAgentsAppend(a[1..], b, q);
      var head := if MatchesQuery(a[0], q) then [a[0]] else [];
      calc {
        FilterAgents(a + b, q);
        { assert (a + b)[0] == a[0]; assert (a + b)[1..] == a[1..] + b; }
        head + FilterAgents(a[1..] + b, q);
        head + (FilterAgents(a[1..], q) + FilterAgents(b, q));
        (head + FilterAgents(a[1..], q)) + FilterAgents(b, q);
        FilterAgents(a, q) + FilterAgents(b, q);
      }
    }
  }

  /** A blank query keeps every agent. */
  lemma {:induction false} FilterAgentsBlank(agents: seq<ChatAgent>)
    ensures FilterAgents(agents, []) == agents
  {
    if agents != [] {
      FilterAgentsBlank(agents[1..]);
    }
  }

  /** The lower-cased, trimmed query of the open mention, if any. */
  function CandidateQuery(mention: Option<MentionState>): string
  {
    Lower(Trim(if mention.Some? then mention.value.query else ""))
  }

  /** `mentionCandidates`: at most eight agents matching the query, the first
      ones in catalogue order, and none when no mention is open. */
  function MentionCandidates(agents: seq<ChatAgent>, mention: Option<MentionState>): (r: seq<ChatAgent>)
    ensures |r| <= CandidateLimit
    ensures mention.None? || !mention.value.open ==> r == []
    ensures forall a :: a in r ==> a in agents && MatchesQuery(a, CandidateQuery(mention))
    ensures mention.Some? && mention.value.open ==>
              var all := FilterAgents(agents, CandidateQuery(mention));
              |r| == Min(CandidateLimit, |all|) && r == all[..|r|]
  {
    var q := CandidateQuery(mention);
    if mention.None? || !mention.value.open then []
    else
      var all := FilterAgents(agents, q);
      FilterAgentsSpec(agents, q);
      var r := all[..Min(CandidateLimit, |all|)];
      assert forall a :: a in r ==> a in all;
      r
  }

  /** With a blank query the candidates are the first eight agents. */
  lemma {:induction false} MentionCandidatesBlank(agents: seq<ChatAgent>, m: MentionState)
    requires m.open && forall i :: 0 <= i < |m.query| ==> IsSpace(m.query[i])
    ensures MentionCandidates(agents, Some(m)) == agents[..Min(CandidateLimit, |agents|)]
  {
    TrimEmptyIffBlank(m.query);
    assert CandidateQuery(Some(m)) == [];
    FilterAgentsBlank(agents);
  }

  /** When at most eight agents match, every matching agent is offered. */
  lemma {:induction false} MentionCandidatesComplete(agents: seq<ChatAgent>, m: MentionState, a: ChatAgent)
    requires m.open && a in agents && MatchesQuery(a, CandidateQuery(Some(m)))
    requires |FilterAgents(agents, CandidateQuery(Some(m)))| <= CandidateLimit
    ensures a in MentionCandidates(agents, Some(m))
  {
    var q := CandidateQuery(Some(m));
    FilterAgentsSpec(agents, q);
    assert a in FilterAgents(agents, q);
    MentionCandidatesAll(agents, m);
  }

  /** When at most eight agents match, the candidates are all of them. */
  lemma {:induction false} MentionCandidatesAll(agents: seq<ChatAgent>, m: MentionState)
    requires m.open && |FilterAgents(agents, CandidateQuery(Some(m)))| <= CandidateLimit
    ensures MentionCandidates(agents, Some(m)) == FilterAgents(agents, CandidateQuery(Some(m)))
  {
    var all := FilterAgents(agents, CandidateQuery(Some(m)));
    var r := MentionCandidates(agents, Some(m));
    assert |r| == |all|;
    assert r == all[..|all|] == all;
  }

  // ---------------------------------------------------------------------
  // Inserting a chosen mention: `applyMention`

  /** The draft after the mention `m` is replaced by `handle` and a space. */
  function SpliceMention(draft: string, m: MentionState, handle: string): string
  {
    SliceTo(draft, m.start) + handle + " " + SliceFrom(draft, m.end)
  }

  /** The caret after the splice: right after the inserted space. */
  function SpliceCaret(draft: string, m: MentionState, handle: string): nat
  {
    |SliceTo(draft, m.start)| + |handle| + 1
  }

  /** For a mention inside the draft, the text before it and after it is
      kept, the mention is replaced by the handle and one space, and the
      caret lands after that space. */
  lemma {:induction false} SpliceMentionSpec(draft: string, m: MentionState, handle: string)
    requires m.start <= m.end <= |draft|
    ensures var r := SpliceMention(draft, m, handle);
            var caret := SpliceCaret(draft, m, handle);
            && caret == m.start + |handle| + 1
            && |r| == |draft| - (m.end - m.start) + |handle| + 1
            && r[..m.start] == draft[..m.start]
            && r[m.start..caret] == handle + " "
            && r[caret..] == draft[m.end..]
  {
    var r := SpliceMention(draft, m, handle);
    assert r == draft[..m.start] + (handle + " ") + draft[m.end..];
  }

  /** Right after a mention is inserted, the text before the caret ends in a
      space, so no mention is open there any more. */
  lemma {:induction false} SpliceClosesMention(draft: string, m: MentionState, handle: string)
    ensures ComputeMentionState(SpliceMention(draft, m, handle), SpliceCaret(draft, m, handle)).None?
  {
    var r := SpliceMention(draft, m, handle);
    var caret := SpliceCaret(draft, m, handle);
    var before := SliceTo(r, caret);
    assert |before| == caret;
    assert before[caret - 1] == ' ';
    assert IsSpace(before[caret - 1]);
  }

  // ---------------------------------------------------------------------
  // The initial default agent (lines 97-99)

  /** `AGENTS[0]?.id ?? "general"` */
  function CatalogueDefaultId(agents: seq<ChatAgent>): string
  {
    if agents != [] then agents[0].id else FallbackAgentId
  }

  /** `(agentFromUrl && getAgentById(agentFromUrl)?.id) ?? AGENTS[0]?.id ?? "general"`
      as written: an empty `?agent=` parameter is falsy but not nullish, so
      the expression yields the empty string instead of falling back. */
  function InitialAgentIdAsWritten(agentFromUrl: Option<string>, agents: seq<ChatAgent>): string
  {
    match agentFromUrl
    case None => CatalogueDefaultId(agents)
    case Some(s) =>
      if s == [] then s
      else match GetAgentById(agents, s)
        case Some(a) => a.id
        case None => CatalogueDefaultId(agents)
  }

  /** With `?agent=` and a catalogue whose ids are not empty, the default
      agent as written resolves to no agent at all. */
  lemma {:induction false} InitialAgentIdAsWrittenEmptyParam(agents: seq<ChatAgent>)
    requires forall i :: 0 <= i < |agents| ==> agents[i].id != ""
    ensures InitialAgentIdAsWritten(Some(""), agents) == ""
    ensures GetAgentById(agents, InitialAgentIdAsWritten(Some(""), agents)).None?
  {
    GetAgentByIdSpec(agents, "");
  }

  /** The initial default agent with an empty parameter treated as absent. */
  function InitialAgentId(agentFromUrl: Option<string>, agents: seq<ChatAgent>): (r: string)
    ensures agentFromUrl != Some("") ==> r == InitialAgentIdAsWritten(agentFromUrl, agents)
  {
    match agentFromUrl
    case None => CatalogueDefaultId(agents)
    case Some(s) =>
      if s == [] then CatalogueDefaultId(agents)
      else match GetAgentById(agents, s)
        case Some(a) => a.id
        case None => CatalogueDefaultId(agents)
  }

  /** With a non-empty catalogue the initial default agent is always an agent
      of the catalogue, whatever the URL says. */
  lemma {:induction false} InitialAgentIdResolves(agentFromUrl: Option<string>, agents: seq<ChatAgent>)
    requires agents != []
    ensures GetAgentById(agents, InitialAgentId(agentFromUrl, agents)).Some?
  {
    var id := InitialAgentId(agentFromUrl, agents);
    GetAgentByIdSpec(agents, id);
    GetAgentByIdSpec(agents, agents[0].id);
    if agentFromUrl.Some? && agentFromUrl.value != [] {
      GetAgentByIdSpec(agents, agentFromUrl.value);
    }
  }

  // ---------------------------------------------------------------------
  // Conversation updates

  /** A conversation after one exchange: the user message and the reply are
      appended, the title is derived from the message if the conversation
      still has the new-conversation title, and the time is updated. */
  function WithExchange(c: Conversation, content: string, userMsg: ChatMessage,
                        replyMsg: ChatMessage, now: int): Conversation
  {
    c.(title := if c.title == NewTitle then MakeTitle(content) else c.title,
       updatedAt := now,
       messages := c.messages + [userMsg, replyMsg])
  }

  /** An exchange keeps the id and the default agent, adds exactly the two
      messages in order after the old ones, keeps any title other than the
      new-conversation one, replaces that one by the title made from the
      message, and never makes a title longer than nineteen characters. */
  lemma {:induction false} WithExchangeSpec(c: Conversation, content: string, userMsg: ChatMessage,
                         replyMsg: ChatMessage, now: int)
    ensures var d := WithExchange(c, content, userMsg, replyMsg, now);
            && d.id == c.id && d.defaultAgentId == c.defaultAgentId && d.updatedAt == now
            && |d.messages| == |c.messages| + 2
            && d.messages[..|c.messages|] == c.messages
            && d.messages[|c.messages|] == userMsg && d.messages[|c.messages| + 1] == replyMsg
            && (c.title != NewTitle ==> d.title == c.title)
            && (c.title == NewTitle ==> d.title == MakeTitle(content))
            && (|c.title| <= TitleLimit + 1 ==> |d.title| <= TitleLimit + 1)
  {
  }

  /** `prev.map(c => c.id === id ? WithExchange(c, ...) : c)` */
  function AppendExchange(convs: seq<Conversation>, id: string, content: string,
                          userMsg: ChatMessage, replyMsg: ChatMessage, now: int): (r: seq<Conversation>)
    ensures |r| == |convs|
    ensures forall i :: 0 <= i < |convs| && convs[i].id != id ==> r[i] == convs[i]
    ensures forall i :: 0 <= i < |convs| && convs[i].id == id ==>
              r[i] == WithExchange(convs[i], content, userMsg, replyMsg, now)
  {
    seq(|convs|, i requires 0 <= i < |convs| =>
      if convs[i].id == id then WithExchange(convs[i], content, userMsg, replyMsg, now) else convs[i])
  }

  /** `prev.map(c => c.id === id ? { ...c, defaultAgentId, updatedAt } : c)` */
  function SetDefaultIn(convs: seq<Conversation>, id: string, agentId: string, now: int): (r: seq<Conversation>)
    ensures |r| == |convs|
    ensures forall i :: 0 <= i < |convs| && convs[i].id != id ==> r[i] == convs[i]
    ensures forall i :: 0 <= i < |convs| && convs[i].id == id ==>
              r[i] == convs[i].(defaultAgentId := agentId, updatedAt := now)
  {
    seq(|convs|, i requires 0 <= i < |convs| =>
      if convs[i].id == id then convs[i].(defaultAgentId := agentId, updatedAt := now) else convs[i])
  }

  /** The conversation `createConversation` prepends. */
  function NewConversation(id: string, defaultAgentId: string, messageId: string, greeting: string, now: int): Conversation
  {
    Conversation(id, NewTitle, defaultAgentId,
                 [ChatMessage(messageId, Assistant, Some(defaultAgentId), greeting, now)], now)
  }

  /** Every conversation has a message and a title of at most nineteen characters. */
  ghost predicate WellFormed(convs: seq<Conversation>)
  {
    forall i :: 0 <= i < |convs| ==> |convs[i].messages| >= 1 && |convs[i].title| <= TitleLimit + 1
  }

  /** Appending an exchange keeps every conversation well formed. */
  lemma {:induction false} AppendExchangeWellFormed(convs: seq<Conversation>, id: string, content: string,
                                                    userMsg: ChatMessage, replyMsg: ChatMessage, now: int)
    requires WellFormed(convs)
    ensures WellFormed(AppendExchange(convs, id, content, userMsg, replyMsg, now))
  {
    var r := AppendExchange(convs, id, content, userMsg, replyMsg, now);
    forall i | 0 <= i < |r|
      ensures |r[i].messages| >= 1 && |r[i].title| <= TitleLimit + 1
    {
      if convs[i].id == id {
        WithExchangeSpec(convs[i], content, userMsg, replyMsg, now);
      }
    }
  }

  /** `i` is the first conversation of the list with the given id. */
  ghost predicate FirstWithId(convs: seq<Conversation>, id: string, i: int)
  {
    0 <= i < |convs| && convs[i].id == id && forall j :: 0 <= j < i ==> convs[j].id != id
  }

  /** The state of the chat page component. */
  class ChatClient {
    var conversations: seq<Conversation>
    var activeId: string
    var draft: string
    var mention: Option<MentionState>

    ghost predicate Valid()
      reads this
    {
      WellFormed(conversations)
    }

    /** `active`: the conversation with the active id, else the first one. */
    function Active(): (r: Option<Conversation>)
      reads this
      ensures r.None? <==> conversations == []
      ensures r.Some? ==> r.value in conversations
      ensures r.Some? && r.value.id != activeId ==> r.value == conversations[0]
      ensures forall i :: FirstWithId(conversations, activeId, i) ==> r == Some(conversations[i])
    {
      var id := activeId;
      var p := (c: Conversation) => c.id == id;
      match FindFirst(conversations, p)
      case Some(c) =>
        assert forall i :: FirstWithId(conversations, activeId, i) ==> conversations[i] == c by {
          var k :| IsFirstMatch(conversations, p, k) && conversations[k] == c;
          forall i | FirstWithId(conversations, activeId, i)
            ensures conversations[i] == c
          {
            assert !(k < i) && !(i < k);
          }
        }
        Some(c)
      case None => if conversations != [] then Some(conversations[0]) else None
    }

    /** The component's initial state: one new conversation, active, for the
        agent named in the URL or the first of the catalogue. */
    constructor (agentFromUrl: Option<string>, agents: seq<ChatAgent>,
                 conversationId: string, messageId: string, now: int)
      ensures conversations == [NewConversation(conversationId, InitialAgentId(agentFromUrl, agents),
                                                messageId, WelcomeText, now)]
      ensures activeId == conversationId && draft == [] && mention.None?
      ensures Valid()
    {
      var initial := InitialAgentId(agentFromUrl, agents);
      conversations := [NewConversation(conversationId, initial, messageId, WelcomeText, now)];
      activeId := conversationId;
      draft := [];
      mention := None;
    }

    /** The effect at lines 129-131: an empty active id takes the first
        conversation's id. */
    method SyncActiveId()
      modifies this`activeId
      ensures activeId == if old(activeId) == [] && conversations != [] && conversations[0].id != []
                          then conversations[0].id else old(activeId)
    {
      if activeId == [] && conversations != [] && conversations[0].id != [] {
        activeId := conversations[0].id;
      }
    }

    /** Selecting a conversation in the list. */
    method SelectConversation(id: string)
      modifies this`activeId
      ensures activeId == id
    {
      activeId := id;
    }

    /** `onChange(next)`: the draft is replaced; the mention is recomputed later. */
    method OnChange(next: string)
      modifies this`draft
      ensures draft == next
    {
      draft := next;
    }

    /** `updateMentionFromCaret(draft)`: the caret is the textarea's selection
        start, or the end of the draft when there is no textarea. */
    method UpdateMentionFromCaret(selectionStart: Option<nat>)
      modifies this`mention
      ensures mention == ComputeMentionState(draft, if selectionStart.Some? then selectionStart.value else |draft|)
    {
      var caret := if selectionStart.Some? then selectionStart.value else |draft|;
      mention := ComputeMentionState(draft, caret);
    }

    /** `applyMention(agentId)`: replaces the open mention by the agent's
        handle and a space and closes the mention; returns the new caret, or
        nothing when the agent is unknown or no mention is open. */
    method ApplyMention(agents: seq<ChatAgent>, agentId: string) returns (caret: Option<nat>)
      modifies this`draft, this`mention
      ensures var a := GetAgentById(agents, agentId);
              if a.None? || old(mention).None? then
                caret.None? && draft == old(draft) && mention == old(mention)
              else
                && draft == SpliceMention(old(draft), old(mention).value, a.value.handle)
                && caret == Some(SpliceCaret(old(draft), old(mention).value, a.value.handle))
                && mention.None?
    {
      var a := GetAgentById(agents, agentId);
      if a.None? || mention.None? {
        return None;
      }
      var m := mention.value;
      var insert := a.value.handle + " ";
      var head := SliceTo(draft, m.start);
      draft := head + insert + SliceFrom(draft, m.end);
      caret := Some(|head + insert|);
      mention := None;
    }

    /** `createConversation(withAgentId)`: a new conversation for the given
        agent, or the first of the catalogue, is put first and made active,
        and the composer is cleared. */
    method CreateConversation(agents: seq<ChatAgent>, withAgentId: Option<string>,
                              id: string, messageId: string, now: int)
      requires Valid()
      modifies this
      ensures Valid()
      ensures var defaultAgentId := if withAgentId.Some? then withAgentId.value else CatalogueDefaultId(agents);
              conversations == [NewConversation(id, defaultAgentId, messageId, CreatedText, now)] + old(conversations)
      ensures activeId == id && draft == [] && mention.None?
      ensures Active() == Some(conversations[0])
    {
      var defaultAgentId := if withAgentId.Some? then withAgentId.value else CatalogueDefaultId(agents);
      var c := NewConversation(id, defaultAgentId, messageId, CreatedText, now);
      conversations := [c] + conversations;
      activeId := id;
      draft := [];
      mention := None;
      assert conversations[0].id == activeId;
    }

    /** `setDefaultAgent(agentId)`: only the active conversation changes. */
    method SetDefaultAgent(agentId: string, now: int)
      requires Valid()
      modifies this`conversations
      ensures Valid()
      ensures old(Active()).None? ==> conversations == old(conversations)
      ensures old(Active()).Some? ==> conversations == SetDefaultIn(old(conversations), old(Active()).value.id, agentId, now)
    {
      var active := Active();
      if active.None? {
        return;
      }
      conversations := SetDefaultIn(conversations, active.value.id, agentId, now);
    }

    /** `send()`: a non-blank draft becomes a user message and a placeholder
        reply from the mentioned agent, or else the conversation's default
        agent, appended to the active conversation; the composer is cleared. */
    method Send(agents: seq<ChatAgent>, userMessageId: string, replyMessageId: string, now: int)
      requires Valid()
      modifies this`conversations, this`draft, this`mention
      ensures Valid()
      ensures old(Active()).None? || Trim(old(draft)) == [] ==>
                conversations == old(conversations) && draft == old(draft) && mention == old(mention)
      ensures old(Active()).Some? && Trim(old(draft)) != [] ==>
                var content := Trim(old(draft));
                var active := old(Active()).value;
                var target := MessageTarget(agents, content, active.defaultAgentId);
                && conversations == AppendExchange(old(conversations), active.id, content,
                                                   ChatMessage(userMessageId, User, None, content, now),
                                                   ReplyMessage(agents, replyMessageId, target, now), now)
                && draft == [] && mention.None?
    {
      var active := Active();
      if active.None? {
        return;
      }
      var content := Trim(draft);
      if content == [] {
        return;
      }
      var picked := PickMentionAgentId(agents, content);
      var target := if picked.Some? then picked.value else active.value.defaultAgentId;
      var userMsg := ChatMessage(userMessageId, User, None, content, now);
      var replyMsg := ReplyMessage(agents, replyMessageId, target, now);
      AppendExchangeWellFormed(conversations, active.value.id, content, userMsg, replyMsg, now);
      conversations := AppendExchange(conversations, active.value.id, content, userMsg, replyMsg, now);
      draft := [];
      mention := None;
    }
  }

  /** The agent a sent message is for: the mentioned one, else the default. */
  function MessageTarget(agents: seq<ChatAgent>, content: string, defaultAgentId: string): string
  {
    match MentionedAgentId(agents, content)
    case Some(id) => id
    case None => defaultAgentId
  }

  /** The placeholder reply, attributed to `target`. */
  function ReplyMessage(agents: seq<ChatAgent>, id: string, target: string, now: int): ChatMessage
  {
    var name := match GetAgentById(agents, target)
      case Some(a) => a.name
      case None => UnknownAgentName;
    ChatMessage(id, Assistant, Some(target), PlaceholderReply(name), now)
  }

  /** A message mentioning an agent's handle goes to the first such agent of
      the catalogue; a message mentioning none goes to the default agent. */
  lemma {:induction false} MessageTargetSpec(agents: seq<ChatAgent>, content: string, defaultAgentId: string)
    ensures (forall i :: 0 <= i < |agents| ==> !Includes(content, agents[i].handle)) ==>
              MessageTarget(agents, content, defaultAgentId) == defaultAgentId
    ensures forall i :: FirstMentioned(agents, content, i) ==>
              MessageTarget(agents, content, defaultAgentId) == agents[i].id
  {
    forall i | FirstMentioned(agents, content, i)
      ensures MessageTarget(agents, content, defaultAgentId) == agents[i].id
    {
      MentionedIsFirst(agents, content, i);
    }
  }
}

# fun-ai-station chat front end: a Dafny model

This project models the client-side core of the fun-ai-station web app. That core has three parts:

- **The chat page** (`src/app/chat/chat-client.tsx`). It covers the composer's `@`-mention detection, the candidate list, and inserting a chosen handle into the draft. It also covers routing a sent message to the first agent whose handle it mentions, deriving a conversation title from the first user message, and the conversation-list updates made by `send`, `createConversation` and `setDefaultAgent`. The page state is the class `Chat.ChatClient`. Its fields are the conversation list, the active id, the draft and the open mention. Each handler is a method that reassigns those fields.
- **Agent lookup** (`src/lib/agents.ts`). `findAgentById` takes a number, a numeric string, null or undefined. `findAgentByHandle` adds a missing `@` before it searches.
- **Request shaping** (`src/lib/api.ts`, with the token store of `src/lib/auth-storage.ts`):
  - joining the base URL and the path;
  - choosing the bearer token, and defaulting the `Accept` and `Authorization` headers;
  - building the error message from a failed response;
  - decoding a successful body;
  - clearing the stored token on a 401 in a browser.

The JavaScript primitives these rely on are modelled in two modules:

- `Text` covers `trim`, the `\s+` → `" "` collapse, `includes`, `lastIndexOf`, `slice` and ASCII `toLowerCase`.
- `JsNumbers` covers `Number(string)` on integer strings and the decimal rendering of a status code.

Modules: `Wrappers` (Option), `Text`, `JsNumbers`, `Agents`, `Api`, `Chat`.

The model follows the code, except for the one defect listed under Findings, where the page state uses the corrected rule. The mention-dispatch helpers `findMentionHits` and `buildDispatchPlan` belong to the other chat page, `src/app/(site)/chat/chat-client.tsx`, which is not part of this model. The page modelled here routes with `pickMentionAgentId` alone.

## Model

| member | source | states |
|---|---|---|
| Text.IncludesMeansOccurs | src/app/chat/chat-client.tsx:67 | `content.includes(q)` holds exactly when `q` occurs at some offset of `content` |
| Text.TrimStart | src/app/chat/chat-client.tsx:215 | the result is a suffix of the input that starts with a non-space, and what was dropped is all whitespace |
| Text.TrimEnd | src/app/chat/chat-client.tsx:215 | the result is a prefix of the input that ends with a non-space, and what was dropped is all whitespace |
| Text.TrimSpec | src/app/chat/chat-client.tsx:215 | `trim` returns a contiguous slice of the input; everything cut off on either side is whitespace (`Text.CutFromBothEnds`), starting where the start trim begins |
| Text.TrimIsTrimmed | src/app/chat/chat-client.tsx:73 | a trimmed string neither starts nor ends with whitespace |
| Text.TrimIdempotent | src/app/chat/chat-client.tsx:73 | trimming twice is trimming once |
| Text.TrimEmptyIffBlank | src/app/chat/chat-client.tsx:215-216 | `trim` yields the empty string exactly when every character is whitespace (both directions) |
| Text.TrimKeepsText | src/app/chat/chat-client.tsx:73 | `trim` keeps the non-space characters and their order |
| Text.CollapseIsCollapsed | src/app/chat/chat-client.tsx:73 | after `replace(/\s+/g, " ")` no whitespace character other than a single space remains, and no two spaces are adjacent |
| Text.CollapseKeepsText | src/app/chat/chat-client.tsx:73 | the collapse keeps the non-space characters and their order |
| Text.CollapseLast | src/app/chat/chat-client.tsx:73 | the collapse ends in whitespace exactly when its input does, so a trimmed string stays trimmed |
| Text.CollapsedTruncate | src/app/chat/chat-client.tsx:74 | a collapsed string cut short and ended with a non-space character, as a title ends with `…`, stays collapsed |
| Text.CollapseOfCollapsed | src/app/chat/chat-client.tsx:73 | collapsing an already collapsed string changes nothing |
| Text.TrimStartAppend | src/app/chat/chat-client.tsx:73 | trimming the start of a concatenation continues into the second part exactly when the first part is all whitespace, and otherwise keeps the second part whole |
| Text.CollapseSpaceAsBlank | src/app/chat/chat-client.tsx:73 | every whitespace character is treated as a space: replacing one by `' '` does not change the collapse |
| Text.CollapseAfterSpace | src/app/chat/chat-client.tsx:73 | after a whitespace character, only the rest without its leading whitespace affects the collapse |
| Text.CollapseDropSpace | src/app/chat/chat-client.tsx:73 | a whitespace run counts once: dropping the second of two adjacent whitespace characters does not change the collapse; with `Text.CollapseOfCollapsed` this fixes the collapse of every string |
| Text.IsSpace | src/app/chat/chat-client.tsx:89 | a character `\s` matches: the ECMAScript whitespace and line terminators |
| Text.HasSpace | src/app/chat/chat-client.tsx:91 | `/\s/.test(s)`: some character of the string is whitespace |
| Text.StartsWith | src/lib/api.ts:41 | `s.startsWith(p)`: the string begins with the prefix; used by `Api.JoinUrlSpec` and `Agents.NormalizeHandle` |
| Text.LastIndexOf | src/app/chat/chat-client.tsx:86 | the result is -1 when the character is absent; otherwise it is the index of its last occurrence |
| Text.Trim | src/app/chat/chat-client.tsx:73 | `s.trim()`, the start trim then the end trim; stated by `Text.TrimSpec` and `Text.TrimEmptyIffBlank` |
| Text.CollapseWhitespace | src/app/chat/chat-client.tsx:73 | the result is no longer than the input, is empty exactly when the input is, and starts with whitespace exactly when the input does |
| Text.Lower | src/app/chat/chat-client.tsx:138 | the result has the input's length, with each character lower-cased |
| Text.LowerIdempotent | src/lib/api.ts:46 | lower-casing twice is lower-casing once, which makes lower-cased header names stable |
| Text.Includes | src/app/chat/chat-client.tsx:67 | `s.includes(q)`; stated by `Text.IncludesMeansOccurs` |
| Text.SliceTo | src/app/chat/chat-client.tsx:85 | `s.slice(0, n)`: the prefix of length `min(n, |s|)` |
| Text.SliceFrom | src/app/chat/chat-client.tsx:166 | `s.slice(n)`: the suffix after the first `min(n, |s|)` characters |
| JsNumbers.ParseNumber | src/lib/agents.ts:26 | a blank string converts to 0, as `Number("")` does |
| JsNumbers.ParseNumberRejectsOtherChar | src/lib/agents.ts:26 | a string holding any character other than whitespace, a digit or a sign converts to a non-finite number, as `Number("abc")` gives `NaN` |
| JsNumbers.ParseDecimal | src/lib/agents.ts:26-27 | converting the decimal rendering of any integer gives back that integer |
| JsNumbers.Decimal | src/lib/api.ts:13 | `${res.status}`: the decimal rendering of an integer, never empty; stated by `JsNumbers.ParseDecimal` |
| Agents.FindFirst | src/lib/agents.ts:28 | the result is the first element satisfying the predicate, and None means no element satisfies it |
| Agents.GetAgentByIdSpec | src/app/chat/chat-client.tsx:163 | `getAgentById` returns the first agent with that id, or nothing when no agent has it |
| Agents.GetAgentById | src/app/chat/chat-client.tsx:163 | the page's lookup by id; stated by `Agents.GetAgentByIdSpec` |
| Agents.NumericId | src/lib/agents.ts:25-27 | null and undefined give no id; a number gives itself exactly when it is finite; a string gives its numeric conversion exactly when that is finite, so a non-numeric string gives no id (by `JsNumbers.ParseNumberRejectsOtherChar`) |
| Agents.FindAgentById | src/lib/agents.ts:21-29 | null or undefined finds nothing; a found agent is in the list, its id equals the normalised id, and no earlier agent has that id; when the normalised id exists and nothing is found, no agent carries it |
| Agents.FindByDecimalString | src/lib/agents.ts:26-28 | looking up the decimal string of an id finds the same agent as looking up the number |
| Agents.FindByBlankString | src/lib/agents.ts:26 | a blank string id is taken as 0 and finds the agent with id 0 |
| Agents.NormalizeHandle | src/lib/agents.ts:32 | the normalised handle starts with `@`; an `@`-prefixed handle is kept; otherwise `@` is prepended to it |
| Agents.NormalizeHandleIdempotent | src/lib/agents.ts:32 | normalising twice equals normalising once |
| Agents.FindAgentByHandle | src/lib/agents.ts:31-34 | a found agent is in the list and its handle equals the normalised handle; nothing is found exactly when no agent has that handle |
| Agents.FindAgentByHandleIsFirst | src/lib/agents.ts:33 | when agent `i` has the normalised handle, the lookup finds an agent at position `i` or earlier |
| Agents.FindAgentByHandleAtInsensitive | src/lib/agents.ts:32-33 | `x` and `@x` find the same agent |
| Api.ApiBaseUrl | src/lib/api.ts:6-10 | the environment's base URL when set, else `/api` |
| Api.StripTrailingSlashes | src/lib/api.ts:40 | the result is a prefix of the base that does not end in `/`, and what was removed is all `/` |
| Api.JoinUrlSpec | src/lib/api.ts:41 | the URL is the stripped base, then exactly one `/`, then the path without its leading `/` |
| Api.JoinUrlIgnoresTrailingSlash | src/lib/api.ts:40-41 | adding trailing slashes to the base does not change the URL |
| Api.JoinUrl | src/lib/api.ts:41 | the request URL; stated by `Api.JoinUrlSpec` |
| Api.ChooseToken | src/lib/api.ts:43 | `init.token ?? storedToken`; stated by `Api.ChooseTokenSpec` |
| Api.Headers.Has | src/lib/api.ts:46 | `headers.has(name)`, case-insensitively on the name |
| Api.ObjectMessage | src/lib/api.ts:21-27 | what an object body says; stated by `Api.ErrorMessagePriority` and `Api.ObjectMessageEmptyIff` |
| Api.ChooseTokenSpec | src/lib/api.ts:43 | an explicit token string wins; an absent or null token falls back to the stored one |
| Api.Headers.Set | src/lib/api.ts:46-47 | setting a header stores its value without leading or trailing HTTP whitespace under the lower-cased name and keeps every other header; it fails and changes nothing exactly when the name is not a token or the value is invalid, where the platform throws a `TypeError` |
| Api.RequestHeaders | src/lib/api.ts:45-47 | `accept` is added only when missing; `authorization` becomes the normalised `Bearer <token>` exactly when the token is a non-empty string; no other header changes |
| Api.PrepareHeaders | src/lib/api.ts:45-47 | it succeeds exactly when the bearer value is accepted, and the headers object then holds the headers described above; when setting `Authorization` throws, only `accept` has been added |
| Api.Headers.constructor | src/lib/api.ts:45 | `new Headers(init.headers ?? {})` on a valid header list holds the list `Api.NormalizeHeaders` gives |
| Api.NormalizeHeaders | src/lib/api.ts:45 | the platform's header list: a lower-case name is present exactly when the caller gave it in some case, and its value is every value given for it, normalised, in order, joined with `", "` |
| Api.AppendHeader | src/lib/api.ts:45 | one `append`: the name lower-cased, the value normalised, and joined to an earlier value for the same name; stated by `Api.NormalizeHeaders` |
| Api.JoinComma | src/lib/api.ts:45 | how a header given several values reads: the values joined with `", "`; stated by `Api.NormalizeHeaders` |
| Api.NormalizedNamesLowerCase | src/lib/api.ts:45 | every name in the header list is lower case, so no two names differ only in case |
| Api.RequestHeaderNamesLowerCase | src/lib/api.ts:45-47 | every header name of the request is lower case, so a caller's `Accept` or `Authorization` in any case is the entry `apiFetch` tests and replaces, never a second one |
| Api.CallerAcceptKept | src/lib/api.ts:45-46 | when the caller gives `Accept` in any case, the request's `accept` is the caller's values and `application/json` is not added |
| Api.PlainTextAcceptSent | src/lib/api.ts:45-46 | the caller headers `{ Accept: "text/plain" }` send `accept: text/plain` and nothing else for that name |
| Api.ValidHeaders | src/lib/api.ts:45 | the caller's header list is accepted, so `new Headers` does not throw, exactly when every name is a token and every value is valid |
| Api.BearerValue | src/lib/api.ts:47 | the `Authorization` value `` `Bearer ${token}` `` before normalisation |
| Api.BearerAccepted | src/lib/api.ts:47 | `headers.set("Authorization", …)` does not throw: the token is absent or empty, so nothing is set, or the bearer value is valid; stated by `Api.WideCharTokenRejected` and `Api.InnerNewlineTokenRejected` |
| Api.StripHttpStart | src/lib/api.ts:45-47 | the result is a suffix of the value that does not start with HTTP whitespace, and what was dropped is all HTTP whitespace |
| Api.StripHttpEnd | src/lib/api.ts:45-47 | the result is a prefix of the value that does not end with HTTP whitespace, and what was dropped is all HTTP whitespace |
| Api.NormalizeHeaderValue | src/lib/api.ts:45-47 | the value the platform stores for a header; stated by `Api.NormalizeHeaderValueSpec` |
| Api.NormalizeHeaderValueSpec | src/lib/api.ts:45-47 | a stored header value is a slice of the given one, only HTTP whitespace is cut off on either side, and none is left at either end |
| Api.ValidHeaderValue | src/lib/api.ts:45-47 | a value is accepted when every character is at most U+00FF and the normalised value holds no NUL, CR or LF; stated by `Api.WideCharTokenRejected` and `Api.InnerNewlineTokenRejected` |
| Api.ValidHeaderName | src/lib/api.ts:45-47 | a header name is accepted when it is a non-empty sequence of token characters; stated by `Api.FixedHeaderNamesValid` |
| Api.HeadersAccepted | src/lib/api.ts:45-47 | building the headers succeeds exactly when the caller's list is valid and so is the bearer value; stated by `Api.ApiFetch` |
| Api.FixedHeaderNamesValid | src/lib/api.ts:46-47 | the names `Accept` and `Authorization` are accepted header names |
| Api.AcceptValueValid | src/lib/api.ts:46 | the value `application/json` is accepted, and normalising leaves it as it is |
| Api.BearerDropsTrailingSpace | src/lib/api.ts:47 | trailing whitespace of a token is not sent: the `Authorization` value ends at the token's last non-whitespace character |
| Api.WideCharTokenRejected | src/lib/api.ts:47 | a token with a character above U+00FF makes building the headers throw |
| Api.InnerNewlineTokenRejected | src/lib/api.ts:47 | a token with a line break followed later by a non-whitespace character makes building the headers throw |
| Api.EmptyTokenSendsNoBearer | src/lib/api.ts:43-47 | an explicit empty token sends no bearer header, even when a token is stored |
| Api.Get | src/lib/api.ts:22 | a property read returns the last value given for that key in the object, and nothing when the key is absent |
| Api.StatusLine | src/lib/api.ts:13 | the fallback message is never empty and ends with a space followed by the status text |
| Api.StatusLineStatus | src/lib/api.ts:13 | what precedes the status text in the fallback message converts back to the status code |
| Api.ErrorMessage | src/lib/api.ts:12-34 | an empty body gives the status line; an unparseable body gives the raw text; a body that parses to a string gives that string, or the status line when the string is empty; a body that parses to null, a boolean, a number or an array gives the raw text |
| Api.ErrorMessagePriority | src/lib/api.ts:20-33 | for a body that parses to an object: a string `detail` is reported as it is, blank or not; a non-null `detail` of another kind is serialised; without a `detail`, a non-blank string `message` is reported; otherwise the raw body is |
| Api.ErrorMessageEmptyIff | src/lib/api.ts:14-33 | the error message is empty exactly when the body is an object whose `detail` is the empty string, given that serialisation never yields the empty string |
| Api.ObjectMessageEmptyIff | src/lib/api.ts:22-27 | the object branch yields the empty message exactly when `detail` is the empty string, given that serialisation never yields the empty string |
| Api.UsableMessage | src/lib/api.ts:27 | a `message` counts only when it is a string that is not blank; stated by `Api.ErrorMessagePriority` |
| Api.Ok | src/lib/api.ts:52 | `res.ok`: a status from 200 to 299; stated by `Api.ApiFetch` |
| Api.DecodeBody | src/lib/api.ts:62-67 | an empty body decodes to undefined; a parseable body decodes to the parsed value; an unparseable body decodes to the raw text |
| Api.TokenStore.AccessToken | src/lib/auth-storage.ts:3-6 | outside a browser there is no token; in a browser it is the stored token |
| Api.TokenStore.ClearAccessToken | src/lib/auth-storage.ts:14-18 | in a browser the token is removed and one `auth:token` event is raised; otherwise nothing changes |
| Api.ApiFetch | src/lib/api.ts:36-68 | a request is sent exactly when the caller's headers and the bearer value are valid, otherwise the call rejects with a `TypeError` and nothing else happens; the request URL and headers are as above; a 2xx response resolves to the decoded body; any other status rejects with the error message; a 401 in a browser also clears the token and raises `auth:token` then `auth:required`; otherwise the store is unchanged |
| Chat.MentionedAgentId | src/app/chat/chat-client.tsx:64-70 | the id of the first agent in catalogue order whose handle occurs in the content, or nothing when no handle occurs |
| Chat.PickMentionAgentId | src/app/chat/chat-client.tsx:64-70 | the loop over the catalogue returns the id described by the function above |
| Chat.MentionedIsFirst | src/app/chat/chat-client.tsx:66-67 | when agent `i` is the first whose handle occurs, it is picked, even if a later agent's handle occurs earlier in the text |
| Chat.MakeTitle | src/app/chat/chat-client.tsx:72-75 | a title is at most 19 characters long; when the trimmed, collapsed text is not empty and at most 18 characters long, the title is exactly that text |
| Chat.MakeTitleTruncated | src/app/chat/chat-client.tsx:74 | a normalised text longer than 18 characters gives its first 18 characters followed by `…`, 19 characters in all, and those 18 keep the message's first non-space characters in order |
| Chat.MakeTitleOfBlank | src/app/chat/chat-client.tsx:74 | blank content gives the new-conversation title |
| Chat.NormalisedText | src/app/chat/chat-client.tsx:73 | the trimmed, collapsed text is trimmed and collapsed and has the same non-space characters as the content |
| Chat.MakeTitleTrimmed | src/app/chat/chat-client.tsx:73-74 | a title is never empty and neither starts nor ends with whitespace |
| Chat.MakeTitleCollapsed | src/app/chat/chat-client.tsx:73-74 | a title has no whitespace other than single spaces |
| Chat.MakeTitleKeepsText | src/app/chat/chat-client.tsx:73-74 | a title that is not cut keeps every non-whitespace character of a non-blank message, in order |
| Chat.MakeTitleIdempotent | src/app/chat/chat-client.tsx:72-75 | making a title from a title gives the same title |
| Chat.ComputeMentionState | src/app/chat/chat-client.tsx:84-93 | a mention is open exactly when the last `@` before the caret is at the start or after whitespace, and the query after it has no whitespace; it spans from that `@` to the caret |
| Chat.MentionQueryIsBare | src/app/chat/chat-client.tsx:86-92 | an open mention's query contains no whitespace and no `@`, so trimming leaves it unchanged; the mention starts at an `@` of the text, and the query ends at or before the caret |
| Chat.NoAtNoMention | src/app/chat/chat-client.tsx:86-87 | no `@` before the caret means no mention |
| Chat.FilterAgentsSpec | src/app/chat/chat-client.tsx:140-147 | the filter keeps exactly the agents whose name, handle, a tag or a capability contains the lower-cased query, and returns no more agents than the catalogue has |
| Chat.FilterAgentsAppend | src/app/chat/chat-client.tsx:140-147 | filtering distributes over concatenation of catalogues, so catalogue order is kept |
| Chat.FilterAgentsBlank | src/app/chat/chat-client.tsx:141 | an empty query keeps every agent |
| Chat.MatchesQuery | src/app/chat/chat-client.tsx:141-147 | the filter test for one agent; used by `Chat.FilterAgentsSpec` |
| Chat.FilterAgents | src/app/chat/chat-client.tsx:140-147 | `AGENTS.filter(...)`; stated by `Chat.FilterAgentsSpec` and `Chat.FilterAgentsAppend` |
| Chat.CandidateQuery | src/app/chat/chat-client.tsx:138 | the trimmed, lower-cased query of the open mention; used by `Chat.MentionCandidates` |
| Chat.MentionCandidates | src/app/chat/chat-client.tsx:137-149 | at most 8 candidates; none when no mention is open; each candidate matches the query; they are the first min(8, n) of the filtered catalogue |
| Chat.MentionCandidatesBlank | src/app/chat/chat-client.tsx:138-141 | a query of only whitespace lists the first 8 agents of the catalogue |
| Chat.MentionCandidatesComplete | src/app/chat/chat-client.tsx:140-148 | when at most 8 agents match, every matching agent is a candidate |
| Chat.SpliceMentionSpec | src/app/chat/chat-client.tsx:165-167 | the draft before the mention and after it is kept; the mention becomes the handle and a space; the caret lands right after that space |
| Chat.SpliceClosesMention | src/app/chat/chat-client.tsx:165-170 | recomputing the mention at the new caret finds none |
| Chat.SpliceMention | src/app/chat/chat-client.tsx:165-166 | the draft after the splice; stated by `Chat.SpliceMentionSpec` |
| Chat.SpliceCaret | src/app/chat/chat-client.tsx:167 | the caret after the splice; stated by `Chat.SpliceMentionSpec` |
| Chat.InitialAgentIdAsWrittenEmptyParam | src/app/chat/chat-client.tsx:97-99 | as written, an empty `agent` parameter gives an initial agent id that names no agent |
| Chat.InitialAgentIdAsWritten | src/app/chat/chat-client.tsx:97-99 | the initial agent id as written; stated by `Chat.InitialAgentIdAsWrittenEmptyParam` and `Chat.InitialAgentId` |
| Chat.InitialAgentId | src/app/chat/chat-client.tsx:97-99 | the corrected initial agent id agrees with the code whenever the parameter is not the empty string |
| Chat.InitialAgentIdResolves | src/app/chat/chat-client.tsx:97-99 | with a non-empty catalogue, the corrected initial agent id always names an agent of the catalogue |
| Chat.WithExchangeSpec | src/app/chat/chat-client.tsx:236-246 | an exchange keeps the id and the default agent, appends exactly the user message and the reply after the old messages, keeps a title that is not the new-conversation one, gives a new-conversation one the title made from the content, and keeps titles at most 19 characters long |
| Chat.WithExchange | src/app/chat/chat-client.tsx:238-245 | one conversation after an exchange; stated by `Chat.WithExchangeSpec` |
| Chat.NewConversation | src/app/chat/chat-client.tsx:180-197 | the conversation `createConversation` prepends; stated by `Chat.ChatClient.CreateConversation` |
| Chat.AppendExchangeWellFormed | src/app/chat/chat-client.tsx:236-247 | appending an exchange keeps every conversation with at least one message and a title of at most 19 characters |
| Chat.AppendExchange | src/app/chat/chat-client.tsx:236-247 | only the conversation with the active id changes; the list keeps its length |
| Chat.SetDefaultIn | src/app/chat/chat-client.tsx:206-210 | only the conversation with the given id changes, and only in its default agent and time; the list keeps its length |
| Chat.MessageTargetSpec | src/app/chat/chat-client.tsx:218 | a message is for the first agent whose handle it mentions, else for the conversation's default agent |
| Chat.MessageTarget | src/app/chat/chat-client.tsx:218 | the target agent of a sent message; stated by `Chat.MessageTargetSpec` |
| Chat.PlaceholderReply | src/app/chat/chat-client.tsx:231 | the placeholder reply text, naming the agent that will handle the message |
| Chat.CatalogueDefaultId | src/app/chat/chat-client.tsx:99 | `AGENTS[0]?.id ?? "general"` (also line 181): the first catalogue id, or `general` for an empty catalogue; stated by `Chat.InitialAgentIdResolves` |
| Chat.ReplyMessage | src/app/chat/chat-client.tsx:227-234 | the placeholder reply from the target agent, named by the catalogue or else `智能体` |
| Chat.ChatClient.Active | src/app/chat/chat-client.tsx:124-127 | the active conversation is the first one in the list carrying the active id; when none carries it, it is the first conversation; it is absent only for an empty list |
| Chat.ChatClient.constructor | src/app/chat/chat-client.tsx:97-122 | the page starts with one active new conversation holding the welcome message from the initial agent, chosen by the corrected rule of `Chat.InitialAgentId`; the draft is empty and no mention is open |
| Chat.ChatClient.SyncActiveId | src/app/chat/chat-client.tsx:129-131 | an empty active id takes the first conversation's id |
| Chat.ChatClient.SelectConversation | src/app/chat/chat-client.tsx:295 | clicking a conversation makes it active |
| Chat.ChatClient.OnChange | src/app/chat/chat-client.tsx:157-160 | the draft becomes the new text |
| Chat.ChatClient.UpdateMentionFromCaret | src/app/chat/chat-client.tsx:151-155 | the mention is recomputed at the selection start, or at the end of the draft without one |
| Chat.ChatClient.ApplyMention | src/app/chat/chat-client.tsx:162-177 | an unknown agent or no open mention changes nothing; otherwise the mention is replaced by the handle and a space, the caret follows it, and the mention closes |
| Chat.ChatClient.CreateConversation | src/app/chat/chat-client.tsx:179-202 | a new conversation for the given agent, or else the first of the catalogue, is prepended to the old list and becomes active; the composer is cleared; well-formedness is kept |
| Chat.ChatClient.SetDefaultAgent | src/app/chat/chat-client.tsx:204-211 | only the active conversation's default agent and time change; nothing changes without an active conversation |
| Chat.ChatClient.Send | src/app/chat/chat-client.tsx:213-252 | a blank draft or no active conversation changes nothing; otherwise the trimmed draft and a reply from the target agent are appended to the active conversation only, and the composer is cleared; every conversation keeps at least one message and a title of at most 19 characters |

## Left out

- JSX rendering is not modelled, and neither is the ordering of the conversation list for display. These are presentation only. So are the page's other files, the other chat page, the login dialog, the sidebar and the header.
- `uid()` and `Date.now()` are not modelled. Ids and timestamps are parameters. One `now` stands for the several `Date.now()` calls within one handler.
- `queueMicrotask`, focusing the textarea and placing its caret are browser plumbing. `ApplyMention` returns the caret it would place. `OnChange` does not recompute the mention; `UpdateMentionFromCaret` is the deferred step.
- React's batching and functional updates are not modelled. Each handler acts on the current state, as if `prev` and the render-time `active` were the same snapshot.
- `fetch`, `res.text()`, `JSON.parse` and `JSON.stringify` are parameters: the response record and two functions. Request options other than the token and the headers are passed through unmodelled.
- The caller's `HeadersInit` is taken as its name/value pairs in order, which covers a record and an array of pairs; a `Headers` object passed as `init` is not distinguished from its pairs. The header list is modelled as `get` reads it: a map from lower-cased names to the values given for each name, joined with `", "`. The separate entries the platform keeps for a repeated name, and the way they are written on the wire, are not modelled. The platform's value normalisation and its `TypeError` for an invalid name or value are modelled. Whitespace is taken as the Fetch standard's HTTP whitespace, and validity is checked on characters, not on the bytes of an encoding.
- Api.ApiFetch: a `fetch` that itself rejects, for example on a network failure, is not modelled. The response is a parameter. Request options other than the token and the headers are not checked for the errors they could raise.
- `setAccessToken`, `listAgents` and `getAgent` are not modelled. They are not part of the core operations.
- `getAgentById` and `AGENTS` are not modelled as exports, because `src/lib/agents.ts` does not export them. The page's catalogue is a parameter, and `getAgentById` is a first-match lookup by string id. In the page, agent ids are strings, so `Agent` is generic over its id type.
- JsNumbers.ParseNumber handles blank strings and signed decimal integers, and treats every other string as non-finite. So an integer id written in exponent, hexadecimal or fractional notation (`"1e2"`, `"0x10"`, `"1.0"`) finds no agent, where the page would find the agent with id 100, 16 or 1. The same holds for binary and octal notation (`"0b11"`, `"0o7"`, which are 3 and 7). Decimal strings beyond 2^53 keep their exact value, where `Number` rounds them to the nearest double (`"9007199254740993"` becomes 9007199254740992). Its contract states the blank case, `JsNumbers.ParseNumberRejectsOtherChar` states that any character other than whitespace, digits and signs gives a non-finite number, and `JsNumbers.ParseDecimal` states the decimal round trip.
- String lengths count characters, not UTF-16 code units. A title cut at 18 characters may differ from the page's for text outside the Basic Multilingual Plane.
- Text.Lower maps only ASCII letters. Full Unicode case mapping is not modelled.
- Chat.ChatClient.constructor: it uses the corrected initial agent id of `Chat.InitialAgentId`, not the code as written. The two differ only for an empty `agent` parameter, where the page starts with the empty string as default agent (see Findings). `Chat.InitialAgentIdAsWritten` models the code as written.
- Api.ErrorMessageEmptyIff assumes that serialisation never yields the empty string. This holds of `JSON.stringify` on any parsed value.

## Findings

| source | as written | input that shows it | evidently intended | confidence | as-written member | corrected member |
|---|---|---|---|---|---|---|
| src/app/chat/chat-client.tsx:97-99 | the URL agent is combined with `&&` and then `??`; an empty parameter is falsy but not nullish, so the initial default agent id becomes the empty string | opening `/chat?agent=` | an empty `agent` parameter falls back to the first agent of the catalogue, like a missing one | high, not executed | Chat.InitialAgentIdAsWrittenEmptyParam | Chat.InitialAgentIdResolves |

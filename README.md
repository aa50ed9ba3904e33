# A verified model of the workspace, node, message, persona and summary routers

The backend stores, for each user, **workspaces**. A workspace holds **nodes**, which are
conversation threads, and each node is bound to one of six fixed **personas** (language models).
A node holds **messages** sent either by the user ("You") or by the model ("AI").

The **summary** endpoint works in five steps:
1. It takes the newest message of each of the caller's first 1000 nodes (in id order) whose stored workspace id is exactly the requested id string.
2. It renders those messages as numbered conversation blocks under a header.
3. It cuts the text to a 6000-token budget, estimated at three characters per token.
4. It embeds the text in a fixed prompt.
5. It sends the prompt once to persona "1"'s model.

The project models these parts of the backend:

- `ObjectIds` (`object_ids.dfy`) covers the document identifiers:
  - An identifier is accepted when it is 24 hexadecimal digits, in either case.
  - It is printed in lower case.
  - An identifier is a number below 16^24.
- `Database` (`database.dfy`) defines the store. It is a class holding the three collections as maps from id to record, plus the id counter. It also defines:
  - the queries the routers run: filtered, id-ordered selection, `to_list(length=n)`, and lookup by id and owner;
  - the shared 400/404 checks;
  - referential integrity, called `Consistent`: every node lies in a workspace of its owner, and every message lies in an existing node.
- `Workspaces`, `Nodes` and `Messages` hold one handler per endpoint:
  - Read-only handlers are functions of the store.
  - Writing handlers are methods that update the store in place.
  - Each handler is specified by its order of checks, by what it writes and by what it leaves unchanged.
- `Groq` holds the persona table, the model listing and the direct chat handler.
- `TokenBudget` holds the token estimator and the truncation.
- `Summary` holds the aggregation, the rendering, the prompt and the summary handler. Its method `SummarizeWorkspace` runs two loops, one collecting the entries and one rendering the blocks. The method is proved equal to the specification function `SummaryOf`.

The language-model service is a parameter `llm` that maps a request to a completion or a raised error. The presence of the API key is a boolean parameter `clientConfigured`. The caller's user id is a parameter of every handler.

References between records are stored as the strings the client sent. The filters of the cascading deletes compare those strings, and the summary's node and message queries compare them too. An id, however, is accepted in either case. Because of this, the two deletes can leave orphans; see "Findings".

## Model

| member | source | states |
|---|---|---|
| ObjectIds.ParseId | routers/workspaces.py:54-61 | a string is accepted exactly when it is 24 hexadecimal digits (either case), and it then denotes an id below 16^24 |
| ObjectIds.IdString | routers/workspaces.py:25 | the printed form of an id is itself an accepted id string |
| ObjectIds.ParseIdString | routers/workspaces.py:24-25 | parsing the printed form of an id gives the id back |
| ObjectIds.IdStringOfParse | routers/nodes.py:24-25 | printing the id a string denotes gives that string in lower case |
| ObjectIds.SameIdIffSameLower | routers/nodes.py:24-27 | two accepted strings denote the same document exactly when they agree up to case |
| ObjectIds.IdStringIsCanonical | routers/nodes.py:231 | a spelling of an id equals its printed form exactly when it is in lower case |
| ObjectIds.UpperSpelling | routers/nodes.py:18 | an id whose last digit is a letter has a second accepted spelling, different from the printed one, denoting the same id |
| Database.Select | routers/nodes.py:82 | `find(filter).sort("_id", 1)`: exactly the records below the counter that match the filter, in strictly ascending id order |
| Database.TakeSelectFirst | routers/workspaces.py:35 | `find(...).to_list(length=n)` on an id-ordered selection yields its first min(n, count) ids, and every matching id left out is greater than every id taken |
| Database.Take | routers/workspaces.py:35 | `to_list(length=n)`: a prefix of at most n elements, the whole list when it is no longer than n |
| Database.FindOwned | routers/workspaces.py:60-63 | the lookup by id and owner finds a record exactly when the id is stored and belongs to the caller |
| Database.LocateWorkspace | routers/workspaces.py:54-69 | an invalid id is a 400, then an absent or foreign workspace a 404; success exactly when the caller owns it |
| Database.LocateNode | routers/nodes.py:103-118 | an invalid id is a 400, then an absent or foreign node a 404; success exactly when the caller owns it |
| Database.Where | routers/nodes.py:231 | `delete_many(filter)`: keeps exactly the records the filter does not match, each unchanged |
| Database.WithoutMessagesOfNodes | routers/nodes.py:230-231 | keeps exactly the messages that name none of the removed nodes, in any spelling, and changes none of them |
| Database.Store.NewId | routers/workspaces.py:22 | `insert_one` takes a fresh id, above every id in use, and keeps the store valid |
| TokenBudget.EstimateTokens | routers/summary.py:25-30 | the estimate n satisfies 3n <= length < 3n + 3, that is length divided by three, rounded down |
| TokenBudget.SlicePrefix | routers/summary.py:43 | Python's `s[:stop]`, including a negative stop counted from the end and a stop past the end |
| TokenBudget.Truncate | routers/summary.py:32-44 | text within budget is unchanged; over budget with a budget of at least 1, the result is 3·budget characters, a prefix of the text followed by "..." |
| TokenBudget.TruncateFitsBudget | routers/summary.py:32-44 | with a positive budget the truncated text is within budget |
| TokenBudget.TruncateIdempotent | routers/summary.py:32-44 | truncating twice to a positive budget equals truncating once |
| TokenBudget.TruncateZeroBudget | routers/summary.py:41-43 | with budget 0 the stop is -3: the last three characters are replaced by "...", and the text stays over budget |
| TokenBudget.SummaryBudgetLength | routers/summary.py:132 | over-long aggregated text is cut to its first 17997 characters plus "...", 18000 in all |
| Groq.Lookup | routers/groq.py:79-85 | a persona is found exactly for the keys "1" to "6", and it is the table's entry for that key |
| Groq.LookupIn | routers/groq.py:79-85 | a key is found exactly when some table entry has it, and the result is that entry's persona |
| Groq.TableKeys | routers/groq.py:17-48 | the table has six entries with the distinct keys "1" to "6", in that order |
| Groq.LookupAt | routers/groq.py:17-48 | looking up the i-th key yields the i-th persona |
| Groq.GetModels | routers/groq.py:50-61 | six entries in key order, each copying id, name, model and description from the table |
| Groq.ChatWithGroq | routers/groq.py:63-115 | a missing client is a 500 before an unknown model id is a 400; success exactly when both pass and the call completes; the response echoes the request's id, the persona's name and the completion text; a raised call is a 500 |
| Groq.ChatChecksPrecedeCall | routers/groq.py:71-90 | on both failure paths checked before the call, the outcome does not depend on the model service |
| Workspaces.OwnedWorkspaceIds | routers/workspaces.py:35 | exactly the ids of the caller's workspaces |
| Workspaces.CreateWorkspace | routers/workspaces.py:9-28 | adds exactly one workspace under a fresh id, owned by the caller, with the given name; returns it; reading it back gives the same response; integrity is kept |
| Workspaces.GetWorkspaces | routers/workspaces.py:30-44 | the responses for the caller's first min(100, n) workspaces in creation order, position by position, so each appears once and the ids ascend; when the caller has at most 100, every one of them is listed |
| Workspaces.ViewsOf | routers/workspaces.py:37-44 | one response per stored workspace, in the same order, with the default name ""; ascending ids give ascending printed ids |
| Workspaces.GetWorkspace | routers/workspaces.py:46-75 | the 400/404 checks, and otherwise the stored workspace, which belongs to the caller |
| Workspaces.Renamed | routers/workspaces.py:105-107 | the name changes exactly when one is supplied; the owner never changes |
| Workspaces.UpdateWorkspace | routers/workspaces.py:77-122 | failures are the 400/404 checks and write nothing; success renames only that workspace, touches no other collection, and returns the stored state |
| Workspaces.CascadeNodeIds | routers/workspaces.py:151 | the first min(1000, n) nodes, in id order, of those stored with the request's workspace id string; all of them when there are at most 1000 |
| Workspaces.IdStrings | routers/workspaces.py:152 | the printed ids of the collected nodes, position by position |
| Workspaces.WithoutMessagesOf | routers/workspaces.py:154-156 | keeps exactly the messages whose stored node id is none of the given strings, unchanged |
| Workspaces.WithoutNodesIn | routers/workspaces.py:159 | keeps exactly the nodes whose stored workspace id is another string, unchanged |
| Workspaces.DeleteWorkspace | routers/workspaces.py:124-164 | after the 400/404 checks, which write nothing on failure: the workspace, every node stored with that id string, and every message naming the printed id of a collected node are removed |
| Workspaces.CascadeByString | routers/workspaces.py:150-162 | after the cascade no node keeps the id string, and, with at most 1000 such nodes, no message keeps the printed id of a removed node; every other node and message is untouched |
| Workspaces.DeleteWorkspaceLeavesOrphanNode | routers/workspaces.py:151-159 | a consistent store whose node names its workspace in upper case keeps that node after the workspace is deleted, and is then inconsistent |
| Workspaces.NodesOfWorkspace | routers/workspaces.py:159 | the nodes whose stored workspace id denotes the workspace, in any spelling |
| Workspaces.DeleteWorkspaceById | routers/workspaces.py:124-164 | the corrected cascade: the workspace, all of its nodes and all of their messages are removed, matched by id; integrity is kept |
| Workspaces.CascadeByIdKeepsConsistent | routers/workspaces.py:150-162 | the corrected cascade keeps integrity and leaves other nodes, and the messages of surviving nodes, in place |
| Nodes.NodeModelIdsArePersonas | routers/nodes.py:36 | the model ids a node may carry are exactly the persona table's keys |
| Nodes.CreateNode | routers/nodes.py:9-57 | invalid workspace id 400, then foreign workspace 404, then unknown model id 400; nothing is inserted on failure; success advances the id counter by one and stores the caller, the request's workspace id, name and model id under a fresh id, readable back; integrity is kept |
| Nodes.ListedIds | routers/nodes.py:67-82 | exactly the stored nodes of the caller, narrowed by workspace string when a non-empty one is given, in ascending id order |
| Nodes.ViewsOf | routers/nodes.py:84-93 | one response per listed node, in the same order, with the defaults "" and "1" |
| Nodes.GetNodes | routers/nodes.py:59-93 | a 404 exactly when a non-empty, valid, foreign workspace id is given; otherwise the responses for the first min(1000, n) matching nodes, position by position, all of the caller and in that workspace when one is given |
| Nodes.GetNodesSoundOrderedComplete | routers/nodes.py:82-93 | every response names by its id a stored, matching node and is that node's response; the listing is in ascending id order and complete when at most 1000 nodes match |
| Nodes.GetNode | routers/nodes.py:95-126 | the 400/404 checks, and otherwise the stored node, which belongs to the caller |
| Nodes.Patched | routers/nodes.py:155-185 | exactly the supplied fields change; the owner never changes |
| Nodes.FieldCheck | routers/nodes.py:157-185 | a new workspace must be valid (400) and owned (404), and a new model id known (400); the workspace failure is reported first, an unknown model id otherwise is exactly a 400, and none when all pass |
| Nodes.UpdateNode | routers/nodes.py:128-202 | the node checks, then the field checks, all before the one write, so a failure writes nothing; success changes only the supplied fields of that node and returns the stored state; integrity is kept |
| Nodes.WithoutMessagesNamed | routers/nodes.py:231 | keeps exactly the messages whose stored node id is another string, unchanged |
| Nodes.DeleteNode | routers/nodes.py:204-236 | after the 400/404 checks, which write nothing on failure: the node and every message storing the request's id string are removed; workspaces are untouched |
| Nodes.DeleteNodeLeavesOrphanMessage | routers/nodes.py:231 | a consistent store whose message names its node in upper case keeps that message after the node is deleted, and is then inconsistent |
| Nodes.DeleteNodeById | routers/nodes.py:204-236 | the corrected delete: the node and exactly the messages naming it, in any spelling, are removed; integrity is kept |
| Messages.ViewOf | routers/messages.py:136-141 | a response exactly when sender and content are stored, copying them; otherwise a 500 |
| Messages.CreateMessage | routers/messages.py:9-55 | unknown sender 400, then invalid node id 400, then foreign node 404; nothing is stored on failure; success advances the id counter by one and stores exactly the request's node id, sender and content under a fresh id, readable back; senders stay valid; integrity is kept |
| Messages.ListedIds | routers/messages.py:65-84 | the first min(1000, n) matching messages in id order, all of the given node string when one is given; every matching message when at most 1000 match |
| Messages.ViewsOf | routers/messages.py:86-94 | one response per message in order, or a 500 exactly when one lacks a field |
| Messages.GetMessages | routers/messages.py:57-94 | with a non-empty node id, the node checks first; once they pass, the result is exactly the responses for the listed messages, or a 500 when one lacks a field; at most 1000, all of that node when one is given |
| Messages.GetMessagesSoundAndComplete | routers/messages.py:84-94 | every response names by its id a stored, matching message and is that message's response; when at most 1000 match, every matching message is listed |
| Messages.GetMessagesIgnoresCaller | routers/messages.py:65-84 | without a node id the listing is the same for every caller |
| Messages.LocateMessage | routers/messages.py:104-134 | invalid id 400, absent message 404, invalid stored node id 400, then a node the caller does not own 403; success exactly when the message exists and its node is the caller's |
| Messages.GetMessage | routers/messages.py:96-141 | the access check, then the stored message |
| Messages.Patched | routers/messages.py:193-197 | exactly the supplied fields change; the node id never changes |
| Messages.UpdateCheck | routers/messages.py:152-190 | the access check first, and only after it the sender check |
| Messages.UpdateMessage | routers/messages.py:143-213 | a failed check writes nothing; otherwise only the supplied fields of that message change, its node id stays, and the response is the message as now stored; senders stay valid; integrity is kept |
| Messages.DeleteMessage | routers/messages.py:215-259 | after the access check, exactly that one message is removed and nothing else changes |
| Summary.SummaryModelIsOrchestrator | routers/summary.py:23 | the summary model is persona "1"'s model, and the response name is that persona's name with " - Summary Report" appended |
| Summary.LatestMessage | routers/summary.py:99-102 | the message with the greatest id among those storing the given node string, and none exactly when there is no such message |
| Summary.EntryFor | routers/summary.py:104-111 | an entry exactly when the node has a message; it carries the node's printed id and the newest message's sender and content, with the defaults "", "1", "" and "" |
| Summary.Entries | routers/summary.py:96-111 | no more entries than nodes |
| Summary.EntriesEmpty | routers/summary.py:113-117 | there is no entry exactly when no node has a message |
| Summary.EntriesSound | routers/summary.py:96-111 | every entry is the entry of one of the nodes |
| Summary.EntriesComplete | routers/summary.py:96-111 | every node with a message contributes its entry |
| Summary.EntriesAscending | routers/summary.py:84-97 | nodes taken in ascending id order give entries in ascending node-id order |
| Summary.Rule | routers/summary.py:122 | `"=" * 80`: n copies of one character |
| Summary.Decimal | routers/summary.py:125 | the block number is printed as decimal digits with no leading zero |
| Summary.DecimalRoundTrip | routers/summary.py:124-125 | the printed block number reads back as the number |
| Summary.NumberedConcat | routers/summary.py:124-129 | rendering two runs of entries one after the other continues the numbering where the first run stops |
| Summary.NumberedSnoc | routers/summary.py:124-129 | appending one entry appends its block, numbered one past the last |
| Summary.NumberedStep | routers/summary.py:124-129 | one `+=` of the rendering loop extends the text from k numbered blocks to k + 1 |
| Summary.NumberedAt | routers/summary.py:124-129 | the j-th entry, counting from 0, is rendered with number first + j, between the renderings before and after it |
| Summary.BlockNumbering | routers/summary.py:124-129 | in the aggregated text, the j-th emitted entry is conversation j + 1 |
| Summary.Header | routers/summary.py:119-121 | the aggregated text opens with the workspace name after "Workspace: ", then a blank line, a rule of 80 `=` and another blank line |
| Summary.Title | routers/summary.py:124 | the title line carries "=== Conversation ", the number in decimal, ": ", the node's name verbatim and " ===" |
| Summary.Fields | routers/summary.py:125-127 | the field lines carry, each verbatim after its label and followed by a newline, the entry's model id, sender and content |
| Summary.Block | routers/summary.py:124-128 | a conversation block is its title, then its field lines, then the closing rule of 80 `-` between blank lines, in that order |
| Summary.EntryInCombined | routers/summary.py:120-128 | in the aggregated text, the j-th entry's title and field lines follow the header and the blocks before it, so its node name, model id, sender and content appear verbatim |
| Summary.Prompt | routers/summary.py:135-150 | the prompt is the fixed instructions with the input text embedded verbatim between them |
| Summary.SummaryRequest | routers/summary.py:170-180 | the one request goes to persona "1"'s model with at most 4000 output tokens; the text embedded in its prompt is the aggregate truncated to 6000 tokens, within that budget, and unchanged when it already fits |
| Summary.SummaryNodeIds | routers/summary.py:84-87 | the first min(1000, n) of the caller's nodes storing the request's workspace string, in ascending id order; empty exactly when the caller has no such node, the condition of the "no nodes" 404 |
| Summary.SummaryOf | routers/summary.py:46-217 | the failures come in this order: missing client 500, invalid id 400, foreign workspace 404, no nodes 404, no messages 404; then the one call; its text is returned under id "1" and the fixed name, and a raised call is a 500 |
| Summary.SummaryChecksPrecedeCall | routers/summary.py:57-117 | every failure found before the call is independent of the model service |
| Summary.CollectEntries | routers/summary.py:96-111 | the first loop builds exactly the entries of the nodes, in order |
| Summary.AppendNumbered | routers/summary.py:123-128 | the `+=` loop over `enumerate(..., 1)` builds exactly the prefix followed by the renderings numbered from the start value |
| Summary.RenderCombined | routers/summary.py:120-128 | the aggregated text is exactly the header followed by the blocks numbered from 1 |
| Summary.SummarizeWorkspace | routers/summary.py:46-217 | the handler's result equals `SummaryOf` on the same store, flag and service |

## Left out

- The language-model service is not modelled: the Groq client calls (routers/groq.py:90, routers/summary.py:190) are a function parameter `llm`. A completion whose content is missing fails the response construction inside the same `try`, so it is folded into the raised-error reply.
- The sampling temperature 0.7 is a floating-point value with no behaviour to state.
- Logging and the key `print` are side effects only.
- Authentication (auth.py, routers/auth.py) is not part of this model. The caller's user id is a parameter of every handler.
- database.py and main.py are not part of this model. They hold the connection, the application wiring and the CORS middleware.
- schemas.py has no behaviour and is used only for the record and request shapes. `SummaryReport` is declared there but used by no handler.
- async/await is not modelled: each handler runs sequentially, with no interleaving of concurrent requests.
- Status codes 201 and 204 and the Vietnamese error texts are not modelled. Errors carry a status and a `Reason` naming the validation that failed.
- `ObjectId.is_valid` is modelled for string arguments as 24 hexadecimal digits. bson's parser also accepts 24-character strings that `bytes.fromhex` reads with embedded whitespace; those are treated as invalid here.
- Workspaces.CreateWorkspace, Nodes.CreateNode, Messages.CreateMessage: these require the id counter to be below 16^24. Twelve-byte ids are never exhausted in practice, and a server-generated id is not a counter.
- The natural order of a `find` without a sort (routers/workspaces.py:35, routers/messages.py:84, and the cascade's `find` at routers/workspaces.py:151, which decides whose messages are removed) is taken to be ascending id order.
- Workspaces.CascadeByString: states the no-orphan-message property only when at most 1000 nodes match. The cap at routers/workspaces.py:151 leaves the messages of further nodes in place.
- Stored records always carry the fields the handlers index directly (`user_id`, `workspace_id`, `node_id`), because every record is created through these handlers. A document lacking a field that is read without a default is modelled only for a message's sender and content.

## Findings

| source | as written | input that shows it | evidently intended | confidence | as-written member | corrected member |
|---|---|---|---|---|---|---|
| routers/nodes.py:231 | the messages of the deleted node are matched by string equality with the request's id | a message created with the node's id in upper-case hex, which passes the id check; then the node is deleted by its printed lower-case id | every message of the deleted node is removed, whatever spelling it stored | medium, not executed | Nodes.DeleteNodeLeavesOrphanMessage | Nodes.DeleteNodeById |
| routers/workspaces.py:151-159 | the nodes of the deleted workspace are matched by string equality with the request's id | a node created with the workspace's id in upper-case hex; then the workspace is deleted by its printed lower-case id | every node of the workspace, and every message of those nodes, is removed | medium, not executed | Workspaces.DeleteWorkspaceLeavesOrphanNode | Workspaces.DeleteWorkspaceById |

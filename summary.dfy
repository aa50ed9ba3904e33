/** The workspace summary: the newest message of every node of a workspace,
    rendered as numbered conversation blocks under a header, cut to the token
    budget, embedded in a fixed prompt and sent once to the summarising
    model. */
module Summary {
  import opened Results
  import opened Http
  import opened ObjectIds
  import opened Database
  import opened TokenBudget
  import opened Groq

  /** The model the summary is requested from. */
  const SummaryModel: string := "meta-llama/llama-4-maverick-17b-128e-instruct"

  /** Model id and display name the summary response carries. */
  const SummaryModelId: string := "1"
  const SummaryModelName: string := "Orchestrator (Chief of Staff) - Summary Report"

  /** Output-token limit of the summary request. */
  const SummaryOutputTokens: nat := 4000

  /** At most this many nodes of the workspace are read. */
  const SummaryNodeLimit: nat := 1000

  /** Width of the separator lines of the aggregated text. */
  const RuleWidth: nat := 80

  /** The summary is requested from persona "1", whose id it reports. */
  lemma SummaryModelIsOrchestrator()
    ensures Lookup(SummaryModelId).Some?
    ensures Lookup(SummaryModelId).value.model == SummaryModel
    ensures Lookup(SummaryModelId).value.name + " - Summary Report" == SummaryModelName
  {
    LookupAt(0);
  }

  /** What the summary keeps of one node: its name, printed id and model id,
      and the sender and content of its newest message. */
  datatype Entry = Entry(nodeName: string, nodeId: string, modelId: string, sender: string, content: string)

  /** `find_one({"node_id": key}, sort=[("_id", -1)])`: the message with the
      greatest id whose node id is the string `key`. */
  function LatestMessage(messages: map<Id, Message>, key: string, bound: nat): (r: Option<Id>)
    ensures r.Some? <==> exists k :: k < bound && k in messages && messages[k].nodeId == key
    ensures r.Some? ==> r.value < bound && r.value in messages && messages[r.value].nodeId == key
    ensures r.Some? ==> forall k :: r.value < k < bound && k in messages ==> messages[k].nodeId != key
  {
    if bound == 0 then None
    else if bound - 1 in messages && messages[bound - 1].nodeId == key then Some(bound - 1)
    else LatestMessage(messages, key, bound - 1)
  }

  /** True when some message names the node `n` by its printed id. */
  predicate HasMessage(messages: map<Id, Message>, bound: nat, n: Id) {
    LatestMessage(messages, IdString(n), bound).Some?
  }

  /** The entry of node `n`, with the defaults the source reads absent fields
      with; None when the node has no message. */
  function EntryFor(nodes: map<Id, Node>, messages: map<Id, Message>, bound: nat, n: Id): (r: Option<Entry>)
    requires n in nodes
    ensures r.Some? <==> HasMessage(messages, bound, n)
    ensures r.Some? ==>
      var m := messages[LatestMessage(messages, IdString(n), bound).value];
      && r.value.nodeId == IdString(n)
      && r.value.nodeName == nodes[n].name.GetOr("")
      && r.value.modelId == nodes[n].modelId.GetOr("1")
      && r.value.sender == m.sender.GetOr("")
      && r.value.content == m.content.GetOr("")
  {
    match LatestMessage(messages, IdString(n), bound)
    case None => None
    case Some(k) =>
      Some(Entry(nodes[n].name.GetOr(""), IdString(n), nodes[n].modelId.GetOr("1"),
                 messages[k].sender.GetOr(""), messages[k].content.GetOr("")))
  }

  /** The entries of the nodes `ids`, in their order, skipping nodes without a
      message: every entry is the entry of one of `ids`, and every node of
      `ids` that has a message contributes one. */
  function Entries(nodes: map<Id, Node>, messages: map<Id, Message>, bound: nat, ids: seq<Id>): (es: seq<Entry>)
    requires forall n :: n in ids ==> n in nodes
    ensures |es| <= |ids|
  {
    if ids == [] then []
    else
      var init := ids[..|ids| - 1];
      var last := ids[|ids| - 1];
      assert forall i :: 0 <= i < |init| ==> init[i] == ids[i];
      var earlier := Entries(nodes, messages, bound, init);
      match EntryFor(nodes, messages, bound, last)
      case None => earlier
      case Some(e) => earlier + [e]
  }

  /** There is no entry exactly when no node of `ids` has a message. */
  lemma {:induction false} EntriesEmpty(nodes: map<Id, Node>, messages: map<Id, Message>, bound: nat, ids: seq<Id>)
    requires forall n :: n in ids ==> n in nodes
    ensures Entries(nodes, messages, bound, ids) == [] <==>
      forall i :: 0 <= i < |ids| ==> !HasMessage(messages, bound, ids[i])
  {
    if ids != [] {
      var init := ids[..|ids| - 1];
      assert forall i :: 0 <= i < |init| ==> init[i] == ids[i];
      EntriesEmpty(nodes, messages, bound, init);
    }
  }

  /** Every entry is the entry of one of the nodes `ids`. */
  lemma {:induction false} EntriesSound(nodes: map<Id, Node>, messages: map<Id, Message>, bound: nat, ids: seq<Id>)
    requires forall n :: n in ids ==> n in nodes
    ensures forall j :: 0 <= j < |Entries(nodes, messages, bound, ids)| ==>
      exists i :: 0 <= i < |ids| && EntryFor(nodes, messages, bound, ids[i]) == Some(Entries(nodes, messages, bound, ids)[j])
  {
    if ids != [] {
      var init := ids[..|ids| - 1];
      assert forall i :: 0 <= i < |init| ==> init[i] == ids[i];
      EntriesSound(nodes, messages, bound, init);
      var earlier := Entries(nodes, messages, bound, init);
      var es := Entries(nodes, messages, bound, ids);
      forall j | 0 <= j < |es|
        ensures exists i :: 0 <= i < |ids| && EntryFor(nodes, messages, bound, ids[i]) == Some(Entries(nodes, messages, bound, ids)[j])
      {
        if j < |earlier| {
          assert es[j] == earlier[j];
          var i :| 0 <= i < |init| && EntryFor(nodes, messages, bound, init[i]) == Some(earlier[j]);
          assert ids[i] == init[i];
        } else {
          assert EntryFor(nodes, messages, bound, ids[|ids| - 1]) == Some(es[j]);
        }
      }
    } else {
      assert Entries(nodes, messages, bound, ids) == [];
    }
  }

  /** Every node of `ids` that has a message contributes its entry. */
  lemma {:induction false} EntriesComplete(nodes: map<Id, Node>, messages: map<Id, Message>, bound: nat, ids: seq<Id>)
    requires forall n :: n in ids ==> n in nodes
    ensures forall i :: 0 <= i < |ids| && HasMessage(messages, bound, ids[i]) ==>
      EntryFor(nodes, messages, bound, ids[i]).value in Entries(nodes, messages, bound, ids)
  {
    if ids != [] {
      var init := ids[..|ids| - 1];
      assert forall i :: 0 <= i < |init| ==> init[i] == ids[i];
      EntriesComplete(nodes, messages, bound, init);
      var earlier := Entries(nodes, messages, bound, init);
      var es := Entries(nodes, messages, bound, ids);
      assert forall e :: e in earlier ==> e in es;
      forall i | 0 <= i < |ids| && HasMessage(messages, bound, ids[i])
        ensures EntryFor(nodes, messages, bound, ids[i]).value in es
      {
        if i < |init| {
          assert ids[i] == init[i];
        }
      }
    }
  }

  /** Nodes taken in ascending id order give entries in ascending node-id order. */
  lemma {:induction false} EntriesAscending(nodes: map<Id, Node>, messages: map<Id, Message>, bound: nat, ids: seq<Id>)
    requires forall n :: n in ids ==> n in nodes && n < IdSpace
    requires forall i, j :: 0 <= i < j < |ids| ==> ids[i] < ids[j]
    ensures forall i, j :: 0 <= i < j < |Entries(nodes, messages, bound, ids)| ==>
      IdBefore(Entries(nodes, messages, bound, ids)[i].nodeId, Entries(nodes, messages, bound, ids)[j].nodeId)
  {
    if ids != [] {
      var init := ids[..|ids| - 1];
      var last := ids[|ids| - 1];
      assert forall i :: 0 <= i < |init| ==> init[i] == ids[i];
      assert forall n :: n in init ==> n in ids;
      EntriesAscending(nodes, messages, bound, init);
      EntriesSound(nodes, messages, bound, init);
      var earlier := Entries(nodes, messages, bound, init);
      match EntryFor(nodes, messages, bound, last)
      case None =>
      case Some(e) =>
        var es := earlier + [e];
        assert es == Entries(nodes, messages, bound, ids);
        ParseIdString(last);
        forall j | 0 <= j < |earlier|
          ensures IdBefore(earlier[j].nodeId, e.nodeId)
        {
          var i :| 0 <= i < |init| && EntryFor(nodes, messages, bound, init[i]) == Some(earlier[j]);
          ParseIdString(init[i]);
        }
    }
  }

  /** `n` copies of `c`. */
  function Rule(c: char, n: nat): (s: string)
    ensures |s| == n && forall i :: 0 <= i < n ==> s[i] == c
  {
    seq(n, _ => c)
  }

  function DigitChar(d: nat): (c: char)
    requires d < 10
    ensures '0' <= c <= '9'
  {
    ('0' as int + d) as char
  }

  /** `str(n)` for a natural number: its decimal digits, most significant first. */
  function Decimal(n: nat): (s: string)
    ensures |s| >= 1 && forall i :: 0 <= i < |s| ==> '0' <= s[i] <= '9'
    ensures |s| > 1 ==> s[0] != '0'
  {
    if n < 10 then [DigitChar(n)] else Decimal(n / 10) + [DigitChar(n % 10)]
  }

  /** The number a string of decimal digits denotes. */
  function DecimalValue(s: string): nat
    requires forall i :: 0 <= i < |s| ==> '0' <= s[i] <= '9'
  {
    if s == [] then 0 else DecimalValue(s[..|s| - 1]) * 10 + (s[|s| - 1] as int - '0' as int)
  }

  /** The printed block number reads back as the number. */
  lemma {:induction false} DecimalRoundTrip(n: nat)
    ensures DecimalValue(Decimal(n)) == n
  {
    if n >= 10 {
      DecimalRoundTrip(n / 10);
      var s := Decimal(n);
      assert s[..|s| - 1] == Decimal(n / 10);
    }
  }

  /** The head of the aggregated text: the workspace's name on the first line,
      then a blank line, a rule of 80 `=` and another blank line. */
  function Header(workspaceName: string): (h: string)
    ensures |h| == 11 + |workspaceName| + RuleWidth + 4
    ensures h[..11] == "Workspace: " && h[11..11 + |workspaceName|] == workspaceName
    ensures h[11 + |workspaceName|..] == "\n\n" + Rule('=', RuleWidth) + "\n\n"
  {
    "Workspace: " + workspaceName + "\n\n" + Rule('=', RuleWidth) + "\n\n"
  }

  /** Slicing within the left operand of a concatenation. */
  lemma SliceLeft(x: string, y: string, lo: nat, hi: nat)
    requires lo <= hi <= |x|
    ensures (x + y)[lo..hi] == x[lo..hi]
  {
  }

  /** Slicing within the right operand of a concatenation. */
  lemma SliceRight(x: string, y: string, lo: nat, hi: nat)
    requires |x| <= lo <= hi <= |x| + |y|
    ensures (x + y)[lo..hi] == y[lo - |x|..hi - |x|]
  {
  }

  /** One labelled line of a block: its tag, the value verbatim, a newline. */
  function Labelled(tag: string, value: string): (l: string)
    ensures |l| == |tag| + |value| + 1
    ensures l[..|tag|] == tag && l[|tag|..|tag| + |value|] == value && l[|l| - 1] == '\n'
  {
    tag + value + "\n"
  }

  /** The title line of the `k`-th conversation: its number in decimal, then
      the node's name verbatim. */
  function Title(k: nat, nodeName: string): (t: string)
    ensures var d := |Decimal(k)|;
      && |t| == 17 + d + 2 + |nodeName| + 5
      && t[..17] == "=== Conversation " && t[17..17 + d] == Decimal(k) && t[17 + d..19 + d] == ": "
      && t[19 + d..19 + d + |nodeName|] == nodeName && t[19 + d + |nodeName|..] == " ===\n"
  {
    "=== Conversation " + Decimal(k) + ": " + nodeName + " ===\n"
  }

  /** The three field lines of a block: model id, sender and content, each
      verbatim after its label. */
  function Fields(e: Entry): (f: string)
    ensures var i := 10 + |e.modelId| + 1;
      var j := i + 8 + |e.sender| + 1;
      && |f| == j + 9 + |e.content| + 1
      && f[..10] == "Model ID: " && f[10..i - 1] == e.modelId && f[i - 1] == '\n'
      && f[i..i + 8] == "Sender: " && f[i + 8..j - 1] == e.sender && f[j - 1] == '\n'
      && f[j..j + 9] == "Content:\n" && f[j + 9..|f| - 1] == e.content && f[|f| - 1] == '\n'
  {
    var model := Labelled("Model ID: ", e.modelId);
    var sender := Labelled("Sender: ", e.sender);
    var content := Labelled("Content:\n", e.content);
    var i, j := |model|, |model| + |sender|;
    SliceLeft(model + sender, content, 0, 10);
    SliceLeft(model, sender, 0, 10);
    SliceLeft(model + sender, content, 10, i - 1);
    SliceLeft(model, sender, 10, i - 1);
    SliceLeft(model + sender, content, i, i + 8);
    SliceRight(model, sender, i, i + 8);
    SliceLeft(model + sender, content, i + 8, j - 1);
    SliceRight(model, sender, i + 8, j - 1);
    SliceRight(model + sender, content, j, j + 9);
    SliceRight(model + sender, content, j + 9, j + |content| - 1);
    assert (model + sender + content)[i - 1] == model[i - 1];
    assert (model + sender + content)[j - 1] == sender[|sender| - 1];
    model + sender + content
  }

  /** The closing lines of every block: a rule of 80 `-` between blank lines. */
  function Closing(): (c: string)
    ensures |c| == RuleWidth + 3
    ensures c == "\n" + Rule('-', RuleWidth) + "\n\n"
  {
    "\n" + Rule('-', RuleWidth) + "\n\n"
  }

  /** The block of the `k`-th conversation: its title, which carries the
      number `k` and the node's name, then the lines with the entry's model
      id, sender and content, then the closing rule. */
  function Block(k: nat, e: Entry): (b: string)
    ensures var t, f := |Title(k, e.nodeName)|, |Fields(e)|;
      && |b| == t + f + |Closing()|
      && b[..t] == Title(k, e.nodeName) && b[t..t + f] == Fields(e) && b[t + f..] == Closing()
  {
    var title, fields := Title(k, e.nodeName), Fields(e);
    SliceLeft(title + fields, Closing(), 0, |title|);
    SliceLeft(title + fields, Closing(), |title|, |title| + |fields|);
    title + fields + Closing()
  }

  /** `es` rendered in order by `render`, numbered from `first` on
      (`enumerate(es, first)`). */
  function Numbered(es: seq<Entry>, first: nat, render: (nat, Entry) -> string): string
    decreases |es|
  {
    if es == [] then [] else render(first, es[0]) + Numbered(es[1..], first + 1, render)
  }

  /** The conversation blocks of `es`, numbered from `first` on. */
  function Blocks(es: seq<Entry>, first: nat): string {
    Numbered(es, first, Block)
  }

  /** Rendering two runs of entries one after the other: the second run's
      numbers continue where the first run's stop. */
  lemma {:induction false} NumberedConcat(a: seq<Entry>, b: seq<Entry>, first: nat, render: (nat, Entry) -> string)
    ensures Numbered(a + b, first, render) == Numbered(a, first, render) + Numbered(b, first + |a|, render)
    decreases |a|
  {
    if a != [] {
      assert (a + b)[0] == a[0];
      assert (a + b)[1..] == a[1..] + b;
      NumberedConcat(a[1..], b, first + 1, render);
      var head, rest, tail := render(first, a[0]), Numbered(a[1..], first + 1, render), Numbered(b, first + |a|, render);
      assert Numbered(a + b, first, render) == head + (rest + tail);
      assert head + (rest + tail) == (head + rest) + tail;
    } else {
      assert a + b == b;
    }
  }

  /** Appending an entry appends its rendering, numbered one past the last. */
  lemma NumberedSnoc(es: seq<Entry>, e: Entry, first: nat, render: (nat, Entry) -> string)
    ensures Numbered(es + [e], first, render) == Numbered(es, first, render) + render(first + |es|, e)
  {
    NumberedConcat(es, [e], first, render);
    assert [e][1..] == [];
    assert Numbered([e], first + |es|, render) == render(first + |es|, e) + [];
  }

  /** One step of a loop that appends the renderings one by one after `prefix`. */
  lemma NumberedStep(prefix: string, es: seq<Entry>, k: nat, first: nat, render: (nat, Entry) -> string)
    requires k < |es|
    ensures prefix + Numbered(es[..k], first, render) + render(first + k, es[k]) ==
      prefix + Numbered(es[..k + 1], first, render)
  {
    assert es[..k + 1] == es[..k] + [es[k]];
    NumberedSnoc(es[..k], es[k], first, render);
    var done, next := Numbered(es[..k], first, render), render(first + k, es[k]);
    assert prefix + done + next == prefix + (done + next);
  }

  /** The `j`-th entry (from 0) is rendered with number `first + j`, between
      the renderings of the entries before and after it. */
  lemma NumberedAt(es: seq<Entry>, j: nat, first: nat, render: (nat, Entry) -> string)
    requires j < |es|
    ensures Numbered(es, first, render) ==
      Numbered(es[..j], first, render) + render(first + j, es[j]) + Numbered(es[j + 1..], first + j + 1, render)
  {
    var before, from := es[..j], es[j..];
    assert es == before + from;
    NumberedConcat(before, from, first, render);
    assert from[0] == es[j] && from[1..] == es[j + 1..];
    var x, y, z := Numbered(before, first, render), render(first + j, es[j]), Numbered(es[j + 1..], first + j + 1, render);
    assert Numbered(from, first + j, render) == y + z;
    assert x + (y + z) == x + y + z;
  }

  /** In the aggregated text the `j`-th entry (from 0) is conversation `j + 1`. */
  lemma BlockNumbering(es: seq<Entry>, j: nat)
    requires j < |es|
    ensures Blocks(es, 1) == Blocks(es[..j], 1) + Block(j + 1, es[j]) + Blocks(es[j + 1..], j + 2)
  {
    NumberedAt(es, j, 1, Block);
  }

  /** The aggregated text of a workspace named `workspaceName`. */
  function Combined(workspaceName: string, es: seq<Entry>): string {
    Header(workspaceName) + Blocks(es, 1)
  }

  /** In the aggregated text, the block of the `j`-th entry (from 0) follows
      the header and the blocks before it: its title carries number `j + 1`
      and the node's name, and its field lines carry the entry's model id,
      sender and content verbatim. */
  lemma EntryInCombined(workspaceName: string, es: seq<Entry>, j: nat)
    requires j < |es|
    ensures Combined(workspaceName, es) ==
      (Header(workspaceName) + Blocks(es[..j], 1)) + Title(j + 1, es[j].nodeName) + Fields(es[j]) +
      (Closing() + Blocks(es[j + 1..], j + 2))
  {
    BlockNumbering(es, j);
    Regroup(Header(workspaceName), Blocks(es[..j], 1), Title(j + 1, es[j].nodeName), Fields(es[j]), Closing(),
            Blocks(es[j + 1..], j + 2));
  }

  /** Regrouping the concatenation of the header, the blocks before, the three
      parts of one block and the blocks after. */
  lemma Regroup(h: string, before: string, t: string, f: string, c: string, after: string)
    ensures h + (before + (t + f + c) + after) == (h + before) + t + f + (c + after)
  {
    var block := t + f + c;
    assert before + block + after == before + (block + after);
    assert h + (before + (block + after)) == (h + before) + (block + after);
    assert block + after == t + f + (c + after);
    assert (h + before) + (t + f + (c + after)) == (h + before) + t + f + (c + after);
  }

  const PromptIntro: string :=
    "You are an expert analyst and information synthesizer. Your task is to analyze the following conversations and create a well-structured summary report.\n\nInput data:\n"

  const PromptRequirements: string :=
    "\n\nRequirements:\n1. Analyze and synthesize content from all conversations\n2. Create a structured report with the following sections:\n   - Executive Summary\n   - Key Points Discussed\n   - Conclusions and Recommendations (if any)\n3. Divide into clear, readable points\n4. Use markdown format for presentation\n5. Preserve the meaning and context of the original conversations\n\nPlease create the summary report:"

  /** The prompt: the fixed instructions around the (truncated) aggregated text,
      which it embeds verbatim. */
  function Prompt(content: string): (p: string)
    ensures |p| == |PromptIntro| + |content| + |PromptRequirements|
    ensures p[..|PromptIntro|] == PromptIntro
    ensures p[|PromptIntro|..|PromptIntro| + |content|] == content
    ensures p[|PromptIntro| + |content|..] == PromptRequirements
  {
    PromptIntro + content + PromptRequirements
  }

  /** The one request sent for aggregated text `combined`: persona "1"'s
      model, at most 4000 output tokens, and a prompt that embeds the text cut
      to the 6000-token budget (unchanged when it already fits). */
  function SummaryRequest(combined: string): (r: LlmRequest)
    ensures Lookup(SummaryModelId).Some? && r.model == Lookup(SummaryModelId).value.model
    ensures r.maxTokens == SummaryOutputTokens
    ensures |PromptIntro| + |PromptRequirements| <= |r.prompt|
    ensures var input := r.prompt[|PromptIntro|..|r.prompt| - |PromptRequirements|];
      && input == Truncate(combined, SummaryMaxTokens)
      && EstimateTokens(input) <= SummaryMaxTokens
      && (EstimateTokens(combined) <= SummaryMaxTokens ==> input == combined)
  {
    SummaryModelIsOrchestrator();
    TruncateFitsBudget(combined, SummaryMaxTokens);
    LlmRequest(SummaryModel, Prompt(Truncate(combined, SummaryMaxTokens)), SummaryOutputTokens)
  }

  /** The filter `{"workspace_id": key, "user_id": userId}`. */
  function OfWorkspace(key: string, userId: string): Node -> bool {
    (n: Node) => n.workspaceId == key && n.userId == userId
  }

  /** `find({"workspace_id": key, "user_id": userId}).sort("_id", 1).to_list(1000)`:
      the first 1000 of the caller's nodes whose stored workspace id is the
      string `key`; none exactly when the caller has no such node. */
  function SummaryNodeIds(db: Store, key: string, userId: string): (ids: seq<Id>)
    reads db
    requires db.Valid()
    ensures IsFirst(ids, Select(db.nodes, OfWorkspace(key, userId), db.nextId), SummaryNodeLimit)
    ensures forall n :: n in ids ==> n in db.nodes && db.nodes[n].workspaceId == key && db.nodes[n].userId == userId
    ensures forall i, j :: 0 <= i < j < |ids| ==> ids[i] < ids[j]
    ensures forall i :: 0 <= i < |ids| ==> ids[i] < db.nextId
    ensures ids == [] <==> forall n :: n in db.nodes ==> !(db.nodes[n].workspaceId == key && db.nodes[n].userId == userId)
  {
    var all := Select(db.nodes, OfWorkspace(key, userId), db.nextId);
    assert all != [] ==> all[0] in all;
    Take(all, SummaryNodeLimit)
  }

  /** `summarize_workspace` as a function of the store and the model: a missing
      client (500), an invalid id (400), a workspace that is not the caller's
      (404), no nodes (404), no messages (404), in that order, and only then
      the one call; its text is returned verbatim under persona "1"'s id, and
      an exception from it is a 500. */
  function SummaryOf(db: Store, clientConfigured: bool, workspaceId: string, userId: string,
                     llm: LlmRequest -> LlmReply): (r: Result<ChatResponse, HttpError>)
    reads db
    requires db.Valid()
    ensures !clientConfigured ==> r == Err(ServerError(ClientNotConfigured))
    ensures clientConfigured && LocateWorkspace(db.workspaces, workspaceId, userId).Err? ==>
      r == Err(LocateWorkspace(db.workspaces, workspaceId, userId).error)
    ensures clientConfigured && OwnsWorkspace(db.workspaces, workspaceId, userId) ==>
      var ids := SummaryNodeIds(db, workspaceId, userId);
      var es := Entries(db.nodes, db.messages, db.nextId, ids);
      && (ids == [] ==> r == Err(NotFound(NoNodes)))
      && (ids != [] && es == [] ==> r == Err(NotFound(NoMessages)))
      && (es != [] ==>
            var name := db.workspaces[ParseId(workspaceId).value].name.GetOr("Workspace");
            var reply := llm(SummaryRequest(Combined(name, es)));
            && (reply.Completion? ==> r == Ok(ChatResponse(SummaryModelId, SummaryModelName, reply.text)))
            && (reply.Raised? ==> r == Err(ServerError(UpstreamFailure(reply.message)))))
  {
    if !clientConfigured then Err(ServerError(ClientNotConfigured))
    else match LocateWorkspace(db.workspaces, workspaceId, userId)
      case Err(e) => Err(e)
      case Ok(w) =>
        var ids := SummaryNodeIds(db, workspaceId, userId);
        if ids == [] then Err(NotFound(NoNodes))
        else
          var es := Entries(db.nodes, db.messages, db.nextId, ids);
          if es == [] then Err(NotFound(NoMessages))
          else match llm(SummaryRequest(Combined(db.workspaces[w].name.GetOr("Workspace"), es)))
            case Completion(text) => Ok(ChatResponse(SummaryModelId, SummaryModelName, text))
            case Raised(message) => Err(ServerError(UpstreamFailure(message)))
  }

  /** Every failure found before the call is independent of the model: on those
      paths it is never asked. */
  lemma SummaryChecksPrecedeCall(db: Store, clientConfigured: bool, workspaceId: string, userId: string,
                                 llm1: LlmRequest -> LlmReply, llm2: LlmRequest -> LlmReply)
    requires db.Valid()
    requires !clientConfigured || !OwnsWorkspace(db.workspaces, workspaceId, userId) ||
      Entries(db.nodes, db.messages, db.nextId, SummaryNodeIds(db, workspaceId, userId)) == []
    ensures SummaryOf(db, clientConfigured, workspaceId, userId, llm1) == SummaryOf(db, clientConfigured, workspaceId, userId, llm2)
    ensures SummaryOf(db, clientConfigured, workspaceId, userId, llm1).Err?
  {
  }

  /** The first loop of `summarize_workspace`: the newest message of each
      node, in the order of `ids`, skipping nodes without one. */
  method CollectEntries(db: Store, ids: seq<Id>) returns (entries: seq<Entry>)
    requires forall n :: n in ids ==> n in db.nodes
    ensures entries == Entries(db.nodes, db.messages, db.nextId, ids)
  {
    entries := [];
    var i := 0;
    while i < |ids|
      invariant 0 <= i <= |ids|
      invariant entries == Entries(db.nodes, db.messages, db.nextId, ids[..i])
    {
      var n := ids[i];
      var last := LatestMessage(db.messages, IdString(n), db.nextId);
      assert ids[..i + 1][..i] == ids[..i];
      if last.Some? {
        var node := db.nodes[n];
        var message := db.messages[last.value];
        entries := entries + [Entry(node.name.GetOr(""), IdString(n), node.modelId.GetOr("1"),
                                    message.sender.GetOr(""), message.content.GetOr(""))];
      }
      i := i + 1;
    }
    assert ids[..|ids|] == ids;
  }

  /** The second loop of `summarize_workspace`: `text += render(i, e)` for each
      entry in order, numbered from `first` on, after `prefix`. */
  method AppendNumbered(prefix: string, entries: seq<Entry>, first: nat, render: (nat, Entry) -> string)
    returns (text: string)
    ensures text == prefix + Numbered(entries, first, render)
  {
    text := prefix;
    assert entries[..0] == [];
    var k := 0;
    while k < |entries|
      invariant 0 <= k <= |entries|
      invariant text == prefix + Numbered(entries[..k], first, render)
    {
      NumberedStep(prefix, entries, k, first, render);
      text := text + render(first + k, entries[k]);
      k := k + 1;
    }
    assert entries[..|entries|] == entries;
  }

  /** The aggregated text as `summarize_workspace` builds it: the header, then
      one block per entry, numbered from 1. */
  method RenderCombined(workspaceName: string, entries: seq<Entry>) returns (combined: string)
    ensures combined == Combined(workspaceName, entries)
  {
    combined := AppendNumbered(Header(workspaceName), entries, 1, Block);
  }

  /** `summarize_workspace`: the checks in order, the two loops, the
      truncation and the one call. */
  method SummarizeWorkspace(db: Store, clientConfigured: bool, workspaceId: string, userId: string,
                            llm: LlmRequest -> LlmReply) returns (r: Result<ChatResponse, HttpError>)
    requires db.Valid()
    ensures r == SummaryOf(db, clientConfigured, workspaceId, userId, llm)
  {
    if !clientConfigured {
      return Err(ServerError(ClientNotConfigured));
    }
    if !ValidId(workspaceId) {
      return Err(BadRequest(InvalidWorkspaceId));
    }
    var found := FindOwned(db.workspaces, WorkspaceOwner, workspaceId, userId);
    if found.None? {
      return Err(NotFound(WorkspaceNotFound));
    }
    var workspace := db.workspaces[found.value];
    var nodeIds := SummaryNodeIds(db, workspaceId, userId);
    if nodeIds == [] {
      return Err(NotFound(NoNodes));
    }
    var entries := CollectEntries(db, nodeIds);
    if entries == [] {
      return Err(NotFound(NoMessages));
    }
    var combined := RenderCombined(workspace.name.GetOr("Workspace"), entries);
    var reply := llm(SummaryRequest(combined));
    match reply
    case Completion(text) => r := Ok(ChatResponse(SummaryModelId, SummaryModelName, text));
    case Raised(message) => r := Err(ServerError(UpstreamFailure(message)));
  }
}

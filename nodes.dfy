/** The node router: conversation threads inside a workspace, each bound to
    one of the six personas. */
module Nodes {
  import opened Results
  import opened Http
  import opened ObjectIds
  import opened Database
  import Groq

  /** The persona ids a node may carry, as the router spells them out. */
  const NodeModelIds: seq<string> := ["1", "2", "3", "4", "5", "6"]

  /** `get_nodes` returns at most this many nodes. */
  const NodeListLimit: nat := 1000

  datatype NodeCreate = NodeCreate(workspaceId: string, name: string, modelId: string)

  /** A field left out of the request body is None. */
  datatype NodeUpdate = NodeUpdate(workspaceId: Option<string>, name: Option<string>, modelId: Option<string>)

  datatype NodeView = NodeView(id: string, userId: string, workspaceId: string, name: string, modelId: string)

  /** The response for a stored node: a missing name reads as "", a missing persona as "1". */
  function ViewOf(id: Id, n: Node): NodeView {
    NodeView(IdString(id), n.userId, n.workspaceId, n.name.GetOr(""), n.modelId.GetOr("1"))
  }

  /** The ids a node may carry are exactly the keys of the persona table. */
  lemma NodeModelIdsArePersonas()
    ensures forall m :: m in NodeModelIds <==> Groq.Lookup(m).Some?
  {
  }

  /** `create_node`: an invalid workspace id is a 400, a workspace that is not
      the caller's a 404, an unknown persona a 400, in that order, and nothing
      is inserted on failure. On success the node stores the caller and the
      request's workspace id, name and persona, and can be read back. */
  method CreateNode(db: Store, userId: string, request: NodeCreate) returns (r: Result<NodeView, HttpError>)
    requires db.Valid() && db.nextId < IdSpace
    modifies db
    ensures db.Valid()
    ensures db.workspaces == old(db.workspaces) && db.messages == old(db.messages)
    ensures !ValidId(request.workspaceId) ==> r == Err(BadRequest(InvalidWorkspaceId))
    ensures ValidId(request.workspaceId) && !OwnsWorkspace(db.workspaces, request.workspaceId, userId) ==>
      r == Err(NotFound(WorkspaceNotFound))
    ensures OwnsWorkspace(db.workspaces, request.workspaceId, userId) && request.modelId !in NodeModelIds ==>
      r == Err(BadRequest(InvalidModelId))
    ensures r.Ok? <==> OwnsWorkspace(db.workspaces, request.workspaceId, userId) && request.modelId in NodeModelIds
    ensures r.Err? ==> db.nodes == old(db.nodes) && db.nextId == old(db.nextId)
    ensures r.Ok? ==> db.nextId == old(db.nextId) + 1
    ensures r.Ok? ==>
      var id := old(db.nextId);
      && id !in old(db.nodes)
      && db.nodes == old(db.nodes)[id := Node(userId, request.workspaceId, Some(request.name), Some(request.modelId))]
      && r.value == NodeView(IdString(id), userId, request.workspaceId, request.name, request.modelId)
      && GetNode(db, r.value.id, userId) == Ok(r.value)
    ensures old(Consistent(db.workspaces, db.nodes, db.messages)) ==> Consistent(db.workspaces, db.nodes, db.messages)
  {
    var located := LocateWorkspace(db.workspaces, request.workspaceId, userId);
    if located.Err? {
      return Err(located.error);
    }
    if request.modelId !in NodeModelIds {
      return Err(BadRequest(InvalidModelId));
    }
    var node := Node(userId, request.workspaceId, Some(request.name), Some(request.modelId));
    var id := db.NewId();
    db.nodes := db.nodes[id := node];
    ParseIdString(id);
    r := Ok(ViewOf(id, node));
  }

  /** The filter of `get_nodes`: the caller's nodes, narrowed to those whose
      stored workspace id is the given string when one is given and non-empty. */
  predicate Listed(n: Node, userId: string, workspaceId: Option<string>) {
    n.userId == userId && (workspaceId.Some? && workspaceId.value != "" ==> n.workspaceId == workspaceId.value)
  }

  function ListedBy(userId: string, workspaceId: Option<string>): Node -> bool {
    (n: Node) => Listed(n, userId, workspaceId)
  }

  /** The ids of the nodes `get_nodes` matches, in creation order. */
  function ListedIds(db: Store, userId: string, workspaceId: Option<string>): (ids: seq<Id>)
    reads db
    requires db.Valid()
    ensures forall id :: id in ids <==> id in db.nodes && Listed(db.nodes[id], userId, workspaceId)
    ensures forall i, j :: 0 <= i < j < |ids| ==> ids[i] < ids[j]
    ensures forall i :: 0 <= i < |ids| ==> ids[i] < IdSpace
  {
    Select(db.nodes, ListedBy(userId, workspaceId), db.nextId)
  }

  /** The responses for the stored nodes `ids`, in the same order. */
  function ViewsOf(db: Store, ids: seq<Id>): (views: seq<NodeView>)
    reads db
    requires forall id :: id in ids ==> id in db.nodes
    ensures |views| == |ids|
    ensures forall i :: 0 <= i < |ids| ==> views[i] == ViewOf(ids[i], db.nodes[ids[i]])
  {
    seq(|ids|, i requires 0 <= i < |ids| && ids[i] in db.nodes reads db => ViewOf(ids[i], db.nodes[ids[i]]))
  }

  /** `get_nodes`: a 404 only when a non-empty, valid workspace id is given
      that is not the caller's (an invalid one is not checked). Otherwise the
      caller's nodes, filtered by workspace, at most 1000 of them. */
  function GetNodes(db: Store, workspaceId: Option<string>, userId: string): (r: Result<seq<NodeView>, HttpError>)
    reads db
    requires db.Valid()
    ensures r.Err? <==>
      workspaceId.Some? && workspaceId.value != "" && ValidId(workspaceId.value) &&
      !OwnsWorkspace(db.workspaces, workspaceId.value, userId)
    ensures r.Err? ==> r.error == NotFound(WorkspaceNotFound)
    ensures r.Ok? ==> |r.value| <= NodeListLimit
    ensures r.Ok? ==> forall i :: 0 <= i < |r.value| ==>
      r.value[i].userId == userId &&
      (workspaceId.Some? && workspaceId.value != "" ==> r.value[i].workspaceId == workspaceId.value)
    ensures r.Ok? ==> var ids := ListedIds(db, userId, workspaceId);
      && |r.value| == (if |ids| <= NodeListLimit then |ids| else NodeListLimit)
      && forall i :: 0 <= i < |r.value| ==> r.value[i] == ViewOf(ids[i], db.nodes[ids[i]])
  {
    if workspaceId.Some? && workspaceId.value != "" && ValidId(workspaceId.value) &&
       FindOwned(db.workspaces, WorkspaceOwner, workspaceId.value, userId).None? then
      Err(NotFound(WorkspaceNotFound))
    else
      Ok(ViewsOf(db, Take(ListedIds(db, userId, workspaceId), NodeListLimit)))
  }

  /** Every response names, by its id, a stored node that matches the filter
      and is that node's view; the listing
      is in ascending id order, and complete when the caller has no more than
      1000 matching nodes. */
  lemma GetNodesSoundOrderedComplete(db: Store, workspaceId: Option<string>, userId: string)
    requires db.Valid() && GetNodes(db, workspaceId, userId).Ok?
    ensures var nodes := GetNodes(db, workspaceId, userId).value;
      && (forall i :: 0 <= i < |nodes| ==>
            ParseId(nodes[i].id).Some? && ParseId(nodes[i].id).value in db.nodes &&
            Listed(db.nodes[ParseId(nodes[i].id).value], userId, workspaceId) &&
            nodes[i] == ViewOf(ParseId(nodes[i].id).value, db.nodes[ParseId(nodes[i].id).value]))
      && (forall i, j :: 0 <= i < j < |nodes| ==> IdBefore(nodes[i].id, nodes[j].id))
      && (|ListedIds(db, userId, workspaceId)| <= NodeListLimit ==>
            forall id :: id in db.nodes && Listed(db.nodes[id], userId, workspaceId) ==> ViewOf(id, db.nodes[id]) in nodes)
  {
    var ids := Take(ListedIds(db, userId, workspaceId), NodeListLimit);
    var nodes := GetNodes(db, workspaceId, userId).value;
    assert nodes == ViewsOf(db, ids);
    forall i | 0 <= i < |nodes| ensures ParseId(nodes[i].id) == Some(ids[i]) {
      ParseIdString(ids[i]);
    }
    forall i, j | 0 <= i < j < |nodes| ensures IdBefore(nodes[i].id, nodes[j].id) {
      ParseIdString(ids[i]);
      ParseIdString(ids[j]);
    }
    if |ListedIds(db, userId, workspaceId)| <= NodeListLimit {
      forall id | id in db.nodes && Listed(db.nodes[id], userId, workspaceId)
        ensures ViewOf(id, db.nodes[id]) in nodes
      {
        var i :| 0 <= i < |ids| && ids[i] == id;
        assert nodes[i] == ViewOf(id, db.nodes[id]);
      }
    }
  }

  /** `get_node`: an invalid id is a 400; a node that is absent or not the
      caller's is a 404; otherwise the stored node. */
  function GetNode(db: Store, nodeId: string, userId: string): (r: Result<NodeView, HttpError>)
    reads db
    ensures r.Err? ==> LocateNode(db.nodes, nodeId, userId) == Err(r.error)
    ensures r.Ok? <==> OwnsNode(db.nodes, nodeId, userId)
    ensures r.Ok? ==>
      var id := ParseId(nodeId).value;
      r.value == ViewOf(id, db.nodes[id]) && r.value.userId == userId
  {
    match LocateNode(db.nodes, nodeId, userId)
    case Err(e) => Err(e)
    case Ok(id) => Ok(ViewOf(id, db.nodes[id]))
  }

  /** The partial update: a field changes exactly when the request supplies it. */
  function Patched(n: Node, update: NodeUpdate): (p: Node)
    ensures p.userId == n.userId
    ensures p.workspaceId == update.workspaceId.GetOr(n.workspaceId)
    ensures p.name == (if update.name.Some? then update.name else n.name)
    ensures p.modelId == (if update.modelId.Some? then update.modelId else n.modelId)
  {
    Node(n.userId,
         update.workspaceId.GetOr(n.workspaceId),
         if update.name.Some? then update.name else n.name,
         if update.modelId.Some? then update.modelId else n.modelId)
  }

  /** The checks `update_node` runs on the supplied fields, in order: a new
      workspace id must be valid (400) and the caller's (404), a new persona
      must be known (400). None when they all pass. */
  function FieldCheck(workspaces: map<Id, Workspace>, update: NodeUpdate, userId: string): (e: Option<HttpError>)
    ensures update.workspaceId.Some? && !OwnsWorkspace(workspaces, update.workspaceId.value, userId) ==>
      e == Some(LocateWorkspace(workspaces, update.workspaceId.value, userId).error)
    ensures e.None? <==>
      (update.workspaceId.Some? ==> OwnsWorkspace(workspaces, update.workspaceId.value, userId)) &&
      (update.modelId.Some? ==> update.modelId.value in NodeModelIds)
    ensures e.Some? && e.value.status == 400 ==> e.value.reason in {InvalidWorkspaceId, InvalidModelId}
    ensures (update.workspaceId.Some? ==> OwnsWorkspace(workspaces, update.workspaceId.value, userId)) ==>
      update.modelId.Some? && update.modelId.value !in NodeModelIds ==> e == Some(BadRequest(InvalidModelId))
  {
    if update.workspaceId.Some? && LocateWorkspace(workspaces, update.workspaceId.value, userId).Err? then
      Some(LocateWorkspace(workspaces, update.workspaceId.value, userId).error)
    else if update.modelId.Some? && update.modelId.value !in NodeModelIds then
      Some(BadRequest(InvalidModelId))
    else
      None
  }

  /** `update_node`: the 400 and 404 checks on the node, then the checks on the
      supplied fields; every check runs before the single write, so a failure
      writes nothing. On success only the supplied fields of that node change
      and the response is the node as now stored. */
  method UpdateNode(db: Store, nodeId: string, userId: string, update: NodeUpdate)
    returns (r: Result<NodeView, HttpError>)
    requires db.Valid()
    modifies db
    ensures db.Valid() && db.nextId == old(db.nextId)
    ensures db.workspaces == old(db.workspaces) && db.messages == old(db.messages)
    ensures !OwnsNode(old(db.nodes), nodeId, userId) ==> r.Err? && LocateNode(old(db.nodes), nodeId, userId) == Err(r.error)
    ensures OwnsNode(old(db.nodes), nodeId, userId) && FieldCheck(db.workspaces, update, userId).Some? ==>
      r == Err(FieldCheck(db.workspaces, update, userId).value)
    ensures r.Ok? <==> OwnsNode(old(db.nodes), nodeId, userId) && FieldCheck(db.workspaces, update, userId).None?
    ensures r.Err? ==> db.nodes == old(db.nodes)
    ensures r.Ok? ==>
      var id := ParseId(nodeId).value;
      db.nodes == old(db.nodes)[id := Patched(old(db.nodes)[id], update)] &&
      r == GetNode(db, nodeId, userId)
    ensures old(Consistent(db.workspaces, db.nodes, db.messages)) ==> Consistent(db.workspaces, db.nodes, db.messages)
  {
    var located := LocateNode(db.nodes, nodeId, userId);
    if located.Err? {
      return Err(located.error);
    }
    var id := located.value;
    var node := db.nodes[id];
    var changed := false;
    if update.workspaceId.Some? {
      var target := LocateWorkspace(db.workspaces, update.workspaceId.value, userId);
      if target.Err? {
        return Err(target.error);
      }
      node := node.(workspaceId := update.workspaceId.value);
      changed := true;
    }
    if update.name.Some? {
      node := node.(name := update.name);
      changed := true;
    }
    if update.modelId.Some? {
      if update.modelId.value !in NodeModelIds {
        return Err(BadRequest(InvalidModelId));
      }
      node := node.(modelId := update.modelId);
      changed := true;
    }
    if changed {
      db.nodes := db.nodes[id := node];
    }
    r := Ok(ViewOf(id, db.nodes[id]));
  }

  /** `delete_many({"node_id": nodeId})`: the messages whose stored node id is another string. */
  function WithoutMessagesNamed(messages: map<Id, Message>, nodeId: string): (m: map<Id, Message>)
    ensures forall k :: k in m <==> k in messages && messages[k].nodeId != nodeId
    ensures forall k :: k in m ==> m[k] == messages[k]
  {
    Where(messages, (msg: Message) => msg.nodeId != nodeId)
  }

  /** `delete_node`, as written: after the 400 and 404 checks, removes every
      message whose stored node id is the request's string, then the node;
      nothing else changes. */
  method DeleteNode(db: Store, nodeId: string, userId: string) returns (r: Result<(), HttpError>)
    requires db.Valid()
    modifies db
    ensures db.Valid() && db.nextId == old(db.nextId) && db.workspaces == old(db.workspaces)
    ensures r.Ok? <==> OwnsNode(old(db.nodes), nodeId, userId)
    ensures r.Err? ==>
      LocateNode(old(db.nodes), nodeId, userId) == Err(r.error) &&
      db.nodes == old(db.nodes) && db.messages == old(db.messages)
    ensures r.Ok? ==>
      db.nodes == old(db.nodes) - {ParseId(nodeId).value} &&
      db.messages == WithoutMessagesNamed(old(db.messages), nodeId)
  {
    var located := LocateNode(db.nodes, nodeId, userId);
    if located.Err? {
      return Err(located.error);
    }
    db.messages := WithoutMessagesNamed(db.messages, nodeId);
    db.nodes := db.nodes - {located.value};
    r := Ok(());
  }

  /** A message created with another spelling of its node's id survives the
      deletion of that node by its printed id, and is left pointing at nothing. */
  lemma DeleteNodeLeavesOrphanMessage(wsKey: Id, nodeKey: Id, msgKey: Id, userId: string)
    requires wsKey < IdSpace && nodeKey < IdSpace && nodeKey % 16 >= 10
    ensures var workspaces := map[wsKey := Workspace(userId, Some("w"))];
            var nodes := map[nodeKey := Node(userId, IdString(wsKey), Some("n"), Some("1"))];
            var messages := map[msgKey := Message(UpperSpelling(nodeKey), Some("You"), Some("hi"))];
            && Consistent(workspaces, nodes, messages)
            && OwnsNode(nodes, IdString(nodeKey), userId)
            && msgKey in WithoutMessagesNamed(messages, IdString(nodeKey))
            && !Consistent(workspaces, nodes - {nodeKey}, WithoutMessagesNamed(messages, IdString(nodeKey)))
  {
    ParseIdString(wsKey);
    ParseIdString(nodeKey);
    var spelled := UpperSpelling(nodeKey);
    var messages := map[msgKey := Message(spelled, Some("You"), Some("hi"))];
    assert msgKey in WithoutMessagesNamed(messages, IdString(nodeKey));
  }

  /** `delete_node` with messages matched to the node by id rather than by
      string: the deletion the handler is meant to perform. It leaves no
      orphans. */
  method DeleteNodeById(db: Store, nodeId: string, userId: string) returns (r: Result<(), HttpError>)
    requires db.Valid()
    modifies db
    ensures db.Valid() && db.nextId == old(db.nextId) && db.workspaces == old(db.workspaces)
    ensures r.Ok? <==> OwnsNode(old(db.nodes), nodeId, userId)
    ensures r.Err? ==>
      LocateNode(old(db.nodes), nodeId, userId) == Err(r.error) &&
      db.nodes == old(db.nodes) && db.messages == old(db.messages)
    ensures r.Ok? ==>
      var id := ParseId(nodeId).value;
      db.nodes == old(db.nodes) - {id} &&
      db.messages == WithoutMessagesOfNodes(old(db.messages), {id})
    ensures old(Consistent(db.workspaces, db.nodes, db.messages)) ==> Consistent(db.workspaces, db.nodes, db.messages)
  {
    var located := LocateNode(db.nodes, nodeId, userId);
    if located.Err? {
      return Err(located.error);
    }
    db.messages := WithoutMessagesOfNodes(db.messages, {located.value});
    db.nodes := db.nodes - {located.value};
    r := Ok(());
  }
}

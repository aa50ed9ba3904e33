/** The workspace router: create, list, read, rename and cascade-delete the
    caller's workspaces. The caller's user id comes from the bearer token. */
module Workspaces {
  import opened Results
  import opened Http
  import opened ObjectIds
  import opened Database

  /** `get_workspaces` returns at most this many workspaces. */
  const ListLimit: nat := 100

  /** The cascade collects at most this many nodes whose messages it removes. */
  const CascadeNodeLimit: nat := 1000

  datatype WorkspaceView = WorkspaceView(id: string, userId: string, name: string)

  function ViewOf(id: Id, w: Workspace): WorkspaceView {
    WorkspaceView(IdString(id), w.userId, w.name.GetOr(""))
  }

  /** The filter `{"user_id": userId}`. */
  function OwnedBy(userId: string): Workspace -> bool {
    (w: Workspace) => w.userId == userId
  }

  /** Ids of the caller's workspaces, in creation order. */
  function OwnedWorkspaceIds(db: Store, userId: string): (ids: seq<Id>)
    reads db
    requires db.Valid()
    ensures forall id :: id in ids <==> id in db.workspaces && db.workspaces[id].userId == userId
    ensures Ascending(ids)
  {
    Select(db.workspaces, OwnedBy(userId), db.nextId)
  }

  /** `create_workspace`: stores the caller as owner and the given name. */
  method CreateWorkspace(db: Store, userId: string, name: string) returns (r: WorkspaceView)
    requires db.Valid() && db.nextId < IdSpace
    modifies db
    ensures db.Valid() && db.nextId == old(db.nextId) + 1
    ensures old(db.nextId) !in old(db.workspaces)
    ensures db.workspaces == old(db.workspaces)[old(db.nextId) := Workspace(userId, Some(name))]
    ensures db.nodes == old(db.nodes) && db.messages == old(db.messages)
    ensures r == WorkspaceView(IdString(old(db.nextId)), userId, name)
    ensures GetWorkspace(db, r.id, userId) == Ok(r)
    ensures old(Consistent(db.workspaces, db.nodes, db.messages)) ==> Consistent(db.workspaces, db.nodes, db.messages)
  {
    var w := Workspace(userId, Some(name));
    var id := db.NewId();
    db.workspaces := db.workspaces[id := w];
    r := ViewOf(id, w);
    ParseIdString(id);
  }

  /** `get_workspaces`: the caller's first 100 workspaces in creation order,
      each once; all of them when the caller has at most 100. */
  function GetWorkspaces(db: Store, userId: string): (r: seq<WorkspaceView>)
    reads db
    requires db.Valid()
    ensures var owned := OwnedWorkspaceIds(db, userId);
      && |r| == (if |owned| <= ListLimit then |owned| else ListLimit)
      && forall i :: 0 <= i < |r| ==> r[i] == ViewOf(owned[i], db.workspaces[owned[i]])
    ensures forall i :: 0 <= i < |r| ==> r[i].userId == userId
    ensures forall i, j :: 0 <= i < j < |r| ==> IdBefore(r[i].id, r[j].id)
    ensures |OwnedWorkspaceIds(db, userId)| <= ListLimit ==>
      forall id :: id in db.workspaces && db.workspaces[id].userId == userId ==> ViewOf(id, db.workspaces[id]) in r
  {
    var owned := OwnedWorkspaceIds(db, userId);
    var ids := Take(owned, ListLimit);
    assert forall i :: 0 <= i < |ids| ==> ids[i] == owned[i];
    assert Ascending(ids);
    var r := ViewsOf(db, ids);
    assert forall id :: id in ids ==> ViewOf(id, db.workspaces[id]) in r by {
      forall id | id in ids ensures ViewOf(id, db.workspaces[id]) in r {
        var i :| 0 <= i < |ids| && ids[i] == id;
        assert r[i] == ViewOf(id, db.workspaces[id]);
      }
    }
    r
  }

  /** Ids that fit in twelve bytes, in ascending order. */
  predicate Ascending(ids: seq<Id>) {
    (forall i :: 0 <= i < |ids| ==> ids[i] < IdSpace) && (forall i, j :: 0 <= i < j < |ids| ==> ids[i] < ids[j])
  }

  /** The responses for the stored workspaces `ids`, in the same order; an
      ascending run of ids gives ascending printed ids. */
  function ViewsOf(db: Store, ids: seq<Id>): (views: seq<WorkspaceView>)
    reads db
    requires forall id :: id in ids ==> id in db.workspaces
    ensures |views| == |ids|
    ensures forall i :: 0 <= i < |ids| ==> views[i] == ViewOf(ids[i], db.workspaces[ids[i]])
    ensures Ascending(ids) ==> forall i, j :: 0 <= i < j < |views| ==> IdBefore(views[i].id, views[j].id)
  {
    var views := seq(|ids|, i requires 0 <= i < |ids| && ids[i] in db.workspaces reads db => ViewOf(ids[i], db.workspaces[ids[i]]));
    assert Ascending(ids) ==> forall i, j :: 0 <= i < j < |views| ==> IdBefore(views[i].id, views[j].id) by {
      if Ascending(ids) {
        forall i, j | 0 <= i < j < |views| ensures IdBefore(views[i].id, views[j].id) {
          ParseIdString(ids[i]);
          ParseIdString(ids[j]);
        }
      }
    }
    views
  }

  /** `get_workspace`: an invalid id is a 400; a workspace that is absent or
      not the caller's is a 404; otherwise the stored workspace. */
  function GetWorkspace(db: Store, workspaceId: string, userId: string): (r: Result<WorkspaceView, HttpError>)
    reads db
    ensures r.Err? ==> LocateWorkspace(db.workspaces, workspaceId, userId) == Err(r.error)
    ensures r.Ok? <==> OwnsWorkspace(db.workspaces, workspaceId, userId)
    ensures r.Ok? ==>
      var id := ParseId(workspaceId).value;
      r.value == ViewOf(id, db.workspaces[id]) && r.value.userId == userId
  {
    match LocateWorkspace(db.workspaces, workspaceId, userId)
    case Err(e) => Err(e)
    case Ok(id) => Ok(ViewOf(id, db.workspaces[id]))
  }

  /** The partial update: the name changes only when one is supplied. */
  function Renamed(w: Workspace, name: Option<string>): (u: Workspace)
    ensures u.userId == w.userId
    ensures u.name == if name.Some? then name else w.name
  {
    if name.Some? then w.(name := name) else w
  }

  /** `update_workspace`: the same 400 and 404 checks as `get_workspace`,
      nothing written on failure, and only the name changed on success. */
  method UpdateWorkspace(db: Store, workspaceId: string, userId: string, name: Option<string>)
    returns (r: Result<WorkspaceView, HttpError>)
    requires db.Valid()
    modifies db
    ensures db.Valid() && db.nextId == old(db.nextId)
    ensures db.nodes == old(db.nodes) && db.messages == old(db.messages)
    ensures r.Ok? <==> old(OwnsWorkspace(db.workspaces, workspaceId, userId))
    ensures r.Err? ==>
      old(LocateWorkspace(db.workspaces, workspaceId, userId)) == Err(r.error) &&
      db.workspaces == old(db.workspaces)
    ensures r.Ok? ==>
      var id := ParseId(workspaceId).value;
      db.workspaces == old(db.workspaces)[id := Renamed(old(db.workspaces)[id], name)] &&
      r == GetWorkspace(db, workspaceId, userId)
    ensures name.None? ==> db.workspaces == old(db.workspaces)
    ensures old(Consistent(db.workspaces, db.nodes, db.messages)) ==> Consistent(db.workspaces, db.nodes, db.messages)
  {
    var located := LocateWorkspace(db.workspaces, workspaceId, userId);
    if located.Err? {
      return Err(located.error);
    }
    var id := located.value;
    if name.Some? {
      db.workspaces := db.workspaces[id := db.workspaces[id].(name := name)];
    }
    r := Ok(ViewOf(id, db.workspaces[id]));
  }

  /** The filter `{"workspace_id": workspaceId}`, a comparison of strings. */
  function InWorkspace(workspaceId: string): Node -> bool {
    (n: Node) => n.workspaceId == workspaceId
  }

  /** The nodes whose messages the cascade removes: the first 1000 nodes whose
      stored workspace id is the request's string, whoever owns them. */
  function CascadeNodeIds(nodes: map<Id, Node>, bound: nat, workspaceId: string): (ids: seq<Id>)
    ensures IsFirst(ids, Select(nodes, InWorkspace(workspaceId), bound), CascadeNodeLimit)
    ensures forall id :: id in ids ==> id in nodes && nodes[id].workspaceId == workspaceId
    ensures |Select(nodes, InWorkspace(workspaceId), bound)| <= CascadeNodeLimit ==>
      forall id :: id < bound && id in nodes && nodes[id].workspaceId == workspaceId ==> id in ids
  {
    Take(Select(nodes, InWorkspace(workspaceId), bound), CascadeNodeLimit)
  }

  function IdStrings(ids: seq<Id>): (strs: seq<string>)
    ensures |strs| == |ids| && forall i :: 0 <= i < |ids| ==> strs[i] == IdString(ids[i])
  {
    seq(|ids|, i requires 0 <= i < |ids| => IdString(ids[i]))
  }

  /** `delete_many({"node_id": {"$in": nodeIds}})`. */
  function WithoutMessagesOf(messages: map<Id, Message>, nodeIds: seq<string>): (m: map<Id, Message>)
    ensures forall k :: k in m <==> k in messages && messages[k].nodeId !in nodeIds
    ensures forall k :: k in m ==> m[k] == messages[k]
  {
    Where(messages, (msg: Message) => msg.nodeId !in nodeIds)
  }

  /** `delete_many({"workspace_id": workspaceId})`. */
  function WithoutNodesIn(nodes: map<Id, Node>, workspaceId: string): (m: map<Id, Node>)
    ensures forall k :: k in m <==> k in nodes && nodes[k].workspaceId != workspaceId
    ensures forall k :: k in m ==> m[k] == nodes[k]
  {
    Where(nodes, (n: Node) => n.workspaceId != workspaceId)
  }

  /** `delete_workspace`, as written: after the 400 and 404 checks, removes the
      messages of the collected nodes, every node whose stored workspace id is
      the request's string, and the workspace. */
  method DeleteWorkspace(db: Store, workspaceId: string, userId: string) returns (r: Result<(), HttpError>)
    requires db.Valid()
    modifies db
    ensures db.Valid() && db.nextId == old(db.nextId)
    ensures r.Ok? <==> old(OwnsWorkspace(db.workspaces, workspaceId, userId))
    ensures r.Err? ==>
      old(LocateWorkspace(db.workspaces, workspaceId, userId)) == Err(r.error) &&
      db.workspaces == old(db.workspaces) && db.nodes == old(db.nodes) && db.messages == old(db.messages)
    ensures r.Ok? ==>
      && db.workspaces == old(db.workspaces) - {ParseId(workspaceId).value}
      && db.nodes == WithoutNodesIn(old(db.nodes), workspaceId)
      && db.messages == WithoutMessagesOf(old(db.messages), IdStrings(CascadeNodeIds(old(db.nodes), old(db.nextId), workspaceId)))
  {
    var located := LocateWorkspace(db.workspaces, workspaceId, userId);
    if located.Err? {
      return Err(located.error);
    }
    var nodeIds := IdStrings(CascadeNodeIds(db.nodes, db.nextId, workspaceId));
    if nodeIds != [] {
      db.messages := WithoutMessagesOf(db.messages, nodeIds);
    }
    db.nodes := WithoutNodesIn(db.nodes, workspaceId);
    db.workspaces := db.workspaces - {located.value};
    r := Ok(());
  }

  /** What the node and message deletes of the cascade promise, read on the
      strings they compare: no node keeps the request's workspace id, and when
      at most 1000 nodes stored it no message keeps the printed id of a removed
      node. Every other node and message is untouched. */
  lemma {:induction false} CascadeByString(nodes: map<Id, Node>, messages: map<Id, Message>, bound: nat, workspaceId: string)
    requires forall id :: id in nodes ==> id < bound
    requires |Select(nodes, InWorkspace(workspaceId), bound)| <= CascadeNodeLimit
    ensures var nodes' := WithoutNodesIn(nodes, workspaceId);
            var messages' := WithoutMessagesOf(messages, IdStrings(CascadeNodeIds(nodes, bound, workspaceId)));
            && (forall n :: n in nodes' ==> nodes'[n].workspaceId != workspaceId)
            && (forall n, m :: n in nodes && nodes[n].workspaceId == workspaceId && m in messages' ==>
                  messages'[m].nodeId != IdString(n))
            && (forall n :: n in nodes && nodes[n].workspaceId != workspaceId ==> n in nodes' && nodes'[n] == nodes[n])
            && (forall m :: m in messages && (forall n :: n in nodes && nodes[n].workspaceId == workspaceId ==> messages[m].nodeId != IdString(n))
                  ==> m in messages' && messages'[m] == messages[m])
  {
    var all := Select(nodes, InWorkspace(workspaceId), bound);
    var ids := CascadeNodeIds(nodes, bound, workspaceId);
    assert ids == all;
    var strs := IdStrings(ids);
    var messages' := WithoutMessagesOf(messages, strs);
    forall n, m | n in nodes && nodes[n].workspaceId == workspaceId && m in messages'
      ensures messages'[m].nodeId != IdString(n)
    {
      assert n in all;
      var i :| 0 <= i < |ids| && ids[i] == n;
      assert strs[i] == IdString(n);
    }
    forall m | m in messages && (forall n :: n in nodes && nodes[n].workspaceId == workspaceId ==> messages[m].nodeId != IdString(n))
      ensures m in messages'
    {
    }
  }

  /** A node created with another spelling of its workspace's id (upper-case
      hexadecimal passes the id check) survives the deletion of that
      workspace by its printed id, and is left pointing at nothing. */
  lemma DeleteWorkspaceLeavesOrphanNode(wsId: Id, nodeKey: Id, userId: string)
    requires wsId < IdSpace && wsId % 16 >= 10
    ensures var workspaces := map[wsId := Workspace(userId, Some("w"))];
            var nodes := map[nodeKey := Node(userId, UpperSpelling(wsId), Some("n"), Some("1"))];
            && Consistent(workspaces, nodes, map[])
            && OwnsWorkspace(workspaces, IdString(wsId), userId)
            && nodeKey in WithoutNodesIn(nodes, IdString(wsId))
            && !Consistent(workspaces - {wsId}, WithoutNodesIn(nodes, IdString(wsId)), map[])
  {
    var spelled := UpperSpelling(wsId);
    ParseIdString(wsId);
    var workspaces := map[wsId := Workspace(userId, Some("w"))];
    var nodes := map[nodeKey := Node(userId, spelled, Some("n"), Some("1"))];
    assert OwnsWorkspace(workspaces, spelled, userId);
    assert nodeKey in WithoutNodesIn(nodes, IdString(wsId));
  }

  /** The nodes of workspace `wsId`, whatever spelling of its id they stored. */
  function NodesOfWorkspace(nodes: map<Id, Node>, wsId: Id): (ks: set<Id>)
    ensures forall k :: k in ks <==> k in nodes && ParseId(nodes[k].workspaceId) == Some(wsId)
  {
    set k | k in nodes && ParseId(nodes[k].workspaceId) == Some(wsId)
  }

  /** `delete_workspace` with references matched by id rather than by string,
      and without the 1000-node cap: the cascade the handler is meant to be.
      It leaves no orphans. */
  method DeleteWorkspaceById(db: Store, workspaceId: string, userId: string) returns (r: Result<(), HttpError>)
    requires db.Valid()
    modifies db
    ensures db.Valid() && db.nextId == old(db.nextId)
    ensures r.Ok? <==> old(OwnsWorkspace(db.workspaces, workspaceId, userId))
    ensures r.Err? ==>
      old(LocateWorkspace(db.workspaces, workspaceId, userId)) == Err(r.error) &&
      db.workspaces == old(db.workspaces) && db.nodes == old(db.nodes) && db.messages == old(db.messages)
    ensures r.Ok? ==>
      var wsId := ParseId(workspaceId).value;
      var removed := NodesOfWorkspace(old(db.nodes), wsId);
      && db.workspaces == old(db.workspaces) - {wsId}
      && db.nodes == old(db.nodes) - removed
      && db.messages == WithoutMessagesOfNodes(old(db.messages), removed)
    ensures old(Consistent(db.workspaces, db.nodes, db.messages)) ==> Consistent(db.workspaces, db.nodes, db.messages)
  {
    var located := LocateWorkspace(db.workspaces, workspaceId, userId);
    if located.Err? {
      return Err(located.error);
    }
    var wsId := located.value;
    var removed := NodesOfWorkspace(db.nodes, wsId);
    if Consistent(db.workspaces, db.nodes, db.messages) {
      CascadeByIdKeepsConsistent(db.workspaces, db.nodes, db.messages, wsId);
    }
    db.messages := WithoutMessagesOfNodes(db.messages, removed);
    db.nodes := db.nodes - removed;
    db.workspaces := db.workspaces - {wsId};
    r := Ok(());
  }

  /** The corrected cascade keeps the store free of orphans, and touches no
      node of another workspace and no message of a surviving node. */
  lemma CascadeByIdKeepsConsistent(workspaces: map<Id, Workspace>, nodes: map<Id, Node>, messages: map<Id, Message>, wsId: Id)
    requires Consistent(workspaces, nodes, messages)
    ensures var removed := NodesOfWorkspace(nodes, wsId);
            && Consistent(workspaces - {wsId}, nodes - removed, WithoutMessagesOfNodes(messages, removed))
            && (forall k :: k in nodes && k !in removed ==> k in nodes - removed && (nodes - removed)[k] == nodes[k])
            && (forall k :: k in messages && ParseId(messages[k].nodeId).value !in removed ==>
                  k in WithoutMessagesOfNodes(messages, removed))
  {
    var removed := NodesOfWorkspace(nodes, wsId);
    var nodes' := nodes - removed;
    forall n | n in nodes'
      ensures OwnsWorkspace(workspaces - {wsId}, nodes'[n].workspaceId, nodes'[n].userId)
    {
      assert OwnsWorkspace(workspaces, nodes[n].workspaceId, nodes[n].userId);
    }
  }
}

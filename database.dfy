/** The document store behind the routers: three collections of records keyed
    by id, and the queries the routers run against them.

    Ids come from one counter, so ascending id order is creation order; a
    `find` without a sort returns documents in that order too. A record field
    that the routers read with a default (`doc.get("name", "")`) is optional
    here, because a stored document need not carry it; a field they index
    directly is always present. References between records are the strings
    the client sent, exactly as stored. */
module Database {
  import opened Results
  import opened ObjectIds
  import opened Http

  datatype Workspace = Workspace(userId: string, name: Option<string>)

  datatype Node = Node(userId: string, workspaceId: string, name: Option<string>, modelId: Option<string>)

  datatype Message = Message(nodeId: string, sender: Option<string>, content: Option<string>)

  /** Ids below `bound` whose record satisfies `keep`, in ascending order
      (a `find(filter).sort("_id", 1)`). */
  function Select<T>(m: map<Id, T>, keep: T -> bool, bound: nat): (ids: seq<Id>)
    ensures forall id :: id in ids <==> id < bound && id in m && keep(m[id])
    ensures forall i, j :: 0 <= i < j < |ids| ==> ids[i] < ids[j]
    ensures forall i :: 0 <= i < |ids| ==> ids[i] < bound
  {
    if bound == 0 then []
    else
      var earlier := Select(m, keep, bound - 1);
      if bound - 1 in m && keep(m[bound - 1]) then earlier + [bound - 1] else earlier
  }

  /** `to_list(length=n)`: the first `n` elements. */
  function Take<T>(s: seq<T>, n: nat): (r: seq<T>)
    ensures |r| <= n && |r| <= |s| && r == s[..|r|]
    ensures |s| <= n ==> r == s
    ensures |s| > n ==> |r| == n
  {
    if |s| <= n then s else s[..n]
  }

  /** `r` is the first `n` elements of `s`, or all of `s` when it has no more. */
  ghost predicate IsFirst<T>(r: seq<T>, s: seq<T>, n: nat) {
    |r| == (if |s| <= n then |s| else n) && r == s[..|r|]
  }

  /** `find(filter).sort("_id", 1).to_list(length=n)`: the first `n` matching
      ids, or all of them; with ids ascending, every matching id left out is
      greater than every id taken. */
  lemma TakeSelectFirst<T>(m: map<Id, T>, keep: T -> bool, bound: nat, n: nat)
    ensures IsFirst(Take(Select(m, keep, bound), n), Select(m, keep, bound), n)
    ensures var taken := Take(Select(m, keep, bound), n);
      forall i, id :: 0 <= i < |taken| && id in Select(m, keep, bound) && id !in taken ==> taken[i] < id
  {
    var s := Select(m, keep, bound);
    var taken := Take(s, n);
    forall i, id | 0 <= i < |taken| && id in s && id !in taken ensures taken[i] < id {
      var j :| 0 <= j < |s| && s[j] == id;
      assert j >= |taken|;
    }
  }

  /** The record `find_one({"_id": ObjectId(s), "user_id": userId})` returns,
      by id; `owner` reads a record's `user_id`. */
  function FindOwned<T>(m: map<Id, T>, owner: T -> string, s: string, userId: string): (r: Option<Id>)
    requires ValidId(s)
    ensures r.Some? <==> ParseId(s).value in m && owner(m[ParseId(s).value]) == userId
    ensures r.Some? ==> r.value == ParseId(s).value
  {
    var id := ParseId(s).value;
    if id in m && owner(m[id]) == userId then Some(id) else None
  }

  function WorkspaceOwner(w: Workspace): string { w.userId }

  function NodeOwner(n: Node): string { n.userId }

  /** True when the string `s` names a workspace of `userId`. */
  predicate OwnsWorkspace(workspaces: map<Id, Workspace>, s: string, userId: string) {
    ValidId(s) && FindOwned(workspaces, WorkspaceOwner, s, userId).Some?
  }

  /** True when the string `s` names a node of `userId`. */
  predicate OwnsNode(nodes: map<Id, Node>, s: string, userId: string) {
    ValidId(s) && FindOwned(nodes, NodeOwner, s, userId).Some?
  }

  /** Referential integrity of the store: every node lies in an existing
      workspace of its own owner, and every message in an existing node.
      A cascade that leaves no orphans keeps this. */
  ghost predicate Consistent(workspaces: map<Id, Workspace>, nodes: map<Id, Node>, messages: map<Id, Message>) {
    && (forall n :: n in nodes ==> OwnsWorkspace(workspaces, nodes[n].workspaceId, nodes[n].userId))
    && (forall m :: m in messages ==> ValidId(messages[m].nodeId) && ParseId(messages[m].nodeId).value in nodes)
  }

  /** The 400 and 404 checks run on a workspace id taken from the request. */
  function LocateWorkspace(workspaces: map<Id, Workspace>, s: string, userId: string): (r: Result<Id, HttpError>)
    ensures !ValidId(s) ==> r == Err(BadRequest(InvalidWorkspaceId))
    ensures ValidId(s) && !OwnsWorkspace(workspaces, s, userId) ==> r == Err(NotFound(WorkspaceNotFound))
    ensures r.Ok? <==> OwnsWorkspace(workspaces, s, userId)
    ensures r.Ok? ==> ParseId(s) == Some(r.value) && r.value in workspaces && workspaces[r.value].userId == userId
  {
    if !ValidId(s) then Err(BadRequest(InvalidWorkspaceId))
    else match FindOwned(workspaces, WorkspaceOwner, s, userId)
      case None => Err(NotFound(WorkspaceNotFound))
      case Some(id) => Ok(id)
  }

  /** The 400 and 404 checks run on a node id taken from the request. */
  function LocateNode(nodes: map<Id, Node>, s: string, userId: string): (r: Result<Id, HttpError>)
    ensures !ValidId(s) ==> r == Err(BadRequest(InvalidNodeId))
    ensures ValidId(s) && !OwnsNode(nodes, s, userId) ==> r == Err(NotFound(NodeNotFound))
    ensures r.Ok? <==> OwnsNode(nodes, s, userId)
    ensures r.Ok? ==> ParseId(s) == Some(r.value) && r.value in nodes && nodes[r.value].userId == userId
  {
    if !ValidId(s) then Err(BadRequest(InvalidNodeId))
    else match FindOwned(nodes, NodeOwner, s, userId)
      case None => Err(NotFound(NodeNotFound))
      case Some(id) => Ok(id)
  }

  /** True when `s` is a valid id naming one of `ids`, in any spelling. */
  predicate NamesOneOf(s: string, ids: set<Id>) {
    ValidId(s) && ParseId(s).value in ids
  }

  /** `delete_many(filter)` on a collection: the records the filter does not
      match, each kept unchanged; `keep` is the negated filter. */
  function Where<T>(m: map<Id, T>, keep: T -> bool): (r: map<Id, T>)
    ensures forall k :: k in r <==> k in m && keep(m[k])
    ensures forall k :: k in r ==> r[k] == m[k]
  {
    map k | k in m && keep(m[k]) :: m[k]
  }

  /** The messages that do not belong to any of `removed`, matched by id. */
  function WithoutMessagesOfNodes(messages: map<Id, Message>, removed: set<Id>): (m: map<Id, Message>)
    ensures forall k :: k in m <==> k in messages && !NamesOneOf(messages[k].nodeId, removed)
    ensures forall k :: k in m ==> m[k] == messages[k]
  {
    Where(messages, (msg: Message) => !NamesOneOf(msg.nodeId, removed))
  }

  /** Id order on printed ids: both valid, the first naming the smaller id. */
  predicate IdBefore(s: string, t: string) {
    ValidId(s) && ValidId(t) && ParseId(s).value < ParseId(t).value
  }

  /** The database: the three collections, and the id counter they share. */
  class Store {
    var workspaces: map<Id, Workspace>
    var nodes: map<Id, Node>
    var messages: map<Id, Message>
    var nextId: Id

    /** Every stored id was handed out by the counter, and ids fit in twelve bytes. */
    ghost predicate Valid()
      reads this
    {
      && nextId <= IdSpace
      && (forall id :: id in workspaces ==> id < nextId)
      && (forall id :: id in nodes ==> id < nextId)
      && (forall id :: id in messages ==> id < nextId)
    }

    constructor ()
      ensures Valid()
      ensures workspaces == map[] && nodes == map[] && messages == map[]
    {
      workspaces, nodes, messages := map[], map[], map[];
      nextId := 0;
    }

    /** A fresh id for `insert_one`: greater than every id in use. */
    method NewId() returns (id: Id)
      requires Valid() && nextId < IdSpace
      modifies this`nextId
      ensures id == old(nextId) && nextId == id + 1
      ensures Valid()
      ensures id !in workspaces && id !in nodes && id !in messages
    {
      id := nextId;
      nextId := nextId + 1;
    }
  }
}

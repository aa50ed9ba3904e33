/** The message router: the turns of a conversation, each sent by the user
    ("You") or the model ("AI"). A message is reached through its node, and
    only the node's owner may read, change or delete it. */
module Messages {
  import opened Results
  import opened Http
  import opened ObjectIds
  import opened Database

  /** The senders a message may name. */
  const Senders: seq<string> := ["AI", "You"]

  /** `get_messages` returns at most this many messages. */
  const MessageListLimit: nat := 1000

  datatype MessageCreate = MessageCreate(nodeId: string, sender: string, content: string)

  /** A field left out of the request body is None. */
  datatype MessageUpdate = MessageUpdate(sender: Option<string>, content: Option<string>)

  datatype MessageView = MessageView(id: string, nodeId: string, sender: string, content: string)

  /** The response for a stored message. Sender and content are read without a
      default, so a document lacking either fails with a 500. */
  function ViewOf(id: Id, m: Message): (r: Result<MessageView, HttpError>)
    ensures r.Ok? <==> m.sender.Some? && m.content.Some?
    ensures r.Err? ==> r.error == ServerError(MissingField)
    ensures r.Ok? ==> r.value == MessageView(IdString(id), m.nodeId, m.sender.value, m.content.value)
  {
    if m.sender.Some? && m.content.Some? then Ok(MessageView(IdString(id), m.nodeId, m.sender.value, m.content.value))
    else Err(ServerError(MissingField))
  }

  /** Every stored sender is "AI" or "You". */
  ghost predicate SendersValid(messages: map<Id, Message>) {
    forall k :: k in messages && messages[k].sender.Some? ==> messages[k].sender.value in Senders
  }

  /** `create_message`: an unknown sender is a 400, then an invalid node id a
      400, then a node that is not the caller's a 404; nothing is stored on
      failure. On success the message holds exactly the request's node id,
      sender and content, and can be read back. */
  method CreateMessage(db: Store, userId: string, request: MessageCreate) returns (r: Result<MessageView, HttpError>)
    requires db.Valid() && db.nextId < IdSpace
    modifies db
    ensures db.Valid()
    ensures db.workspaces == old(db.workspaces) && db.nodes == old(db.nodes)
    ensures request.sender !in Senders ==> r == Err(BadRequest(InvalidSender))
    ensures request.sender in Senders && !ValidId(request.nodeId) ==> r == Err(BadRequest(InvalidNodeId))
    ensures request.sender in Senders && ValidId(request.nodeId) && !OwnsNode(db.nodes, request.nodeId, userId) ==>
      r == Err(NotFound(NodeNotFound))
    ensures r.Ok? <==> request.sender in Senders && OwnsNode(db.nodes, request.nodeId, userId)
    ensures r.Err? ==> db.messages == old(db.messages) && db.nextId == old(db.nextId)
    ensures r.Ok? ==> db.nextId == old(db.nextId) + 1
    ensures r.Ok? ==>
      var id := old(db.nextId);
      && id !in old(db.messages)
      && db.messages == old(db.messages)[id := Message(request.nodeId, Some(request.sender), Some(request.content))]
      && r.value == MessageView(IdString(id), request.nodeId, request.sender, request.content)
      && GetMessage(db, r.value.id, userId) == Ok(r.value)
    ensures old(SendersValid(db.messages)) ==> SendersValid(db.messages)
    ensures old(Consistent(db.workspaces, db.nodes, db.messages)) ==> Consistent(db.workspaces, db.nodes, db.messages)
  {
    if request.sender !in Senders {
      return Err(BadRequest(InvalidSender));
    }
    var located := LocateNode(db.nodes, request.nodeId, userId);
    if located.Err? {
      return Err(located.error);
    }
    var message := Message(request.nodeId, Some(request.sender), Some(request.content));
    var id := db.NewId();
    db.messages := db.messages[id := message];
    ParseIdString(id);
    r := Ok(MessageView(IdString(id), request.nodeId, request.sender, request.content));
  }

  /** True when `get_messages` filters by node: a node id is given and non-empty. */
  predicate Filtered(nodeId: Option<string>) {
    nodeId.Some? && nodeId.value != ""
  }

  /** The filter of `get_messages`: the given node id as a string, or none. */
  predicate Matches(m: Message, nodeId: Option<string>) {
    Filtered(nodeId) ==> m.nodeId == nodeId.value
  }

  function MatchedBy(nodeId: Option<string>): Message -> bool {
    (m: Message) => Matches(m, nodeId)
  }

  /** Ids of the messages `get_messages` reads: the first 1000 matching ones,
      in creation order. */
  function ListedIds(db: Store, nodeId: Option<string>): (ids: seq<Id>)
    reads db
    requires db.Valid()
    ensures IsFirst(ids, Select(db.messages, MatchedBy(nodeId), db.nextId), MessageListLimit)
    ensures |ids| <= MessageListLimit
    ensures forall id :: id in ids ==> id in db.messages && Matches(db.messages[id], nodeId)
    ensures |Select(db.messages, MatchedBy(nodeId), db.nextId)| <= MessageListLimit ==>
      forall id :: id in db.messages && Matches(db.messages[id], nodeId) ==> id in ids
  {
    Take(Select(db.messages, MatchedBy(nodeId), db.nextId), MessageListLimit)
  }

  /** The responses for `ids` in order, or a 500 when one of them lacks a field. */
  function ViewsOf(db: Store, ids: seq<Id>): (r: Result<seq<MessageView>, HttpError>)
    reads db
    requires forall id :: id in ids ==> id in db.messages
    ensures r.Ok? <==> forall i :: 0 <= i < |ids| ==> ViewOf(ids[i], db.messages[ids[i]]).Ok?
    ensures r.Err? ==> r.error == ServerError(MissingField)
    ensures r.Ok? ==> |r.value| == |ids| && forall i :: 0 <= i < |ids| ==> Ok(r.value[i]) == ViewOf(ids[i], db.messages[ids[i]])
  {
    if ids == [] then Ok([])
    else match (ViewOf(ids[0], db.messages[ids[0]]), ViewsOf(db, ids[1..]))
      case (Ok(v), Ok(vs)) => Ok([v] + vs)
      case (Ok(v), Err(e)) => Err(e)
      case (Err(e), _) => Err(e)
  }

  /** `get_messages`: with a node id, the node checks (400, 404) and then that
      node's messages only; without one, every message of every user. At most
      1000 messages either way. */
  function GetMessages(db: Store, nodeId: Option<string>, userId: string): (r: Result<seq<MessageView>, HttpError>)
    reads db
    requires db.Valid()
    ensures Filtered(nodeId) && !OwnsNode(db.nodes, nodeId.value, userId) ==>
      r.Err? && LocateNode(db.nodes, nodeId.value, userId) == Err(r.error)
    ensures r.Err? && r.error.status != 500 ==> Filtered(nodeId) && !OwnsNode(db.nodes, nodeId.value, userId)
    ensures r.Ok? ==> |r.value| <= MessageListLimit
    ensures r.Ok? && Filtered(nodeId) ==> forall i :: 0 <= i < |r.value| ==> r.value[i].nodeId == nodeId.value
    ensures !(Filtered(nodeId) && !OwnsNode(db.nodes, nodeId.value, userId)) ==> r == ViewsOf(db, ListedIds(db, nodeId))
  {
    if Filtered(nodeId) && LocateNode(db.nodes, nodeId.value, userId).Err? then
      Err(LocateNode(db.nodes, nodeId.value, userId).error)
    else
      ViewsOf(db, ListedIds(db, nodeId))
  }

  /** Every response names, by its id, a stored message that matches the
      filter and is that message's view; when at most 1000 messages match,
      every one of them is listed. */
  lemma GetMessagesSoundAndComplete(db: Store, nodeId: Option<string>, userId: string)
    requires db.Valid() && GetMessages(db, nodeId, userId).Ok?
    ensures var listed := GetMessages(db, nodeId, userId).value;
      forall i :: 0 <= i < |listed| ==>
        ParseId(listed[i].id).Some? && ParseId(listed[i].id).value in db.messages &&
        Matches(db.messages[ParseId(listed[i].id).value], nodeId) &&
        Ok(listed[i]) == ViewOf(ParseId(listed[i].id).value, db.messages[ParseId(listed[i].id).value])
    ensures var listed := GetMessages(db, nodeId, userId).value;
      |Select(db.messages, MatchedBy(nodeId), db.nextId)| <= MessageListLimit ==>
        forall id :: id in db.messages && Matches(db.messages[id], nodeId) ==>
          ViewOf(id, db.messages[id]).Ok? && ViewOf(id, db.messages[id]).value in listed
  {
    var ids := ListedIds(db, nodeId);
    var listed := GetMessages(db, nodeId, userId).value;
    assert Ok(listed) == ViewsOf(db, ids);
    forall i | 0 <= i < |listed| ensures ParseId(listed[i].id) == Some(ids[i]) {
      assert ids[i] in Select(db.messages, MatchedBy(nodeId), db.nextId);
      ParseIdString(ids[i]);
    }
    if |Select(db.messages, MatchedBy(nodeId), db.nextId)| <= MessageListLimit {
      forall id | id in db.messages && Matches(db.messages[id], nodeId)
        ensures ViewOf(id, db.messages[id]).Ok? && ViewOf(id, db.messages[id]).value in listed
      {
        var i :| 0 <= i < |ids| && ids[i] == id;
        assert Ok(listed[i]) == ViewOf(id, db.messages[id]);
      }
    }
  }

  /** Without a node id the listing has no owner filter: it is the same for every caller. */
  lemma GetMessagesIgnoresCaller(db: Store, nodeId: Option<string>, user1: string, user2: string)
    requires db.Valid() && !Filtered(nodeId)
    ensures GetMessages(db, nodeId, user1) == GetMessages(db, nodeId, user2)
  {
  }

  /** The access check of `get_message`, `update_message` and `delete_message`,
      in order: an invalid message id is a 400, an absent message a 404, a
      stored node id that is invalid a 400, a node that is not the caller's a
      403 (also when the node no longer exists). */
  function LocateMessage(db: Store, messageId: string, userId: string): (r: Result<Id, HttpError>)
    reads db
    ensures !ValidId(messageId) ==> r == Err(BadRequest(InvalidMessageId))
    ensures ValidId(messageId) && ParseId(messageId).value !in db.messages ==> r == Err(NotFound(MessageNotFound))
    ensures ValidId(messageId) && ParseId(messageId).value in db.messages ==>
      var m := db.messages[ParseId(messageId).value];
      && (!ValidId(m.nodeId) ==> r == Err(BadRequest(InvalidNodeId)))
      && (ValidId(m.nodeId) && !OwnsNode(db.nodes, m.nodeId, userId) ==> r == Err(Forbidden(AccessDenied)))
    ensures r.Ok? <==>
      ValidId(messageId) && ParseId(messageId).value in db.messages &&
      OwnsNode(db.nodes, db.messages[ParseId(messageId).value].nodeId, userId)
    ensures r.Ok? ==> ParseId(messageId) == Some(r.value)
  {
    if !ValidId(messageId) then Err(BadRequest(InvalidMessageId))
    else
      var id := ParseId(messageId).value;
      if id !in db.messages then Err(NotFound(MessageNotFound))
      else if !ValidId(db.messages[id].nodeId) then Err(BadRequest(InvalidNodeId))
      else if FindOwned(db.nodes, NodeOwner, db.messages[id].nodeId, userId).None? then Err(Forbidden(AccessDenied))
      else Ok(id)
  }

  /** `get_message`: the access check, then the stored message. */
  function GetMessage(db: Store, messageId: string, userId: string): (r: Result<MessageView, HttpError>)
    reads db
    ensures LocateMessage(db, messageId, userId).Err? ==> r == Err(LocateMessage(db, messageId, userId).error)
    ensures LocateMessage(db, messageId, userId).Ok? ==>
      var id := LocateMessage(db, messageId, userId).value;
      r == ViewOf(id, db.messages[id])
  {
    match LocateMessage(db, messageId, userId)
    case Err(e) => Err(e)
    case Ok(id) => ViewOf(id, db.messages[id])
  }

  /** The partial update: a field changes exactly when the request supplies
      it, and the node id never changes. */
  function Patched(m: Message, update: MessageUpdate): (p: Message)
    ensures p.nodeId == m.nodeId
    ensures p.sender == (if update.sender.Some? then update.sender else m.sender)
    ensures p.content == (if update.content.Some? then update.content else m.content)
  {
    Message(m.nodeId,
            if update.sender.Some? then update.sender else m.sender,
            if update.content.Some? then update.content else m.content)
  }

  /** The checks `update_message` runs before it writes: the access check,
      then (only after it) a supplied sender must be "AI" or "You". */
  function UpdateCheck(db: Store, messageId: string, userId: string, update: MessageUpdate): (r: Result<Id, HttpError>)
    reads db
    ensures LocateMessage(db, messageId, userId).Err? ==> r == LocateMessage(db, messageId, userId)
    ensures LocateMessage(db, messageId, userId).Ok? && update.sender.Some? && update.sender.value !in Senders ==>
      r == Err(BadRequest(InvalidSender))
    ensures r.Ok? <==> LocateMessage(db, messageId, userId).Ok? && (update.sender.Some? ==> update.sender.value in Senders)
    ensures r.Ok? ==> r == LocateMessage(db, messageId, userId)
  {
    match LocateMessage(db, messageId, userId)
    case Err(e) => Err(e)
    case Ok(id) => if update.sender.Some? && update.sender.value !in Senders then Err(BadRequest(InvalidSender)) else Ok(id)
  }

  /** `update_message`: nothing is written when a check fails. Otherwise only
      the supplied fields of that message change, and the response is the
      message as now stored (a 500, after the write, when it lacks a field). */
  method UpdateMessage(db: Store, messageId: string, userId: string, update: MessageUpdate)
    returns (r: Result<MessageView, HttpError>)
    requires db.Valid()
    modifies db
    ensures db.Valid() && db.nextId == old(db.nextId)
    ensures db.workspaces == old(db.workspaces) && db.nodes == old(db.nodes)
    ensures old(UpdateCheck(db, messageId, userId, update)).Err? ==>
      r == Err(old(UpdateCheck(db, messageId, userId, update)).error) && db.messages == old(db.messages)
    ensures old(UpdateCheck(db, messageId, userId, update)).Ok? ==>
      var id := old(UpdateCheck(db, messageId, userId, update)).value;
      && db.messages == old(db.messages)[id := Patched(old(db.messages)[id], update)]
      && db.messages[id].nodeId == old(db.messages)[id].nodeId
      && r == GetMessage(db, messageId, userId)
    ensures old(SendersValid(db.messages)) ==> SendersValid(db.messages)
    ensures old(Consistent(db.workspaces, db.nodes, db.messages)) ==> Consistent(db.workspaces, db.nodes, db.messages)
  {
    var located := LocateMessage(db, messageId, userId);
    if located.Err? {
      return Err(located.error);
    }
    var id := located.value;
    if update.sender.Some? && update.sender.value !in Senders {
      return Err(BadRequest(InvalidSender));
    }
    var message := db.messages[id];
    var changed := false;
    if update.sender.Some? {
      message := message.(sender := update.sender);
      changed := true;
    }
    if update.content.Some? {
      message := message.(content := update.content);
      changed := true;
    }
    if changed {
      db.messages := db.messages[id := message];
    }
    r := ViewOf(id, db.messages[id]);
  }

  /** `delete_message`: after the access check, removes exactly that message. */
  method DeleteMessage(db: Store, messageId: string, userId: string) returns (r: Result<(), HttpError>)
    requires db.Valid()
    modifies db
    ensures db.Valid() && db.nextId == old(db.nextId)
    ensures db.workspaces == old(db.workspaces) && db.nodes == old(db.nodes)
    ensures old(LocateMessage(db, messageId, userId)).Err? ==>
      r == Err(old(LocateMessage(db, messageId, userId)).error) && db.messages == old(db.messages)
    ensures old(LocateMessage(db, messageId, userId)).Ok? ==>
      r.Ok? && db.messages == old(db.messages) - {ParseId(messageId).value}
    ensures old(SendersValid(db.messages)) ==> SendersValid(db.messages)
    ensures old(Consistent(db.workspaces, db.nodes, db.messages)) ==> Consistent(db.workspaces, db.nodes, db.messages)
  {
    var located := LocateMessage(db, messageId, userId);
    if located.Err? {
      return Err(located.error);
    }
    db.messages := db.messages - {located.value};
    r := Ok(());
  }
}

/**
 * The request handlers of the service core. User management, session
 * management and the chat service are collaborators whose answers are the
 * fields of a Services value; a handler returns the error code it selects
 * and the log of collaborator calls it issued, in order. A call whose
 * result the handler ignores (session renewal, a per-member notice) has no
 * answer here, so nothing the handler returns can depend on it.
 */
module Core {
  import opened Types

  /** The lifetime a login gives a new session: two hours. */
  const SessTimeoutS: nat := 60 * 60 * 2

  /** The error codes a handler puts in its reply; Success is the wire format's Ok. */
  datatype ErrCode = Success | UnknownErr | UserFailedToAuth | UserAlreadyRegistered | IsNotContact | UserNotInGroup | Timeout

  /** A collaborator's error; all a handler asks of one is whether it wraps the timeout error. */
  datatype CallError = TimedOut | OtherFailure

  /** The peer address of the wire format: a union that may also be left unset. */
  datatype ApiPeerId = ApiUid(uid: nat) | ApiGroupId(groupId: nat) | ApiUnset

  datatype ApiChatMsg = ApiChatMsg(msgType: int, sentTsMs: nat, senderUid: nat, msgContent: string, readMsgId: nat)

  datatype ApiConvMsg = ApiConvMsg(
    seqId: nat,
    convMsgId: nat,
    randMsgId: nat,
    receiverId: ApiPeerId,
    msg: ApiChatMsg,
    isRead: bool,
    status: nat)

  /** The calls a handler makes on its collaborators. */
  datatype Call =
    | UserAuthenticate(username: string, passHash: string)
    | UserGetInfoByUsername(username: string)
    | CreateSess(username: string, uid: nat, timeoutS: nat)
    | UserInfoValidate(username: string, password: string, email: string)
    | IsUsernameExisted(username: string)
    | Register(username: string, passHash: string, nickname: string, email: string, avatar: string)
    | GetSessCtx(sessId: SessId)
    | RenewSessCtx(sessId: SessId, timeoutS: nat)
    | GetChatMsgList(uid: nat, seqId: nat)
    | ContactGetRelation(uid: nat, peerUid: nat)
    | GroupIsMem(groupId: nat, uid: nat)
    | SendMsg(msg: ChatMsgOfConv)
    | AllocateGroupSeqId(groupId: nat)
    | GroupGetMemList(groupId: nat)
    | GroupDelete(uid: nat, groupId: nat)
    | GroupLeave(groupId: nat, uid: nat)
    | GroupDelMem(groupId: nat, uid: nat, memberUid: nat)
    | GroupAccept(groupId: nat, uid: nat, memberUid: nat)
    | GroupReject(groupId: nat, uid: nat, memberUid: nat)
    | SendMsgToUser(uid: nat, msg: ChatMsgOfConv)

  /** What each collaborator answers. */
  datatype Services = Services(
    passHash: string -> string,
    userAuthenticate: (string, string) -> Result<bool, CallError>,
    userGetInfoByUsername: string -> Result<nat, CallError>,
    createSess: (string, nat, nat) -> Result<SessId, CallError>,
    userInfoValidate: (string, string, string) -> Outcome<CallError>,
    isUsernameExisted: string -> Result<bool, CallError>,
    register: (string, string, string, string, string) -> Outcome<CallError>,
    getSessCtx: SessId -> Result<SessCtx, CallError>,
    getChatMsgList: (nat, nat) -> Result<seq<ChatMsgOfConv>, CallError>,
    contactGetRelation: (nat, nat) -> Result<bool, CallError>,
    groupIsMem: (nat, nat) -> Result<bool, CallError>,
    sendMsg: ChatMsgOfConv -> Outcome<CallError>,
    allocateGroupSeqId: nat -> Result<nat, CallError>,
    groupGetMemList: nat -> Result<seq<nat>, CallError>,
    groupDelete: (nat, nat) -> Outcome<CallError>,
    groupLeave: (nat, nat) -> Outcome<CallError>,
    groupDelMem: (nat, nat, nat) -> Outcome<CallError>,
    groupAccept: (nat, nat, nat) -> Outcome<CallError>,
    groupReject: (nat, nat, nat) -> Outcome<CallError>)

  datatype Reply = Reply(code: ErrCode, calls: seq<Call>)

  datatype LoginReply = LoginReply(code: ErrCode, sessId: SessId, uid: nat, calls: seq<Call>)

  datatype UpdateListReply = UpdateListReply(code: ErrCode, msgList: seq<ApiConvMsg>, seqId: nat, calls: seq<Call>)

  /** How a handler ends: with a reply, or by dereferencing a missing session context. */
  datatype Completion = Returned(reply: Reply) | NilDereference(calls: seq<Call>)

  /** No message of any kind was handed to the chat service. */
  predicate NoMessageSent(calls: seq<Call>)
  {
    forall c | c in calls :: !c.SendMsg? && !c.SendMsgToUser?
  }

  // ---------------------------------------------------------------------
  // Peer addresses between the wire format and the stored form

  /** The stored address of a set wire address. */
  function FromApiPeer(p: ApiPeerId): (r: PeerId)
    requires !p.ApiUnset?
    ensures r.peerIdType == PeerIdTypeUid <==> p.ApiUid?
  {
    match p
    case ApiUid(uid) => UserPeer(uid)
    case ApiGroupId(groupId) => GroupPeer(groupId)
  }

  /** The wire address of a stored one: the Uid variant for the Uid type, the GroupId variant for any other. */
  function ToApiPeer(p: PeerId): ApiPeerId
  {
    if p.peerIdType == PeerIdTypeUid then ApiUid(p.uid) else ApiGroupId(p.groupId)
  }

  /** Storing a set wire address and reading it back gives the same address. */
  lemma ApiPeerRoundTrip(p: ApiPeerId)
    requires !p.ApiUnset?
    ensures ToApiPeer(FromApiPeer(p)) == p
  {
  }

  /**
   * A stored address reads back unchanged from the wire exactly when it is
   * in the form the handlers build: a uid address with group 0 or a group
   * address with uid 0.
   */
  lemma PeerRoundTrip(p: PeerId)
    ensures FromApiPeer(ToApiPeer(p)) == p <==> p == UserPeer(p.uid) || p == GroupPeer(p.groupId)
  {
  }

  /** The wire form of an inbox message. */
  function ToApiConvMsg(m: ChatMsgOfConv): ApiConvMsg
  {
    ApiConvMsg(m.seqId, m.convMsgId, m.randMsgId, ToApiPeer(m.receiverId),
               ApiChatMsg(m.msg.msgType, m.msg.sentTsMs, m.msg.senderUid, m.msg.msgContent, m.msg.readMsgId),
               m.isRead, m.status)
  }

  /** The cursor a poll returns: the last message's seqId, or the request's own cursor when nothing came. */
  function NewCursor(msgs: seq<ChatMsgOfConv>, localSeqId: nat): nat
  {
    if |msgs| > 0 then msgs[|msgs| - 1].seqId else localSeqId
  }

  /**
   * For a batch in ascending seqId order, all after the cursor (as the
   * message list is fetched), the new cursor never moves back and covers
   * every message delivered, so the next poll starts after all of them.
   */
  lemma NewCursorCovers(msgs: seq<ChatMsgOfConv>, localSeqId: nat)
    requires forall i, j | 0 <= i < j < |msgs| :: msgs[i].seqId < msgs[j].seqId
    requires forall i | 0 <= i < |msgs| :: msgs[i].seqId > localSeqId
    ensures NewCursor(msgs, localSeqId) >= localSeqId
    ensures msgs != [] ==> NewCursor(msgs, localSeqId) > localSeqId
    ensures forall i | 0 <= i < |msgs| :: msgs[i].seqId <= NewCursor(msgs, localSeqId)
  {
    if msgs != [] {
      var last := |msgs| - 1;
      assert forall i | 0 <= i < last :: msgs[i].seqId < msgs[last].seqId;
    }
  }

  // ---------------------------------------------------------------------
  // Sessions and accounts

  /**
   * Logs a user in: authenticates the username with the hash of the
   * password, looks up the user's uid and creates a session of
   * SessTimeoutS seconds for it.
   */
  function SessUserLogin(svc: Services, username: string, password: string): (r: LoginReply)
    ensures |r.calls| >= 1 && r.calls[0] == UserAuthenticate(username, svc.passHash(password))
    ensures r.code in {Success, UnknownErr, UserFailedToAuth}
    ensures r.code == UserFailedToAuth <==> svc.userAuthenticate(username, svc.passHash(password)) == Ok(false)
    ensures forall c | c in r.calls && c.CreateSess? ::
      && svc.userAuthenticate(username, svc.passHash(password)) == Ok(true)
      && svc.userGetInfoByUsername(username).Ok?
      && c == CreateSess(username, svc.userGetInfoByUsername(username).value, SessTimeoutS)
    ensures r.code == Success <==>
      && svc.userAuthenticate(username, svc.passHash(password)) == Ok(true)
      && svc.userGetInfoByUsername(username).Ok?
      && svc.createSess(username, svc.userGetInfoByUsername(username).value, SessTimeoutS).Ok?
    ensures r.code == Success ==>
      && r.uid == svc.userGetInfoByUsername(username).value
      && r.sessId == svc.createSess(username, r.uid, SessTimeoutS).value
    ensures r.code != Success ==> r.sessId == "" && r.uid == 0
  {
    var passHash := svc.passHash(password);
    var auth := [UserAuthenticate(username, passHash)];
    match svc.userAuthenticate(username, passHash)
    case Err(_) => LoginReply(UnknownErr, "", 0, auth)
    case Ok(pass) =>
      if !pass then LoginReply(UserFailedToAuth, "", 0, auth)
      else
        var looked := auth + [UserGetInfoByUsername(username)];
        match svc.userGetInfoByUsername(username)
        case Err(_) => LoginReply(UnknownErr, "", 0, looked)
        case Ok(uid) =>
          var created := looked + [CreateSess(username, uid, SessTimeoutS)];
          match svc.createSess(username, uid, SessTimeoutS)
          case Err(_) => LoginReply(UnknownErr, "", 0, created)
          case Ok(sessId) => LoginReply(Success, sessId, uid, created)
  }

  /**
   * Registers a user: validates username, password and email, refuses a
   * username that exists, and registers the account with the password's
   * hash.
   */
  function UmRegister(svc: Services, username: string, password: string, email: string,
                      nickname: string, avatar: string): (r: Reply)
    ensures |r.calls| >= 1 && r.calls[0] == UserInfoValidate(username, password, email)
    ensures r.code in {Success, UnknownErr, UserAlreadyRegistered}
    ensures r.code == UserAlreadyRegistered <==>
      svc.userInfoValidate(username, password, email).Pass? && svc.isUsernameExisted(username) == Ok(true)
    ensures forall c | c in r.calls && c.Register? ::
      && svc.userInfoValidate(username, password, email).Pass?
      && svc.isUsernameExisted(username) == Ok(false)
      && c == Register(username, svc.passHash(password), nickname, email, avatar)
    ensures r.code == Success <==>
      && svc.userInfoValidate(username, password, email).Pass?
      && svc.isUsernameExisted(username) == Ok(false)
      && svc.register(username, svc.passHash(password), nickname, email, avatar).Pass?
  {
    var validated := [UserInfoValidate(username, password, email)];
    match svc.userInfoValidate(username, password, email)
    case Fail(_) => Reply(UnknownErr, validated)
    case Pass =>
      var asked := validated + [IsUsernameExisted(username)];
      match svc.isUsernameExisted(username)
      case Err(_) => Reply(UnknownErr, asked)
      case Ok(taken) =>
        if taken then Reply(UserAlreadyRegistered, asked)
        else
          var passHash := svc.passHash(password);
          var registered := asked + [Register(username, passHash, nickname, email, avatar)];
          Reply(if svc.register(username, passHash, nickname, email, avatar).Pass? then Success else UnknownErr, registered)
  }

  // ---------------------------------------------------------------------
  // Chat

  /** May uid write to peer: a mutual contact, or a group uid belongs to. */
  predicate Permitted(svc: Services, uid: nat, peer: ApiPeerId)
  {
    match peer
    case ApiUid(peerUid) => svc.contactGetRelation(uid, peerUid) == Ok(true)
    case ApiGroupId(groupId) => svc.groupIsMem(groupId, uid) == Ok(true)
    case ApiUnset => false
  }

  /**
   * The message a send hands to the chat service: addressed to receiver,
   * from senderUid, stamped nowMs, with the request's type, content,
   * read cursor and random id.
   */
  function Outgoing(receiver: PeerId, senderUid: nat, req: ApiConvMsg, nowMs: nat): ChatMsgOfConv
  {
    ChatMsgOfConv(0, 0, req.randMsgId, receiver,
                  ChatMsg(senderUid, nowMs, req.msg.msgType, req.msg.msgContent, req.msg.readMsgId),
                  false, 0)
  }

  /**
   * Sends a chat message for the session's user. A direct message needs a
   * mutual contact, a group message membership of the group; an unset peer
   * is refused. The sender is always the session's uid, whatever the
   * request carries.
   */
  function ChatSendMsg(svc: Services, sessId: SessId, req: ApiConvMsg, nowMs: nat): (r: Reply)
    ensures |r.calls| >= 1 && r.calls[0] == GetSessCtx(sessId)
    ensures svc.getSessCtx(sessId).Err? ==> r == Reply(UnknownErr, [GetSessCtx(sessId)])
    ensures r.code in {Success, UnknownErr, IsNotContact, UserNotInGroup}
    ensures r.code == IsNotContact <==>
      && svc.getSessCtx(sessId).Ok? && req.receiverId.ApiUid?
      && svc.contactGetRelation(svc.getSessCtx(sessId).value.uid, req.receiverId.uid) == Ok(false)
    ensures r.code == UserNotInGroup <==>
      && svc.getSessCtx(sessId).Ok? && req.receiverId.ApiGroupId?
      && svc.groupIsMem(req.receiverId.groupId, svc.getSessCtx(sessId).value.uid) == Ok(false)
    ensures forall c | c in r.calls && c.SendMsg? ::
      && svc.getSessCtx(sessId).Ok?
      && Permitted(svc, svc.getSessCtx(sessId).value.uid, req.receiverId)
      && c.msg.receiverId == FromApiPeer(req.receiverId)
      && c.msg.msg.senderUid == svc.getSessCtx(sessId).value.uid
      && c.msg.msg.sentTsMs == nowMs
      && c.msg.msg.msgType == req.msg.msgType && c.msg.msg.msgContent == req.msg.msgContent
      && c.msg.msg.readMsgId == req.msg.readMsgId && c.msg.randMsgId == req.randMsgId
    ensures svc.getSessCtx(sessId).Ok? && Permitted(svc, svc.getSessCtx(sessId).value.uid, req.receiverId) ==>
      && r.calls[|r.calls| - 1].SendMsg?
      && (r.code == Success <==> svc.sendMsg(r.calls[|r.calls| - 1].msg).Pass?)
    ensures !(svc.getSessCtx(sessId).Ok? && Permitted(svc, svc.getSessCtx(sessId).value.uid, req.receiverId)) ==>
      r.code != Success && NoMessageSent(r.calls)
  {
    var looked := [GetSessCtx(sessId)];
    match svc.getSessCtx(sessId)
    case Err(_) => Reply(UnknownErr, looked)
    case Ok(sess) =>
      match req.receiverId
      case ApiUid(peerUid) =>
        var asked := looked + [ContactGetRelation(sess.uid, peerUid)];
        (match svc.contactGetRelation(sess.uid, peerUid)
         case Err(_) => Reply(UnknownErr, asked)
         case Ok(mutual) =>
           if !mutual then Reply(IsNotContact, asked)
           else Deliver(svc, asked, Outgoing(UserPeer(peerUid), sess.uid, req, nowMs)))
      case ApiGroupId(groupId) =>
        var asked := looked + [GroupIsMem(groupId, sess.uid)];
        (match svc.groupIsMem(groupId, sess.uid)
         case Err(_) => Reply(UnknownErr, asked)
         case Ok(inGroup) =>
           if !inGroup then Reply(UserNotInGroup, asked)
           else Deliver(svc, asked, Outgoing(GroupPeer(groupId), sess.uid, req, nowMs)))
      case ApiUnset => Reply(UnknownErr, looked)
  }

  /** Hands m to the chat service after the calls in asked; its failure is UnknownErr. */
  function Deliver(svc: Services, asked: seq<Call>, m: ChatMsgOfConv): (r: Reply)
    ensures r.calls == asked + [SendMsg(m)]
    ensures r.code == Success <==> svc.sendMsg(m).Pass?
    ensures r.code in {Success, UnknownErr}
  {
    Reply(if svc.sendMsg(m).Pass? then Success else UnknownErr, asked + [SendMsg(m)])
  }

  /**
   * Long-poll read of the session user's inbox after the cursor
   * localSeqId: renews the session (its failure is only logged), fetches
   * the messages and returns them in wire form, in order, with the new
   * cursor. A fetch error wrapping the timeout is Timeout, any other
   * UnknownErr.
   */
  method GetUpdateList(svc: Services, sessId: SessId, localSeqId: nat) returns (r: UpdateListReply)
    ensures svc.getSessCtx(sessId).Err? ==> r == UpdateListReply(UnknownErr, [], 0, [GetSessCtx(sessId)])
    ensures svc.getSessCtx(sessId).Ok? ==>
      r.calls == [GetSessCtx(sessId), RenewSessCtx(sessId, SessTimeoutS),
                  GetChatMsgList(svc.getSessCtx(sessId).value.uid, localSeqId)]
    ensures r.code in {Success, UnknownErr, Timeout}
    ensures r.code == Timeout <==>
      svc.getSessCtx(sessId).Ok? && svc.getChatMsgList(svc.getSessCtx(sessId).value.uid, localSeqId) == Err(TimedOut)
    ensures r.code == Success <==>
      svc.getSessCtx(sessId).Ok? && svc.getChatMsgList(svc.getSessCtx(sessId).value.uid, localSeqId).Ok?
    ensures r.code != Success ==> r.msgList == [] && r.seqId == 0
    ensures r.code == Success ==>
      var msgs := svc.getChatMsgList(svc.getSessCtx(sessId).value.uid, localSeqId).value;
      && |r.msgList| == |msgs|
      && (forall i | 0 <= i < |msgs| :: r.msgList[i] == ToApiConvMsg(msgs[i]))
      && r.seqId == NewCursor(msgs, localSeqId)
  {
    var calls := [GetSessCtx(sessId)];
    var sess := svc.getSessCtx(sessId);
    if sess.Err? {
      return UpdateListReply(UnknownErr, [], 0, calls);
    }
    var uid := sess.value.uid;
    calls := calls + [RenewSessCtx(sessId, SessTimeoutS), GetChatMsgList(uid, localSeqId)];
    var fetched := svc.getChatMsgList(uid, localSeqId);
    if fetched.Err? {
      var code := if fetched.error == TimedOut then Timeout else UnknownErr;
      return UpdateListReply(code, [], 0, calls);
    }
    var msgs := fetched.value;
    var msgList: seq<ApiConvMsg> := [];
    var i := 0;
    while i < |msgs|
      invariant i <= |msgs| && |msgList| == i
      invariant forall j | 0 <= j < i :: msgList[j] == ToApiConvMsg(msgs[j])
    {
      msgList := msgList + [ToApiConvMsg(msgs[i])];
      i := i + 1;
    }
    r := UpdateListReply(Success, msgList, NewCursor(msgs, localSeqId), calls);
  }

  // ---------------------------------------------------------------------
  // Group membership changes and their notices

  /** A notice to a group: addressed to the group, from senderUid, of msgType, under the conversation id convMsgId. */
  function GroupNotice(groupId: nat, senderUid: nat, msgType: int, convMsgId: nat): ChatMsgOfConv
  {
    EmptyConvMsg.(receiverId := GroupPeer(groupId), convMsgId := convMsgId,
                  msg := EmptyChatMsg.(senderUid := senderUid, msgType := msgType))
  }

  /** The session was found, the group's conversation id convId and its member list read. */
  predicate Prepared(svc: Services, sessId: SessId, groupId: nat)
  {
    && svc.getSessCtx(sessId).Ok?
    && svc.allocateGroupSeqId(groupId).Ok?
    && svc.groupGetMemList(groupId).Ok?
  }

  /** From index from on, calls holds one send of notice to each of mems, in order, and nothing else. */
  predicate NoticesFrom(calls: seq<Call>, from: nat, mems: seq<nat>, notice: ChatMsgOfConv)
  {
    && |calls| == from + |mems|
    && forall i | 0 <= i < |mems| :: calls[from + i] == SendMsgToUser(mems[i], notice)
  }

  /** One send of notice per member, in the member list's order. */
  method Notify(mems: seq<nat>, notice: ChatMsgOfConv) returns (sends: seq<Call>)
    ensures NoticesFrom(sends, 0, mems, notice)
  {
    sends := [];
    var i := 0;
    while i < |mems|
      invariant i <= |mems| && |sends| == i
      invariant forall j | 0 <= j < i :: sends[j] == SendMsgToUser(mems[j], notice)
    {
      sends := sends + [SendMsgToUser(mems[i], notice)];
      i := i + 1;
    }
  }

  /**
   * The steps every membership change starts with: the session, one
   * conversation id for the group and a snapshot of its members, each
   * failure being UnknownErr.
   */
  method Prepare(svc: Services, sessId: SessId, groupId: nat)
    returns (failed: Option<Reply>, sess: SessCtx, seqId: nat, mems: seq<nat>)
    ensures failed.None? <==> Prepared(svc, sessId, groupId)
    ensures failed.Some? ==> failed.value.code == UnknownErr && NoMessageSent(failed.value.calls)
    ensures failed.Some? && svc.getSessCtx(sessId).Err? ==> failed.value.calls == [GetSessCtx(sessId)]
    ensures failed.None? ==>
      && sess == svc.getSessCtx(sessId).value
      && seqId == svc.allocateGroupSeqId(groupId).value
      && mems == svc.groupGetMemList(groupId).value
  {
    sess, seqId, mems := EmptySess, 0, [];
    var calls := [GetSessCtx(sessId)];
    var got := svc.getSessCtx(sessId);
    if got.Err? {
      return Some(Reply(UnknownErr, calls)), sess, seqId, mems;
    }
    calls := calls + [AllocateGroupSeqId(groupId)];
    var convId := svc.allocateGroupSeqId(groupId);
    if convId.Err? {
      return Some(Reply(UnknownErr, calls)), sess, seqId, mems;
    }
    calls := calls + [GroupGetMemList(groupId)];
    var listed := svc.groupGetMemList(groupId);
    if listed.Err? {
      return Some(Reply(UnknownErr, calls)), sess, seqId, mems;
    }
    failed, sess, seqId, mems := None, got.value, convId.value, listed.value;
  }

  /** The session context a failed lookup leaves behind. */
  const EmptySess := SessCtx("", 0, "", 0, 0)

  /**
   * Dissolves a group: after the member snapshot, the session's user
   * deletes the group, and every snapshotted member gets a GroupDeleted
   * notice from that user under one conversation id. A failed notice is
   * only logged.
   */
  method UmGroupDelete(svc: Services, sessId: SessId, groupId: nat) returns (r: Reply)
    ensures svc.getSessCtx(sessId).Err? ==> r == Reply(UnknownErr, [GetSessCtx(sessId)])
    ensures r.code in {Success, UnknownErr}
    ensures r.code == Success <==>
      Prepared(svc, sessId, groupId) && svc.groupDelete(svc.getSessCtx(sessId).value.uid, groupId).Pass?
    ensures r.code != Success ==> NoMessageSent(r.calls)
    ensures r.code == Success ==>
      var uid := svc.getSessCtx(sessId).value.uid;
      && |r.calls| >= 4 && r.calls[..4] == [GetSessCtx(sessId), AllocateGroupSeqId(groupId), GroupGetMemList(groupId), GroupDelete(uid, groupId)]
      && NoticesFrom(r.calls, 4, svc.groupGetMemList(groupId).value,
                     GroupNotice(groupId, uid, MsgTypeGroupDeleted, svc.allocateGroupSeqId(groupId).value))
  {
    var failed, sess, seqId, mems := Prepare(svc, sessId, groupId);
    if failed.Some? {
      return failed.value;
    }
    var calls := [GetSessCtx(sessId), AllocateGroupSeqId(groupId), GroupGetMemList(groupId), GroupDelete(sess.uid, groupId)];
    if svc.groupDelete(sess.uid, groupId).Fail? {
      return Reply(UnknownErr, calls);
    }
    var sends := Notify(mems, GroupNotice(groupId, sess.uid, MsgTypeGroupDeleted, seqId));
    r := Reply(Success, calls + sends);
  }

  /**
   * The session's user leaves a group. The member list is read before the
   * user leaves, so the leaver is among those notified; every member in it
   * gets a GroupUserLeft notice from the leaver under one conversation id.
   */
  method UmGroupLeave(svc: Services, sessId: SessId, groupId: nat) returns (r: Reply)
    ensures svc.getSessCtx(sessId).Err? ==> r == Reply(UnknownErr, [GetSessCtx(sessId)])
    ensures r.code in {Success, UnknownErr}
    ensures r.code == Success <==>
      Prepared(svc, sessId, groupId) && svc.groupLeave(groupId, svc.getSessCtx(sessId).value.uid).Pass?
    ensures r.code != Success ==> NoMessageSent(r.calls)
    ensures r.code == Success ==>
      var uid := svc.getSessCtx(sessId).value.uid;
      var notice := GroupNotice(groupId, uid, MsgTypeGroupUserLeft, svc.allocateGroupSeqId(groupId).value);
      && |r.calls| >= 4 && r.calls[..4] == [GetSessCtx(sessId), AllocateGroupSeqId(groupId), GroupGetMemList(groupId), GroupLeave(groupId, uid)]
      && NoticesFrom(r.calls, 4, svc.groupGetMemList(groupId).value, notice)
      && (uid in svc.groupGetMemList(groupId).value ==> SendMsgToUser(uid, notice) in r.calls)
  {
    var failed, sess, seqId, mems := Prepare(svc, sessId, groupId);
    if failed.Some? {
      return failed.value;
    }
    var calls := [GetSessCtx(sessId), AllocateGroupSeqId(groupId), GroupGetMemList(groupId), GroupLeave(groupId, sess.uid)];
    if svc.groupLeave(groupId, sess.uid).Fail? {
      return Reply(UnknownErr, calls);
    }
    var notice := GroupNotice(groupId, sess.uid, MsgTypeGroupUserLeft, seqId);
    var sends := Notify(mems, notice);
    r := Reply(Success, calls + sends);
    if sess.uid in mems {
      var k :| 0 <= k < |mems| && mems[k] == sess.uid;
      assert r.calls[4 + k] == SendMsgToUser(sess.uid, notice);
    }
  }

  /**
   * The session's user removes memberUid from a group. The member list is
   * read before the removal, so the removed user is among those notified;
   * the GroupUserRemoved notice names the removed user as its sender.
   */
  method UmGroupDelMem(svc: Services, sessId: SessId, groupId: nat, memberUid: nat) returns (r: Reply)
    ensures svc.getSessCtx(sessId).Err? ==> r == Reply(UnknownErr, [GetSessCtx(sessId)])
    ensures r.code in {Success, UnknownErr}
    ensures r.code == Success <==>
      Prepared(svc, sessId, groupId) && svc.groupDelMem(groupId, svc.getSessCtx(sessId).value.uid, memberUid).Pass?
    ensures r.code != Success ==> NoMessageSent(r.calls)
    ensures r.code == Success ==>
      var uid := svc.getSessCtx(sessId).value.uid;
      var notice := GroupNotice(groupId, memberUid, MsgTypeGroupUserRemoved, svc.allocateGroupSeqId(groupId).value);
      && |r.calls| >= 4 && r.calls[..4] == [GetSessCtx(sessId), AllocateGroupSeqId(groupId), GroupGetMemList(groupId),
                          GroupDelMem(groupId, uid, memberUid)]
      && NoticesFrom(r.calls, 4, svc.groupGetMemList(groupId).value, notice)
      && (memberUid in svc.groupGetMemList(groupId).value ==> SendMsgToUser(memberUid, notice) in r.calls)
  {
    var failed, sess, seqId, mems := Prepare(svc, sessId, groupId);
    if failed.Some? {
      return failed.value;
    }
    var calls := [GetSessCtx(sessId), AllocateGroupSeqId(groupId), GroupGetMemList(groupId),
                  GroupDelMem(groupId, sess.uid, memberUid)];
    if svc.groupDelMem(groupId, sess.uid, memberUid).Fail? {
      return Reply(UnknownErr, calls);
    }
    var notice := GroupNotice(groupId, memberUid, MsgTypeGroupUserRemoved, seqId);
    var sends := Notify(mems, notice);
    r := Reply(Success, calls + sends);
    if memberUid in mems {
      var k :| 0 <= k < |mems| && mems[k] == memberUid;
      assert r.calls[4 + k] == SendMsgToUser(memberUid, notice);
    }
  }

  // ---------------------------------------------------------------------
  // Join requests: accepting and rejecting

  /** What accepting does once the admin's uid is known: accept, then announce the newcomer to the group. */
  function AcceptAs(svc: Services, sessId: SessId, adminUid: nat, groupId: nat, uid: nat): (r: Reply)
    ensures |r.calls| >= 2 && r.calls[..2] == [GetSessCtx(sessId), GroupAccept(groupId, adminUid, uid)]
    ensures r.code == Success <==>
      svc.groupAccept(groupId, adminUid, uid).Pass?
      && svc.sendMsg(GroupNotice(groupId, uid, MsgTypeGroupUserJoined, 0)).Pass?
    ensures forall c | c in r.calls && c.SendMsg? ::
      svc.groupAccept(groupId, adminUid, uid).Pass? && c.msg == GroupNotice(groupId, uid, MsgTypeGroupUserJoined, 0)
  {
    var accepted := [GetSessCtx(sessId), GroupAccept(groupId, adminUid, uid)];
    if svc.groupAccept(groupId, adminUid, uid).Fail? then Reply(UnknownErr, accepted)
    else Deliver(svc, accepted, GroupNotice(groupId, uid, MsgTypeGroupUserJoined, 0))
  }

  /**
   * Accepting a join request as the handler is written: a failed session
   * lookup is only logged, and the admin's uid is then read from the
   * missing context.
   */
  function UmGroupAcceptAsWritten(svc: Services, sessId: SessId, groupId: nat, uid: nat): (r: Completion)
    ensures r.NilDereference? <==> svc.getSessCtx(sessId).Err?
    ensures r.NilDereference? ==> r.calls == [GetSessCtx(sessId)]
  {
    match svc.getSessCtx(sessId)
    case Err(_) => NilDereference([GetSessCtx(sessId)])
    case Ok(sess) => Returned(AcceptAs(svc, sessId, sess.uid, groupId, uid))
  }

  /** Accepting a join request, with a failed session lookup answered UnknownErr like every other handler. */
  function UmGroupAccept(svc: Services, sessId: SessId, groupId: nat, uid: nat): (r: Reply)
    ensures svc.getSessCtx(sessId).Err? ==> r == Reply(UnknownErr, [GetSessCtx(sessId)])
    ensures r.code == Success <==>
      && svc.getSessCtx(sessId).Ok?
      && svc.groupAccept(groupId, svc.getSessCtx(sessId).value.uid, uid).Pass?
      && svc.sendMsg(GroupNotice(groupId, uid, MsgTypeGroupUserJoined, 0)).Pass?
  {
    match svc.getSessCtx(sessId)
    case Err(_) => Reply(UnknownErr, [GetSessCtx(sessId)])
    case Ok(sess) => AcceptAs(svc, sessId, sess.uid, groupId, uid)
  }

  /** The corrected handler never dereferences the missing context and otherwise replies as written. */
  lemma UmGroupAcceptAgrees(svc: Services, sessId: SessId, groupId: nat, uid: nat)
    ensures svc.getSessCtx(sessId).Ok? <==> UmGroupAcceptAsWritten(svc, sessId, groupId, uid).Returned?
    ensures svc.getSessCtx(sessId).Ok? ==>
      UmGroupAcceptAsWritten(svc, sessId, groupId, uid) == Returned(UmGroupAccept(svc, sessId, groupId, uid))
  {
  }

  /** The notice that tells uid its join request to groupId was rejected by adminUid. */
  function RejectNotice(adminUid: nat, uid: nat): ChatMsgOfConv
  {
    EmptyConvMsg.(receiverId := UserPeer(uid), msg := EmptyChatMsg.(senderUid := adminUid, msgType := MsgTypeGroupRejected))
  }

  /** What rejecting does once the admin's uid is known: reject, then tell the requester. */
  function RejectAs(svc: Services, sessId: SessId, adminUid: nat, groupId: nat, uid: nat): (r: Reply)
    ensures |r.calls| >= 2 && r.calls[..2] == [GetSessCtx(sessId), GroupReject(groupId, adminUid, uid)]
    ensures r.code == Success <==>
      svc.groupReject(groupId, adminUid, uid).Pass? && svc.sendMsg(RejectNotice(adminUid, uid)).Pass?
    ensures forall c | c in r.calls && c.SendMsg? ::
      && svc.groupReject(groupId, adminUid, uid).Pass?
      && c.msg.receiverId == UserPeer(uid) && c.msg.msg.senderUid == adminUid
      && c.msg.msg.msgType == MsgTypeGroupRejected
  {
    var rejected := [GetSessCtx(sessId), GroupReject(groupId, adminUid, uid)];
    if svc.groupReject(groupId, adminUid, uid).Fail? then Reply(UnknownErr, rejected)
    else Deliver(svc, rejected, RejectNotice(adminUid, uid))
  }

  /**
   * Rejecting a join request as the handler is written: a failed session
   * lookup is only logged, and the admin's uid is then read from the
   * missing context.
   */
  function UmGroupRejectAsWritten(svc: Services, sessId: SessId, groupId: nat, uid: nat): (r: Completion)
    ensures r.NilDereference? <==> svc.getSessCtx(sessId).Err?
    ensures r.NilDereference? ==> r.calls == [GetSessCtx(sessId)]
  {
    match svc.getSessCtx(sessId)
    case Err(_) => NilDereference([GetSessCtx(sessId)])
    case Ok(sess) => Returned(RejectAs(svc, sessId, sess.uid, groupId, uid))
  }

  /** Rejecting a join request, with a failed session lookup answered UnknownErr. */
  function UmGroupReject(svc: Services, sessId: SessId, groupId: nat, uid: nat): (r: Reply)
    ensures svc.getSessCtx(sessId).Err? ==> r == Reply(UnknownErr, [GetSessCtx(sessId)])
    ensures r.code == Success <==>
      && svc.getSessCtx(sessId).Ok?
      && svc.groupReject(groupId, svc.getSessCtx(sessId).value.uid, uid).Pass?
      && svc.sendMsg(RejectNotice(svc.getSessCtx(sessId).value.uid, uid)).Pass?
  {
    match svc.getSessCtx(sessId)
    case Err(_) => Reply(UnknownErr, [GetSessCtx(sessId)])
    case Ok(sess) => RejectAs(svc, sessId, sess.uid, groupId, uid)
  }

  /** The corrected handler never dereferences the missing context and otherwise replies as written. */
  lemma UmGroupRejectAgrees(svc: Services, sessId: SessId, groupId: nat, uid: nat)
    ensures svc.getSessCtx(sessId).Ok? <==> UmGroupRejectAsWritten(svc, sessId, groupId, uid).Returned?
    ensures svc.getSessCtx(sessId).Ok? ==>
      UmGroupRejectAsWritten(svc, sessId, groupId, uid) == Returned(UmGroupReject(svc, sessId, groupId, uid))
  {
  }
}

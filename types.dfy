/**
 * Shared value types of the message-delivery core: peer addresses, chat
 * messages, inbox messages of a conversation and session contexts, plus the
 * failure-carrying wrappers every storage and cache operation returns.
 */
module Types {

  /** Unsigned 32-bit integers (the width of the id pool's counters). */
  type U32 = x: int | 0 <= x < 0x1_0000_0000

  datatype Option<+T> = None | Some(value: T)

  /** The value of a successful call, or the error it failed with. */
  datatype Result<+T, +E> = Ok(value: T) | Err(error: E)

  /** The outcome of a call that only succeeds or fails. */
  datatype Outcome<+E> = Pass | Fail(error: E)

  type SessId = string

  /** Discriminator values of PeerId.peerIdType. */
  const PeerIdTypeUid: nat := 0
  const PeerIdTypeGroupId: nat := 1

  /**
   * A conversation address. As in the source this is a record, not a union:
   * the discriminator can hold any value and both ids are always present.
   */
  datatype PeerId = PeerId(peerIdType: nat, uid: nat, groupId: nat)

  /** The address a user is reached at directly. */
  function UserPeer(uid: nat): PeerId
  {
    PeerId(PeerIdTypeUid, uid, 0)
  }

  /** The address of a group conversation. */
  function GroupPeer(groupId: nat): PeerId
  {
    PeerId(PeerIdTypeGroupId, 0, groupId)
  }

  /** Chat message types (the values of the wire enumeration). */
  const MsgTypeText: int := 0
  const MsgTypeMarkRead: int := 50
  const MsgTypeContactAddReq: int := 100
  const MsgTypeGroupCreated: int := 201
  const MsgTypeGroupDeleted: int := 202
  const MsgTypeGroupJoinReq: int := 203
  const MsgTypeGroupUserJoined: int := 204
  const MsgTypeGroupRejected: int := 205
  const MsgTypeGroupUserLeft: int := 206
  const MsgTypeGroupUserRemoved: int := 207

  datatype ChatMsg = ChatMsg(
    senderUid: nat,
    sentTsMs: nat,
    msgType: int,
    msgContent: string,
    readMsgId: nat)

  /** A message as it sits in one owner's inbox. */
  datatype ChatMsgOfConv = ChatMsgOfConv(
    seqId: nat,
    convMsgId: nat,
    randMsgId: nat,
    receiverId: PeerId,
    msg: ChatMsg,
    isRead: bool,
    status: nat)

  datatype SessCtx = SessCtx(
    sessId: SessId,
    uid: nat,
    username: string,
    createdAt: nat,
    expiresAt: nat)

  /** The zero value of a message, as a freshly declared struct holds it. */
  const EmptyChatMsg := ChatMsg(0, 0, MsgTypeText, "", 0)
  const EmptyConvMsg := ChatMsgOfConv(0, 0, 0, PeerId(0, 0, 0), EmptyChatMsg, false, 0)
}

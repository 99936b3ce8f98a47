/**
 * The relational store behind the chat core and the wrapper every statement
 * goes through.
 *
 * Tables are maps: one sequence counter per user, per unordered user pair
 * and per group; one inbox per owner, held as the sequence of its rows in
 * insertion order; group membership with roles; users and groups.
 *
 * The wrapper keeps the connection handle (present or not), the retrying
 * flag, the count of statements in flight and a one-slot reconnect mailbox.
 * It rejects a statement without running it while there is no handle,
 * while a reconnect is retrying, or while more than maxPendingRequests
 * statements are in flight. Whether an admitted statement succeeds is up
 * to the database, so it is chosen nondeterministically, as are the
 * database's timestamps. Calls run one at a time.
 */
module Storage {
  import opened Types

  const MaxPendingRequests: nat := 10000

  datatype DbError =
    | NotConnected     // "db not connect yet"
    | ConnectionIssue  // "db connection issue": a reconnect is retrying
    | TooManyPending   // "too many pending db requests"
    | ActionFailed     // the admitted statement itself failed
    | ScanFailed       // a result row could not be read
    | InvalidPeerId    // an inbox row with neither a receiver nor a group
    | NotGroupPeer     // "peer id type must be group id"

  /** A row of tb_user_inbox. receiverId and groupId are nullable columns. */
  datatype InboxMsg = InboxMsg(
    userId: nat,
    seqId: nat,
    convMsgId: nat,
    randMsgId: nat,
    senderId: nat,
    receiverId: Option<nat>,
    groupId: Option<nat>,
    messageType: int,
    content: string,
    readMsgId: nat,
    sentAtMs: nat,
    isRead: bool,
    status: nat)

  /** A row of tb_group_members: role 1 is the owner, 2 an administrator. */
  datatype GroupMember = GroupMember(userId: nat, role: nat)

  datatype UserRow = UserRow(password: string, username: string, nickname: string, email: string, avatar: string)

  datatype GroupRow = GroupRow(groupName: string, ownerUid: nat, avatar: string, memCount: nat)

  /** How one connection attempt of the reconnect task ends. */
  datatype ConnectOutcome =
    | OpenFailed  // the handle could not be opened (it stays nil)
    | PingFailed  // the handle was opened but does not answer
    | Connected

  // ---------------------------------------------------------------------
  // Sequence counters

  /** The id a counter table hands out next for key: 1 when it has no row yet. */
  function NextId<K>(counters: map<K, nat>, key: K): nat
  {
    if key in counters then counters[key] else 1
  }

  /**
   * The counter table after one allocation for key: an absent row is
   * created holding 2, a row holding V is rewritten to V + 1.
   */
  function Issue<K>(counters: map<K, nat>, key: K): map<K, nat>
  {
    counters[key := NextId(counters, key) + 1]
  }

  /** The ids n successive allocations for key hand out. */
  function IssuedIds<K>(counters: map<K, nat>, key: K, n: nat): seq<nat>
    decreases n
  {
    if n == 0 then [] else [NextId(counters, key)] + IssuedIds(Issue(counters, key), key, n - 1)
  }

  /** Successive allocations for one key hand out consecutive ids. */
  lemma {:induction false} IssuedIdsConsecutive<K>(counters: map<K, nat>, key: K, n: nat)
    ensures |IssuedIds(counters, key, n)| == n
    ensures forall i | 0 <= i < n :: IssuedIds(counters, key, n)[i] == NextId(counters, key) + i
    decreases n
  {
    if n > 0 {
      IssuedIdsConsecutive(Issue(counters, key), key, n - 1);
    }
  }

  /** Allocations for a key with no counter row yet hand out 1, 2, 3, ... */
  lemma {:induction false} IssuedIdsFromScratch<K>(counters: map<K, nat>, key: K, n: nat)
    requires key !in counters
    ensures IssuedIds(counters, key, n) == seq(n, (i: int) => i + 1)
  {
    IssuedIdsConsecutive(counters, key, n);
  }

  /** Allocation never lowers any counter and moves only the one it allocates from. */
  lemma IssueAdvances<K>(counters: map<K, nat>, key: K, other: K)
    ensures NextId(Issue(counters, key), other) ==
            if other == key then NextId(counters, key) + 1 else NextId(counters, other)
  {
  }

  /** The key of the direct-chat counter: the two uids in ascending order. */
  function OrderedPair(uid1: nat, uid2: nat): (pair: (nat, nat))
    ensures pair.0 <= pair.1
    ensures (pair.0 == uid1 && pair.1 == uid2) || (pair.0 == uid2 && pair.1 == uid1)
  {
    if uid1 > uid2 then (uid2, uid1) else (uid1, uid2)
  }

  /** A conversation between two users has one counter, whoever sends. */
  lemma OrderedPairSymmetric(uid1: nat, uid2: nat)
    ensures OrderedPair(uid1, uid2) == OrderedPair(uid2, uid1)
  {
  }

  /** Counters after one inbox allocation per owner, in order. */
  function IssueAll(counters: map<nat, nat>, owners: seq<nat>): map<nat, nat>
    decreases |owners|
  {
    if owners == [] then counters
    else Issue(IssueAll(counters, owners[..|owners| - 1]), owners[|owners| - 1])
  }

  /** How often x occurs in s. */
  function Count(s: seq<nat>, x: nat): nat
    decreases |s|
  {
    if s == [] then 0
    else Count(s[..|s| - 1], x) + (if s[|s| - 1] == x then 1 else 0)
  }

  /** Each owner's counter advances once per row it receives. */
  lemma {:induction false} IssueAllCounts(counters: map<nat, nat>, owners: seq<nat>, u: nat)
    ensures NextId(IssueAll(counters, owners), u) == NextId(counters, u) + Count(owners, u)
    decreases |owners|
  {
    if owners != [] {
      IssueAllCounts(counters, owners[..|owners| - 1], u);
    }
  }

  // ---------------------------------------------------------------------
  // Inbox rows

  /**
   * The row stored when an inbox copy of convMsg is written for owner with
   * the given seqId: a user peer fills receiver_id, any other peer type
   * fills group_id. sent_at comes from the database clock; is_read and
   * status take their column defaults.
   */
  function InboxRowOf(owner: nat, seqId: nat, convMsg: ChatMsgOfConv, sentAtMs: nat): InboxMsg
  {
    var toUser := convMsg.receiverId.peerIdType == PeerIdTypeUid;
    InboxMsg(owner, seqId, convMsg.convMsgId, convMsg.randMsgId, convMsg.msg.senderUid,
             if toUser then Some(convMsg.receiverId.uid) else None,
             if toUser then None else Some(convMsg.receiverId.groupId),
             convMsg.msg.msgType, convMsg.msg.msgContent, convMsg.msg.readMsgId,
             sentAtMs, false, 0)
  }

  function ConvertDbMsgToChatMsg(row: InboxMsg): ChatMsg
  {
    ChatMsg(row.senderId, row.sentAtMs, row.messageType, row.content, row.readMsgId)
  }

  /**
   * Decodes an inbox row. A non-null group_id makes a group peer (it wins
   * over receiver_id), else a non-null receiver_id makes a user peer, else
   * the row is invalid.
   */
  function ConvertDbMsgToChatMsgOfConv(row: InboxMsg): (r: Result<ChatMsgOfConv, DbError>)
    ensures r.Err? <==> row.groupId.None? && row.receiverId.None?
    ensures r.Err? ==> r.error == InvalidPeerId
    ensures r.Ok? ==>
      && r.value.seqId == row.seqId && r.value.convMsgId == row.convMsgId
      && r.value.randMsgId == row.randMsgId && r.value.isRead == row.isRead
      && r.value.status == row.status && r.value.msg == ConvertDbMsgToChatMsg(row)
    ensures row.groupId.Some? ==> r.Ok? && r.value.receiverId == GroupPeer(row.groupId.value)
    ensures row.groupId.None? && row.receiverId.Some? ==>
      r.Ok? && r.value.receiverId == UserPeer(row.receiverId.value)
  {
    var msg := ConvertDbMsgToChatMsg(row);
    if row.groupId.Some? then
      Ok(ChatMsgOfConv(row.seqId, row.convMsgId, row.randMsgId, GroupPeer(row.groupId.value),
                       msg, row.isRead, row.status))
    else if row.receiverId.Some? then
      Ok(ChatMsgOfConv(row.seqId, row.convMsgId, row.randMsgId, UserPeer(row.receiverId.value),
                       msg, row.isRead, row.status))
    else
      Err(InvalidPeerId)
  }

  /**
   * What a reader gets back for a copy of convMsg stored with seqId: the
   * message as sent, except for the row's seqId, the database's send time,
   * the default read flag and status, and the peer reduced to the id its
   * type selects.
   */
  function AsReadBack(convMsg: ChatMsgOfConv, seqId: nat, sentAtMs: nat): ChatMsgOfConv
  {
    var peer := if convMsg.receiverId.peerIdType == PeerIdTypeUid
                then UserPeer(convMsg.receiverId.uid) else GroupPeer(convMsg.receiverId.groupId);
    convMsg.(seqId := seqId, receiverId := peer, msg := convMsg.msg.(sentTsMs := sentAtMs),
             isRead := false, status := 0)
  }

  /** A stored copy decodes to the message that was written. */
  lemma InboxRowRoundTrip(owner: nat, seqId: nat, convMsg: ChatMsgOfConv, sentAtMs: nat)
    ensures ConvertDbMsgToChatMsgOfConv(InboxRowOf(owner, seqId, convMsg, sentAtMs))
            == Ok(AsReadBack(convMsg, seqId, sentAtMs))
  {
  }

  function RowsOf(inbox: map<nat, seq<InboxMsg>>, owner: nat): seq<InboxMsg>
  {
    if owner in inbox then inbox[owner] else []
  }

  ghost predicate Ascending(rows: seq<InboxMsg>)
  {
    forall i, j | 0 <= i < j < |rows| :: rows[i].seqId < rows[j].seqId
  }

  /**
   * One owner's inbox: its rows belong to it, name a receiver or a group,
   * have seqIds in strictly increasing order, and every seqId was handed
   * out by the owner's counter already.
   */
  ghost predicate InboxValid(owner: nat, rows: seq<InboxMsg>, userSeq: map<nat, nat>)
  {
    && Ascending(rows)
    && forall i | 0 <= i < |rows| ::
         && rows[i].userId == owner
         && (rows[i].receiverId.Some? || rows[i].groupId.Some?)
         && rows[i].seqId < NextId(userSeq, owner)
  }

  ghost predicate InboxesValid(inbox: map<nat, seq<InboxMsg>>, userSeq: map<nat, nat>)
  {
    forall u | u in inbox :: InboxValid(u, inbox[u], userSeq)
  }

  lemma IssuePreservesInboxes(inbox: map<nat, seq<InboxMsg>>, userSeq: map<nat, nat>, owner: nat)
    requires InboxesValid(inbox, userSeq)
    ensures InboxesValid(inbox, Issue(userSeq, owner))
  {
    forall u | u in inbox
      ensures InboxValid(u, inbox[u], Issue(userSeq, owner))
    {
      IssueAdvances(userSeq, owner, u);
    }
  }

  /** The tail of a valid inbox is valid, and its head precedes every later row. */
  lemma InboxTail(owner: nat, rows: seq<InboxMsg>, userSeq: map<nat, nat>)
    requires InboxValid(owner, rows, userSeq) && rows != []
    ensures InboxValid(owner, rows[1..], userSeq)
    ensures forall x | x in rows[1..] :: rows[0].seqId < x.seqId
  {
    forall i, j | 0 <= i < j < |rows[1..]| ensures rows[1..][i].seqId < rows[1..][j].seqId {
      assert rows[1..][i] == rows[i + 1] && rows[1..][j] == rows[j + 1];
    }
    forall x | x in rows[1..] ensures rows[0].seqId < x.seqId {
      var k :| 0 <= k < |rows[1..]| && rows[1..][k] == x;
      assert rows[k + 1] == x;
    }
  }

  /** A row below every row of a valid inbox can be put in front of it. */
  lemma InboxCons(owner: nat, row: InboxMsg, rows: seq<InboxMsg>, userSeq: map<nat, nat>)
    requires InboxValid(owner, rows, userSeq)
    requires row.userId == owner && (row.receiverId.Some? || row.groupId.Some?)
    requires row.seqId < NextId(userSeq, owner)
    requires forall x | x in rows :: row.seqId < x.seqId
    ensures InboxValid(owner, [row] + rows, userSeq)
  {
    var all := [row] + rows;
    forall i, j | 0 <= i < j < |all| ensures all[i].seqId < all[j].seqId {
      assert all[j] == rows[j - 1];
      if i > 0 {
        assert all[i] == rows[i - 1];
      } else {
        assert all[j] in rows;
      }
    }
  }

  /** Writing a row with the id just allocated keeps every inbox ordered. */
  lemma AppendPreservesInboxes(inbox: map<nat, seq<InboxMsg>>, userSeq: map<nat, nat>, owner: nat, row: InboxMsg)
    requires InboxesValid(inbox, userSeq)
    requires row.userId == owner && (row.receiverId.Some? || row.groupId.Some?)
    requires row.seqId == NextId(userSeq, owner)
    ensures InboxesValid(inbox[owner := RowsOf(inbox, owner) + [row]], Issue(userSeq, owner))
  {
    IssuePreservesInboxes(inbox, userSeq, owner);
    var before := RowsOf(inbox, owner);
    var rows := before + [row];
    assert InboxValid(owner, before, userSeq);
    assert InboxValid(owner, before, Issue(userSeq, owner));
    forall i | 0 <= i < |before| ensures rows[i] == before[i] {
    }
    forall i, j | 0 <= i < j < |rows| ensures rows[i].seqId < rows[j].seqId {
      assert rows[i] == before[i];
      if j < |before| {
        assert rows[j] == before[j];
      }
    }
    assert InboxValid(owner, rows, Issue(userSeq, owner));
  }

  /**
   * The earlier mark-read markers a new mark-read message supersedes in an
   * inbox: MarkRead rows from the same sender to the same receiver (a user
   * peer) or the same group (any other peer type) whose read cutoff is at
   * most the new one.
   */
  predicate IsSupersededMarker(row: InboxMsg, convMsg: ChatMsgOfConv)
  {
    && row.senderId == convMsg.msg.senderUid
    && row.messageType == MsgTypeMarkRead
    && row.readMsgId <= convMsg.msg.readMsgId
    && if convMsg.receiverId.peerIdType == PeerIdTypeUid
       then row.receiverId == Some(convMsg.receiverId.uid)
       else row.groupId == Some(convMsg.receiverId.groupId)
  }

  function WithoutSupersededMarkers(rows: seq<InboxMsg>, convMsg: ChatMsgOfConv): seq<InboxMsg>
    decreases |rows|
  {
    if rows == [] then []
    else (if IsSupersededMarker(rows[0], convMsg) then [] else [rows[0]])
         + WithoutSupersededMarkers(rows[1..], convMsg)
  }

  /** The cleanup removes exactly the superseded markers and keeps the order. */
  lemma {:induction false} WithoutSupersededMarkersSpec(rows: seq<InboxMsg>, convMsg: ChatMsgOfConv, owner: nat, userSeq: map<nat, nat>)
    ensures forall x :: x in WithoutSupersededMarkers(rows, convMsg) <==> x in rows && !IsSupersededMarker(x, convMsg)
    ensures InboxValid(owner, rows, userSeq) ==> InboxValid(owner, WithoutSupersededMarkers(rows, convMsg), userSeq)
    decreases |rows|
  {
    if rows != [] {
      WithoutSupersededMarkersSpec(rows[1..], convMsg, owner, userSeq);
      var rest := WithoutSupersededMarkers(rows[1..], convMsg);
      assert forall x | x in rows :: x == rows[0] || x in rows[1..];
      if InboxValid(owner, rows, userSeq) {
        InboxTail(owner, rows, userSeq);
        if !IsSupersededMarker(rows[0], convMsg) {
          InboxCons(owner, rows[0], rest, userSeq);
        }
      }
    }
  }

  /**
   * The inbox after the mark-read update: rows from sender to receiver
   * with convMsgId at most cutoff are flagged read.
   */
  function MarkedRead(rows: seq<InboxMsg>, sender: nat, receiver: nat, cutoff: nat): (marked: seq<InboxMsg>)
  {
    seq(|rows|, (i: int) requires 0 <= i < |rows| =>
      if rows[i].senderId == sender && rows[i].receiverId == Some(receiver) && rows[i].convMsgId <= cutoff
      then rows[i].(isRead := true) else rows[i])
  }

  /** Marking read twice with the same arguments is marking once. */
  lemma MarkedReadIdempotent(rows: seq<InboxMsg>, sender: nat, receiver: nat, cutoff: nat)
    ensures MarkedRead(MarkedRead(rows, sender, receiver, cutoff), sender, receiver, cutoff)
            == MarkedRead(rows, sender, receiver, cutoff)
  {
  }

  lemma MarkedReadPreserves(rows: seq<InboxMsg>, sender: nat, receiver: nat, cutoff: nat, owner: nat, userSeq: map<nat, nat>)
    requires InboxValid(owner, rows, userSeq)
    ensures InboxValid(owner, MarkedRead(rows, sender, receiver, cutoff), userSeq)
  {
  }

  /** The rows that query selects: those with seqId above cursor, in inbox order. */
  function Since(rows: seq<InboxMsg>, cursor: nat): seq<InboxMsg>
    decreases |rows|
  {
    if rows == [] then []
    else (if rows[0].seqId > cursor then [rows[0]] else []) + Since(rows[1..], cursor)
  }

  /**
   * Since selects exactly the rows above the cursor; on an ordered inbox the
   * selection is in ascending seqId order and every row decodes.
   */
  lemma {:induction false} SinceSpec(rows: seq<InboxMsg>, cursor: nat, owner: nat, userSeq: map<nat, nat>)
    ensures forall x :: x in Since(rows, cursor) <==> x in rows && x.seqId > cursor
    ensures InboxValid(owner, rows, userSeq) ==> InboxValid(owner, Since(rows, cursor), userSeq)
    decreases |rows|
  {
    if rows != [] {
      SinceSpec(rows[1..], cursor, owner, userSeq);
      var rest := Since(rows[1..], cursor);
      assert forall x | x in rows :: x == rows[0] || x in rows[1..];
      if InboxValid(owner, rows, userSeq) {
        InboxTail(owner, rows, userSeq);
        if rows[0].seqId > cursor {
          InboxCons(owner, rows[0], rest, userSeq);
        }
      }
    }
  }

  /** When every selected row was decoded, each row above the cursor appears in the decoded list. */
  lemma DecodedCovers(all: seq<InboxMsg>, cursor: nat, msgs: seq<ChatMsgOfConv>)
    requires |msgs| == |Since(all, cursor)|
    requires forall i | 0 <= i < |msgs| :: ConvertDbMsgToChatMsgOfConv(Since(all, cursor)[i]) == Ok(msgs[i])
    requires forall x :: x in Since(all, cursor) <==> x in all && x.seqId > cursor
    ensures forall row | row in all && row.seqId > cursor ::
      ConvertDbMsgToChatMsgOfConv(row).Ok? && ConvertDbMsgToChatMsgOfConv(row).value in msgs
  {
    var rows := Since(all, cursor);
    forall row | row in all && row.seqId > cursor
      ensures ConvertDbMsgToChatMsgOfConv(row).Ok? && ConvertDbMsgToChatMsgOfConv(row).value in msgs
    {
      var k :| 0 <= k < |rows| && rows[k] == row;
      assert ConvertDbMsgToChatMsgOfConv(rows[k]) == Ok(msgs[k]);
    }
  }

  /**
   * Decodes query rows one by one, failing on the first row that names
   * neither a receiver nor a group. An iteration error ends the loop as
   * the last row would and is never asked for, so the rows decoded so far
   * are returned as a success: read is how many rows were read.
   */
  method ConvertRows(rows: seq<InboxMsg>) returns (r: Result<seq<ChatMsgOfConv>, DbError>, ghost read: nat)
    ensures read <= |rows|
    ensures r.Ok? <==> forall i | 0 <= i < read :: ConvertDbMsgToChatMsgOfConv(rows[i]).Ok?
    ensures r.Ok? ==> |r.value| == read
    ensures r.Ok? ==> forall i | 0 <= i < read :: ConvertDbMsgToChatMsgOfConv(rows[i]) == Ok(r.value[i])
    ensures r.Err? ==> r.error == InvalidPeerId
  {
    var msgs: seq<ChatMsgOfConv> := [];
    var i := 0;
    while i < |rows|
      invariant 0 <= i <= |rows| && |msgs| == i
      invariant forall k | 0 <= k < i :: ConvertDbMsgToChatMsgOfConv(rows[k]) == Ok(msgs[k])
    {
      var iterationFails: bool :| true;  // rows.Next() stops; rows.Err() is not checked
      if iterationFails {
        break;
      }
      var msg := ConvertDbMsgToChatMsgOfConv(rows[i]);
      if msg.Err? {
        return Err(msg.error), i + 1;
      }
      msgs := msgs + [msg.value];
      i := i + 1;
    }
    r, read := Ok(msgs), i;
  }

  // ---------------------------------------------------------------------
  // Fan-out

  /** row is the copy of m stored in owner's inbox under seqId. */
  predicate IsCopy(row: InboxMsg, owner: nat, seqId: nat, m: ChatMsgOfConv)
  {
    row == InboxRowOf(owner, seqId, m, row.sentAtMs)
  }

  lemma CopyFields(row: InboxMsg, owner: nat, seqId: nat, m: ChatMsgOfConv)
    requires IsCopy(row, owner, seqId, m)
    ensures row.userId == owner && row.seqId == seqId && row.convMsgId == m.convMsgId
    ensures row.senderId == m.msg.senderUid && row.messageType == m.msg.msgType
  {
  }

  /**
   * rows are the inbox rows written, in order, for a copy of m to each of
   * owners, each row's seqId taken from its owner's counter as the earlier
   * rows left it.
   */
  ghost predicate IsFanOut(rows: seq<InboxMsg>, owners: seq<nat>, userSeq: map<nat, nat>, m: ChatMsgOfConv)
    decreases |owners|
  {
    && |rows| == |owners|
    && (owners != [] ==>
         var n := |owners| - 1;
         && IsFanOut(rows[..n], owners[..n], userSeq, m)
         && IsCopy(rows[n], owners[n], NextId(IssueAll(userSeq, owners[..n]), owners[n]), m))
  }

  lemma IsFanOutSnoc(rows: seq<InboxMsg>, owners: seq<nat>, userSeq: map<nat, nat>, m: ChatMsgOfConv, owner: nat, row: InboxMsg)
    requires IsFanOut(rows, owners, userSeq, m)
    requires IsCopy(row, owner, NextId(IssueAll(userSeq, owners), owner), m)
    ensures IsFanOut(rows + [row], owners + [owner], userSeq, m)
    ensures IssueAll(userSeq, owners + [owner]) == Issue(IssueAll(userSeq, owners), owner)
  {
    var rs, os := rows + [row], owners + [owner];
    assert rs[..|rows|] == rows && rs[|rows|] == row;
    assert os[..|owners|] == owners && os[|owners|] == owner;
    IssueAllSnoc(userSeq, owners, owner);
  }

  lemma IssueAllSnoc(counters: map<nat, nat>, owners: seq<nat>, owner: nat)
    ensures IssueAll(counters, owners + [owner]) == Issue(IssueAll(counters, owners), owner)
  {
    assert (owners + [owner])[..|owners|] == owners;
  }

  /**
   * A fan-out writes one copy of m per owner, in the owners' order; the
   * k-th copy an owner receives has that owner's next id plus k, so an
   * owner's copies get distinct, increasing seqIds.
   */
  lemma {:induction false} FanOutShape(rows: seq<InboxMsg>, owners: seq<nat>, userSeq: map<nat, nat>, m: ChatMsgOfConv)
    requires IsFanOut(rows, owners, userSeq, m)
    ensures |rows| == |owners|
    ensures forall i | 0 <= i < |rows| ::
      IsCopy(rows[i], owners[i], NextId(userSeq, owners[i]) + Count(owners[..i], owners[i]), m)
  {
    forall i | 0 <= i < |rows|
      ensures IsCopy(rows[i], owners[i], NextId(userSeq, owners[i]) + Count(owners[..i], owners[i]), m)
    {
      FanOutAt(rows, owners, userSeq, m, i);
    }
  }

  /** FanOutShape at one index. */
  lemma {:induction false} FanOutAt(rows: seq<InboxMsg>, owners: seq<nat>, userSeq: map<nat, nat>, m: ChatMsgOfConv, i: nat)
    requires IsFanOut(rows, owners, userSeq, m) && i < |owners|
    ensures IsCopy(rows[i], owners[i], NextId(userSeq, owners[i]) + Count(owners[..i], owners[i]), m)
    decreases |owners|
  {
    var n := |owners| - 1;
    if i < n {
      FanOutAt(rows[..n], owners[..n], userSeq, m, i);
      assert rows[..n][i] == rows[i] && owners[..n][i] == owners[i];
      assert owners[..n][..i] == owners[..i];
    } else {
      IssueAllCounts(userSeq, owners[..n], owners[n]);
      assert owners[..i] == owners[..n];
    }
  }

  /** The rows of a batch that land in one owner's inbox, in order. */
  function OwnedBy(rows: seq<InboxMsg>, owner: nat): seq<InboxMsg>
    decreases |rows|
  {
    if rows == [] then []
    else OwnedBy(rows[..|rows| - 1], owner) + (if rows[|rows| - 1].userId == owner then [rows[|rows| - 1]] else [])
  }

  lemma OwnedBySnoc(rows: seq<InboxMsg>, row: InboxMsg, owner: nat)
    ensures OwnedBy(rows + [row], owner) == OwnedBy(rows, owner) + (if row.userId == owner then [row] else [])
  {
    assert (rows + [row])[..|rows|] == rows;
  }

  /** The inboxes after appending rows, in order, each to its owner's inbox. */
  function Distribute(inbox: map<nat, seq<InboxMsg>>, rows: seq<InboxMsg>): map<nat, seq<InboxMsg>>
    decreases |rows|
  {
    if rows == [] then inbox
    else
      var before := Distribute(inbox, rows[..|rows| - 1]);
      var row := rows[|rows| - 1];
      before[row.userId := RowsOf(before, row.userId) + [row]]
  }

  /** Distributing a batch leaves each inbox with its old rows followed by the batch's rows it owns. */
  lemma {:induction false} DistributeRows(inbox: map<nat, seq<InboxMsg>>, rows: seq<InboxMsg>, owner: nat)
    ensures RowsOf(Distribute(inbox, rows), owner) == RowsOf(inbox, owner) + OwnedBy(rows, owner)
    decreases |rows|
  {
    if rows != [] {
      DistributeRows(inbox, rows[..|rows| - 1], owner);
    }
  }

  /** The last element of a non-empty sequence. */
  function Last<T>(s: seq<T>): T
    requires s != []
  {
    s[|s| - 1]
  }

  lemma {:induction false} WithoutSupersededMarkersAppend(a: seq<InboxMsg>, b: seq<InboxMsg>, convMsg: ChatMsgOfConv)
    ensures WithoutSupersededMarkers(a + b, convMsg) == WithoutSupersededMarkers(a, convMsg) + WithoutSupersededMarkers(b, convMsg)
    decreases |a|
  {
    if a == [] {
      assert a + b == b;
    } else {
      WithoutSupersededMarkersAppend(a[1..], b, convMsg);
      assert (a + b)[1..] == a[1..] + b;
    }
  }

  /** Cleaning an inbox a second time removes nothing more. */
  lemma {:induction false} WithoutSupersededMarkersIdempotent(rows: seq<InboxMsg>, convMsg: ChatMsgOfConv)
    ensures WithoutSupersededMarkers(WithoutSupersededMarkers(rows, convMsg), convMsg) == WithoutSupersededMarkers(rows, convMsg)
    decreases |rows|
  {
    if rows != [] {
      var head := if IsSupersededMarker(rows[0], convMsg) then [] else [rows[0]];
      WithoutSupersededMarkersIdempotent(rows[1..], convMsg);
      WithoutSupersededMarkersAppend(head, WithoutSupersededMarkers(rows[1..], convMsg), convMsg);
      if head != [] {
        assert head[1..] == [];
      }
    }
  }

  /** A mark-read message's own inbox copy is one of the markers a later copy of it supersedes. */
  lemma CopyIsSupersededMarker(row: InboxMsg, owner: nat, seqId: nat, m: ChatMsgOfConv)
    requires IsCopy(row, owner, seqId, m) && m.msg.msgType == MsgTypeMarkRead
    ensures IsSupersededMarker(row, m)
    ensures WithoutSupersededMarkers([row], m) == []
  {
    assert [row][1..] == [];
  }

  /**
   * Every owner outside except whose inbox received rows of the batch has
   * the last of them at the end of its inbox.
   */
  ghost predicate EndsWithLastCopies(inbox: map<nat, seq<InboxMsg>>, rows: seq<InboxMsg>, except: set<nat>)
  {
    forall u {:trigger OwnedBy(rows, u)} | u !in except && OwnedBy(rows, u) != [] ::
      RowsOf(inbox, u) != [] && Last(RowsOf(inbox, u)) == Last(OwnedBy(rows, u))
  }

  /** u's inbox ends with a copy of m. */
  ghost predicate EndsWithCopy(inbox: map<nat, seq<InboxMsg>>, u: nat, m: ChatMsgOfConv)
  {
    RowsOf(inbox, u) != [] && IsCopy(Last(RowsOf(inbox, u)), u, Last(RowsOf(inbox, u)).seqId, m)
  }

  /**
   * A fan-out of m to the owners all, in order, that began with the journal
   * w0, the counters u0 and the inboxes i0. exact holds when no cleanup
   * can happen on the way; otherwise m is a mark-read message.
   */
  datatype FanOut = FanOut(all: seq<nat>, m: ChatMsgOfConv, exact: bool,
                           w0: seq<InboxMsg>, u0: map<nat, nat>, i0: map<nat, seq<InboxMsg>>)

  /** The journal, inboxes and counters a copy step reads and writes. */
  datatype Tables = Tables(written: seq<InboxMsg>, inbox: map<nat, seq<InboxMsg>>, userSeq: map<nat, nat>)

  /**
   * Progress of the fan-out f: done is the owners reached so far, a prefix
   * of f.all, and failed says the attempt for the next owner failed. The
   * rows since f.w0 are the fan-out to done; inboxes outside f.all are
   * untouched. When f.exact holds the inboxes are f.i0 with the new rows
   * distributed; otherwise every inbox is f.i0's up to the markers m
   * supersedes (m's own copies being such markers). Either way each owner
   * that got a copy ends with its last one, except the owner of a failed
   * attempt, whose cleanup may have deleted it.
   */
  ghost predicate Sent(written: seq<InboxMsg>, inbox: map<nat, seq<InboxMsg>>, done: seq<nat>, failed: bool, f: FanOut)
  {
    && |done| <= |f.all| && done == f.all[..|done|]
    && (failed ==> |done| < |f.all|)
    && |written| >= |f.w0| && written[..|f.w0|] == f.w0
    && IsFanOut(written[|f.w0|..], done, f.u0, f.m)
    && (forall u | u !in f.all :: RowsOf(inbox, u) == RowsOf(f.i0, u))
    && (f.exact ==> inbox == Distribute(f.i0, written[|f.w0|..]))
    && (!f.exact ==>
         && f.m.msg.msgType == MsgTypeMarkRead
         && forall u {:trigger WithoutSupersededMarkers(RowsOf(inbox, u), f.m)} ::
              WithoutSupersededMarkers(RowsOf(inbox, u), f.m) == WithoutSupersededMarkers(RowsOf(f.i0, u), f.m))
    && EndsWithLastCopies(inbox, written[|f.w0|..], if failed then {f.all[|done|]} else {})
  }

  lemma SentStart(written: seq<InboxMsg>, inbox: map<nat, seq<InboxMsg>>, f: FanOut)
    requires f.w0 == written && f.i0 == inbox
    requires !f.exact ==> f.m.msg.msgType == MsgTypeMarkRead
    ensures Sent(written, inbox, f.all[..0], false, f)
  {
    assert written[|written|..] == [];
  }

  /**
   * One attempt to write owner's copy of m, from t1 to t2: only owner's
   * inbox may change. When it passed, one row was journalled, a copy under
   * owner's next id, owner's counter advanced, and owner's inbox is its
   * old rows, cleaned unless exact holds, followed by that row. When it
   * failed, nothing was journalled and owner's inbox is its old rows,
   * cleaned unless exact holds. When exact holds the inboxes changed by
   * the row alone.
   */
  ghost predicate CopyStep(t1: Tables, t2: Tables, owner: nat, m: ChatMsgOfConv, exact: bool, passed: bool)
  {
    var before := RowsOf(t1.inbox, owner);
    var cleaned := WithoutSupersededMarkers(before, m);
    && (forall u | u != owner :: RowsOf(t2.inbox, u) == RowsOf(t1.inbox, u))
    && (passed ==>
         && |t2.written| == |t1.written| + 1 && t2.written[..|t1.written|] == t1.written
         && var row := t2.written[|t1.written|];
            && IsCopy(row, owner, NextId(t1.userSeq, owner), m) && t2.userSeq == Issue(t1.userSeq, owner)
            && (RowsOf(t2.inbox, owner) == before + [row] || (!exact && RowsOf(t2.inbox, owner) == cleaned + [row]))
            && (exact ==> t2.inbox == t1.inbox[owner := before + [row]]))
    && (!passed ==>
         && t2.written == t1.written
         && (RowsOf(t2.inbox, owner) == before || (!exact && RowsOf(t2.inbox, owner) == cleaned))
         && (exact ==> t2.inbox == t1.inbox))
  }

  /** After a step on owner's inbox that leaves it equal to before, cleaned or not, and then appends tail. */
  lemma CleanupInvariant(before: seq<InboxMsg>, after: seq<InboxMsg>, tail: seq<InboxMsg>, m: ChatMsgOfConv)
    requires after == before + tail || after == WithoutSupersededMarkers(before, m) + tail
    requires WithoutSupersededMarkers(tail, m) == []
    ensures WithoutSupersededMarkers(after, m) == WithoutSupersededMarkers(before, m)
  {
    WithoutSupersededMarkersIdempotent(before, m);
    if after == before + tail {
      WithoutSupersededMarkersAppend(before, tail, m);
    } else {
      WithoutSupersededMarkersAppend(WithoutSupersededMarkers(before, m), tail, m);
    }
  }

  /** Every inbox outside owner is unchanged and owner's keeps its cleaned form: then so does every inbox. */
  lemma CleanupStep(inbox: map<nat, seq<InboxMsg>>, inbox': map<nat, seq<InboxMsg>>, i0: map<nat, seq<InboxMsg>>,
                    owner: nat, tail: seq<InboxMsg>, m: ChatMsgOfConv)
    requires forall u :: WithoutSupersededMarkers(RowsOf(inbox, u), m) == WithoutSupersededMarkers(RowsOf(i0, u), m)
    requires forall u | u != owner :: RowsOf(inbox', u) == RowsOf(inbox, u)
    requires || RowsOf(inbox', owner) == RowsOf(inbox, owner) + tail
             || RowsOf(inbox', owner) == WithoutSupersededMarkers(RowsOf(inbox, owner), m) + tail
    requires WithoutSupersededMarkers(tail, m) == []
    ensures forall u :: WithoutSupersededMarkers(RowsOf(inbox', u), m) == WithoutSupersededMarkers(RowsOf(i0, u), m)
  {
    CleanupInvariant(RowsOf(inbox, owner), RowsOf(inbox', owner), tail, m);
  }

  /** A row appended to its owner's inbox becomes that owner's last copy; the others keep theirs. */
  lemma LastCopiesSnoc(inbox: map<nat, seq<InboxMsg>>, inbox': map<nat, seq<InboxMsg>>, rows: seq<InboxMsg>, row: InboxMsg)
    requires EndsWithLastCopies(inbox, rows, {})
    requires forall u | u != row.userId :: RowsOf(inbox', u) == RowsOf(inbox, u)
    requires RowsOf(inbox', row.userId) != [] && Last(RowsOf(inbox', row.userId)) == row
    ensures EndsWithLastCopies(inbox', rows + [row], {})
  {
    forall u | OwnedBy(rows + [row], u) != []
      ensures RowsOf(inbox', u) != [] && Last(RowsOf(inbox', u)) == Last(OwnedBy(rows + [row], u))
    {
      OwnedBySnoc(rows, row, u);
    }
  }

  /** Appending a row to its owner's inbox extends the distribution of a batch by that row. */
  lemma DistributeSnoc(inbox: map<nat, seq<InboxMsg>>, inbox': map<nat, seq<InboxMsg>>, i0: map<nat, seq<InboxMsg>>,
                       rows: seq<InboxMsg>, row: InboxMsg)
    requires inbox == Distribute(i0, rows)
    requires inbox' == inbox[row.userId := RowsOf(inbox, row.userId) + [row]]
    ensures inbox' == Distribute(i0, rows + [row])
  {
    assert (rows + [row])[..|rows|] == rows;
  }

  lemma PrefixSnoc(all: seq<nat>, done: seq<nat>)
    requires |done| < |all| && done == all[..|done|]
    ensures all[..|done| + 1] == done + [all[|done|]]
  {
  }

  /** One more journalled row keeps the journal's start and extends what follows it. */
  lemma JournalSnoc(w0: seq<InboxMsg>, w1: seq<InboxMsg>, w2: seq<InboxMsg>)
    requires |w1| >= |w0| && w1[..|w0|] == w0
    requires |w2| == |w1| + 1 && w2[..|w1|] == w1
    ensures w2[..|w0|] == w0 && w2[|w0|..] == w1[|w0|..] + [w2[|w1|]]
  {
    assert w2 == w1 + [w2[|w1|]];
  }

  lemma SentPassed(t1: Tables, t2: Tables, done: seq<nat>, f: FanOut, owner: nat)
    requires Sent(t1.written, t1.inbox, done, false, f) && t1.userSeq == IssueAll(f.u0, done)
    requires |done| < |f.all| && owner == f.all[|done|]
    requires CopyStep(t1, t2, owner, f.m, f.exact, true)
    ensures Sent(t2.written, t2.inbox, done + [owner], false, f) && t2.userSeq == IssueAll(f.u0, done + [owner])
  {
    var rows := t1.written[|f.w0|..];
    var row := t2.written[|t1.written|];
    PrefixSnoc(f.all, done);
    JournalSnoc(f.w0, t1.written, t2.written);
    IsFanOutSnoc(rows, done, f.u0, f.m, owner, row);
    CopyFields(row, owner, NextId(t1.userSeq, owner), f.m);
    assert owner in f.all;
    if f.exact {
      DistributeSnoc(t1.inbox, t2.inbox, f.i0, rows, row);
    } else {
      CopyIsSupersededMarker(row, owner, NextId(t1.userSeq, owner), f.m);
      CleanupStep(t1.inbox, t2.inbox, f.i0, owner, [row], f.m);
    }
    LastCopiesSnoc(t1.inbox, t2.inbox, rows, row);
  }

  lemma SentFailed(t1: Tables, t2: Tables, done: seq<nat>, f: FanOut, owner: nat)
    requires Sent(t1.written, t1.inbox, done, false, f)
    requires |done| < |f.all| && owner == f.all[|done|]
    requires CopyStep(t1, t2, owner, f.m, f.exact, false)
    ensures Sent(t2.written, t2.inbox, done, true, f)
  {
    if !f.exact {
      var before, after := RowsOf(t1.inbox, owner), RowsOf(t2.inbox, owner);
      assert after == before + [] || after == WithoutSupersededMarkers(before, f.m) + [];
      CleanupStep(t1.inbox, t2.inbox, f.i0, owner, [], f.m);
    }
  }

  /** A fan-out's progress after one more attempt: extended by its owner when it passed, failed at it otherwise. */
  lemma SentStep(t1: Tables, t2: Tables, done: seq<nat>, f: FanOut, owner: nat, passed: bool)
    requires Sent(t1.written, t1.inbox, done, false, f) && t1.userSeq == IssueAll(f.u0, done)
    requires |done| < |f.all| && owner == f.all[|done|]
    requires CopyStep(t1, t2, owner, f.m, f.exact, passed)
    ensures passed ==> Sent(t2.written, t2.inbox, done + [owner], false, f) && t2.userSeq == IssueAll(f.u0, done + [owner])
    ensures !passed ==> Sent(t2.written, t2.inbox, done, true, f)
  {
    if passed {
      SentPassed(t1, t2, done, f, owner);
    } else {
      SentFailed(t1, t2, done, f, owner);
    }
  }

  /** Before any copy was written, a failed attempt leaves nothing to exempt. */
  lemma SentNoneFailed(written: seq<InboxMsg>, inbox: map<nat, seq<InboxMsg>>, f: FanOut)
    requires Sent(written, inbox, [], true, f)
    ensures Sent(written, inbox, [], false, f)
  {
  }

  /** An owner in a fan-out gets at least one row, and each row it gets is a copy of m addressed to it. */
  lemma {:induction false} FanOutOwned(rows: seq<InboxMsg>, owners: seq<nat>, u0: map<nat, nat>, m: ChatMsgOfConv, u: nat)
    requires IsFanOut(rows, owners, u0, m)
    ensures u in owners ==> OwnedBy(rows, u) != []
    ensures forall x | x in OwnedBy(rows, u) :: IsCopy(x, u, x.seqId, m)
    decreases |owners|
  {
    if owners != [] {
      var n := |owners| - 1;
      FanOutOwned(rows[..n], owners[..n], u0, m, u);
      CopyFields(rows[n], owners[n], NextId(IssueAll(u0, owners[..n]), owners[n]), m);
      assert owners == owners[..n] + [owners[n]];
    }
  }

  /**
   * Every owner in done ends its inbox with a copy of f.m, except the owner
   * of a failed last attempt.
   */
  ghost predicate ReachedEndWithCopy(inbox: map<nat, seq<InboxMsg>>, done: seq<nat>, failed: bool, f: FanOut)
  {
    forall u {:trigger EndsWithCopy(inbox, u, f.m)} | u in done && !(failed && |done| < |f.all| && u == f.all[|done|]) ::
      EndsWithCopy(inbox, u, f.m)
  }

  /** Every owner a fan-out reached ends its inbox with a copy of m, except the owner of a failed last attempt. */
  lemma ReachedOwnersEndWithCopy(written: seq<InboxMsg>, inbox: map<nat, seq<InboxMsg>>, done: seq<nat>, failed: bool, f: FanOut)
    requires Sent(written, inbox, done, failed, f)
    ensures ReachedEndWithCopy(inbox, done, failed, f)
  {
    forall u | u in done && !(failed && u == f.all[|done|])
      ensures EndsWithCopy(inbox, u, f.m)
    {
      var rows := written[|f.w0|..];
      FanOutOwned(rows, done, f.u0, f.m, u);
      assert Last(OwnedBy(rows, u)) in OwnedBy(rows, u);
    }
  }

  /** The uids of a group's member rows, in table order. */
  function MemberIds(rows: seq<GroupMember>): seq<nat>
  {
    seq(|rows|, (i: int) requires 0 <= i < |rows| => rows[i].userId)
  }

  /** The uids of the owner and administrators (role 1 or 2), in table order. */
  function AdminIds(rows: seq<GroupMember>): seq<nat>
    decreases |rows|
  {
    if rows == [] then []
    else AdminIds(rows[..|rows| - 1])
         + (if rows[|rows| - 1].role == 1 || rows[|rows| - 1].role == 2 then [rows[|rows| - 1].userId] else [])
  }

  /** The admin list holds exactly the members with role 1 or 2. */
  lemma {:induction false} AdminIdsSpec(rows: seq<GroupMember>)
    ensures |AdminIds(rows)| <= |rows|
    ensures forall uid :: uid in AdminIds(rows) <==>
      exists k :: 0 <= k < |rows| && rows[k].userId == uid && (rows[k].role == 1 || rows[k].role == 2)
    decreases |rows|
  {
    if rows != [] {
      var n := |rows| - 1;
      AdminIdsSpec(rows[..n]);
      forall uid | uid in AdminIds(rows)
        ensures exists k :: 0 <= k < |rows| && rows[k].userId == uid && (rows[k].role == 1 || rows[k].role == 2)
      {
        if uid in AdminIds(rows[..n]) {
          var k :| 0 <= k < n && rows[..n][k].userId == uid && (rows[..n][k].role == 1 || rows[..n][k].role == 2);
          assert rows[k] == rows[..n][k];
        }
      }
      forall uid | exists k :: 0 <= k < |rows| && rows[k].userId == uid && (rows[k].role == 1 || rows[k].role == 2)
        ensures uid in AdminIds(rows)
      {
        var k :| 0 <= k < |rows| && rows[k].userId == uid && (rows[k].role == 1 || rows[k].role == 2);
        if k < n {
          assert rows[..n][k] == rows[k];
        }
      }
    }
  }

  /** The admins among the first n rows are a prefix of the admin list. */
  lemma {:induction false} AdminIdsPrefix(rows: seq<GroupMember>, n: nat)
    requires n <= |rows|
    ensures AdminIds(rows[..n]) <= AdminIds(rows)
    decreases |rows|
  {
    if n < |rows| {
      AdminIdsPrefix(rows[..|rows| - 1], n);
      assert rows[..|rows| - 1][..n] == rows[..n];
    } else {
      assert rows[..n] == rows;
    }
  }

  /** The columns an update may set. */
  datatype Column = Nickname | Email | Avatar | Password | GroupName

  /** The "column = ?" fragment of a column in an UPDATE's SET list. */
  function Placeholder(col: Column): string
  {
    match col
    case Nickname => "nickname = ?"
    case Email => "email = ?"
    case Avatar => "avatar = ?"
    case Password => "password = ?"
    case GroupName => "group_name = ?"
  }

  /** A candidate column with its value, kept only when the value is non-empty. */
  function Keep(cand: (Column, string)): seq<(Column, string)>
  {
    if cand.1 != "" then [cand] else []
  }

  /** The SET assignments of an UPDATE: only non-empty values, in the given order. */
  function NonEmptyAssignments(cands: seq<(Column, string)>): seq<(Column, string)>
    decreases |cands|
  {
    if cands == [] then [] else NonEmptyAssignments(cands[..|cands| - 1]) + Keep(cands[|cands| - 1])
  }

  /** The assignments kept are the candidates with a non-empty value; none is left only when every value is empty. */
  lemma {:induction false} NonEmptyAssignmentsSpec(cands: seq<(Column, string)>)
    ensures forall a :: a in NonEmptyAssignments(cands) <==> a in cands && a.1 != ""
    ensures NonEmptyAssignments(cands) == [] <==> forall i | 0 <= i < |cands| :: cands[i].1 == ""
    decreases |cands|
  {
    if cands != [] {
      var n := |cands| - 1;
      NonEmptyAssignmentsSpec(cands[..n]);
      assert forall a | a in cands :: a == cands[n] || a in cands[..n];
      assert forall i | 0 <= i < n :: cands[i] == cands[..n][i];
    }
  }

  /** Extending the candidates by one extends the assignments by that one when it is kept. */
  lemma NonEmptyAssignmentsPrefix(cands: seq<(Column, string)>, k: nat)
    requires k < |cands|
    ensures NonEmptyAssignments(cands[..k + 1]) == NonEmptyAssignments(cands[..k]) + Keep(cands[k])
  {
    assert cands[..k + 1][..k] == cands[..k];
  }

  /** fields and args are the SET list and the argument list of assigns. */
  predicate Renders(fields: seq<string>, args: seq<string>, assigns: seq<(Column, string)>)
  {
    && |fields| == |args| == |assigns|
    && forall i | 0 <= i < |assigns| :: fields[i] == Placeholder(assigns[i].0) && args[i] == assigns[i].1
  }

  /** Appending a kept candidate's fragment and value renders the extended assignments. */
  lemma RendersSnoc(fields: seq<string>, args: seq<string>, assigns: seq<(Column, string)>, cand: (Column, string))
    requires Renders(fields, args, assigns)
    ensures cand.1 != "" ==> Renders(fields + [Placeholder(cand.0)], args + [cand.1], assigns + Keep(cand))
    ensures cand.1 == "" ==> Renders(fields, args, assigns + Keep(cand))
  {
    assert cand.1 == "" ==> assigns + Keep(cand) == assigns;
  }

  function UserCandidates(nickname: string, email: string, avatar: string, password: string): seq<(Column, string)>
  {
    [(Nickname, nickname), (Email, email), (Avatar, avatar), (Password, password)]
  }

  function GroupCandidates(groupName: string, avatar: string): seq<(Column, string)>
  {
    [(GroupName, groupName), (Avatar, avatar)]
  }

  /** A user update has no SET assignment exactly when all four values are empty. */
  lemma UserCandidatesEmpty(nickname: string, email: string, avatar: string, password: string)
    ensures NonEmptyAssignments(UserCandidates(nickname, email, avatar, password)) == []
        <==> nickname == email == avatar == password == ""
  {
    var c := UserCandidates(nickname, email, avatar, password);
    NonEmptyAssignmentsSpec(c);
    assert c[0].1 == nickname && c[1].1 == email && c[2].1 == avatar && c[3].1 == password;
  }

  /** A group update has no SET assignment exactly when both values are empty. */
  lemma GroupCandidatesEmpty(groupName: string, avatar: string)
    ensures NonEmptyAssignments(GroupCandidates(groupName, avatar)) == [] <==> groupName == avatar == ""
  {
    var c := GroupCandidates(groupName, avatar);
    NonEmptyAssignmentsSpec(c);
    assert c[0].1 == groupName && c[1].1 == avatar;
  }

  /**
   * Builds the "column = ?" list and the argument list of a user update:
   * nickname, email, avatar, password, each only when non-empty.
   */
  method UserUpdateFields(nickname: string, email: string, avatar: string, password: string)
    returns (fields: seq<string>, args: seq<string>)
    ensures Renders(fields, args, NonEmptyAssignments(UserCandidates(nickname, email, avatar, password)))
  {
    var c := UserCandidates(nickname, email, avatar, password);
    fields, args := [], [];
    assert c[..0] == [];
    ghost var f, a := fields, args;
    if nickname != "" {
      fields, args := fields + [Placeholder(Nickname)], args + [nickname];
    }
    RendersSnoc(f, a, NonEmptyAssignments(c[..0]), c[0]);
    NonEmptyAssignmentsPrefix(c, 0);
    f, a := fields, args;
    if email != "" {
      fields, args := fields + [Placeholder(Email)], args + [email];
    }
    RendersSnoc(f, a, NonEmptyAssignments(c[..1]), c[1]);
    NonEmptyAssignmentsPrefix(c, 1);
    f, a := fields, args;
    if avatar != "" {
      fields, args := fields + [Placeholder(Avatar)], args + [avatar];
    }
    RendersSnoc(f, a, NonEmptyAssignments(c[..2]), c[2]);
    NonEmptyAssignmentsPrefix(c, 2);
    f, a := fields, args;
    if password != "" {
      fields, args := fields + [Placeholder(Password)], args + [password];
    }
    RendersSnoc(f, a, NonEmptyAssignments(c[..3]), c[3]);
    NonEmptyAssignmentsPrefix(c, 3);
    assert c[..4] == c;
  }

  /** Builds the "column = ?" list and the argument list of a group update: name, then avatar. */
  method GroupUpdateFields(groupName: string, avatar: string)
    returns (fields: seq<string>, args: seq<string>)
    ensures Renders(fields, args, NonEmptyAssignments(GroupCandidates(groupName, avatar)))
  {
    var c := GroupCandidates(groupName, avatar);
    fields, args := [], [];
    assert c[..0] == [];
    ghost var f, a := fields, args;
    if groupName != "" {
      fields, args := fields + [Placeholder(GroupName)], args + [groupName];
    }
    RendersSnoc(f, a, NonEmptyAssignments(c[..0]), c[0]);
    NonEmptyAssignmentsPrefix(c, 0);
    f, a := fields, args;
    if avatar != "" {
      fields, args := fields + [Placeholder(Avatar)], args + [avatar];
    }
    RendersSnoc(f, a, NonEmptyAssignments(c[..1]), c[1]);
    NonEmptyAssignmentsPrefix(c, 1);
    assert c[..2] == c;
  }

  function UpdatedUser(user: UserRow, nickname: string, email: string, avatar: string, password: string): UserRow
  {
    user.(nickname := if nickname != "" then nickname else user.nickname,
          email := if email != "" then email else user.email,
          avatar := if avatar != "" then avatar else user.avatar,
          password := if password != "" then password else user.password)
  }

  function UpdatedGroup(group: GroupRow, groupName: string, avatar: string): GroupRow
  {
    group.(groupName := if groupName != "" then groupName else group.groupName,
           avatar := if avatar != "" then avatar else group.avatar)
  }

  /** A user row after one SET assignment; tb_users has no group_name column. */
  function SetUserColumn(user: UserRow, assign: (Column, string)): UserRow
  {
    match assign.0
    case Nickname => user.(nickname := assign.1)
    case Email => user.(email := assign.1)
    case Avatar => user.(avatar := assign.1)
    case Password => user.(password := assign.1)
    case GroupName => user
  }

  /** A group row after one SET assignment; tb_groups has no nickname, email or password column. */
  function SetGroupColumn(group: GroupRow, assign: (Column, string)): GroupRow
  {
    match assign.0
    case GroupName => group.(groupName := assign.1)
    case Avatar => group.(avatar := assign.1)
    case _ => group
  }

  /** A user row after an UPDATE's SET list, applied in order. */
  function ApplyToUser(user: UserRow, assigns: seq<(Column, string)>): UserRow
    decreases |assigns|
  {
    if assigns == [] then user
    else SetUserColumn(ApplyToUser(user, assigns[..|assigns| - 1]), assigns[|assigns| - 1])
  }

  /** A group row after an UPDATE's SET list, applied in order. */
  function ApplyToGroup(group: GroupRow, assigns: seq<(Column, string)>): GroupRow
    decreases |assigns|
  {
    if assigns == [] then group
    else SetGroupColumn(ApplyToGroup(group, assigns[..|assigns| - 1]), assigns[|assigns| - 1])
  }

  /** Applying the assignments kept from one more candidate applies that candidate last, when it is kept. */
  lemma ApplyToUserStep(user: UserRow, cands: seq<(Column, string)>, k: nat)
    requires k < |cands|
    ensures ApplyToUser(user, NonEmptyAssignments(cands[..k + 1]))
            == if cands[k].1 != "" then SetUserColumn(ApplyToUser(user, NonEmptyAssignments(cands[..k])), cands[k])
               else ApplyToUser(user, NonEmptyAssignments(cands[..k]))
  {
    NonEmptyAssignmentsPrefix(cands, k);
    var assigns := NonEmptyAssignments(cands[..k]);
    assert (assigns + [cands[k]])[..|assigns|] == assigns;
    assert assigns + [] == assigns;
  }

  lemma ApplyToGroupStep(group: GroupRow, cands: seq<(Column, string)>, k: nat)
    requires k < |cands|
    ensures ApplyToGroup(group, NonEmptyAssignments(cands[..k + 1]))
            == if cands[k].1 != "" then SetGroupColumn(ApplyToGroup(group, NonEmptyAssignments(cands[..k])), cands[k])
               else ApplyToGroup(group, NonEmptyAssignments(cands[..k]))
  {
    NonEmptyAssignmentsPrefix(cands, k);
    var assigns := NonEmptyAssignments(cands[..k]);
    assert (assigns + [cands[k]])[..|assigns|] == assigns;
    assert assigns + [] == assigns;
  }

  /** The first two user candidates set the nickname and the email, each only when non-empty. */
  lemma UserUpdateNameAndEmail(user: UserRow, c: seq<(Column, string)>, nickname: string, email: string, avatar: string, password: string)
    requires c == UserCandidates(nickname, email, avatar, password)
    ensures ApplyToUser(user, NonEmptyAssignments(c[..2]))
            == user.(nickname := if nickname != "" then nickname else user.nickname,
                     email := if email != "" then email else user.email)
  {
    assert c[..0] == [];
    ApplyToUserStep(user, c, 0);
    ApplyToUserStep(user, c, 1);
  }

  /** The UPDATE built from the non-empty values sets exactly those fields of the user row, to those values. */
  lemma UserUpdateApplies(user: UserRow, nickname: string, email: string, avatar: string, password: string)
    ensures ApplyToUser(user, NonEmptyAssignments(UserCandidates(nickname, email, avatar, password)))
            == UpdatedUser(user, nickname, email, avatar, password)
  {
    var c := UserCandidates(nickname, email, avatar, password);
    UserUpdateNameAndEmail(user, c, nickname, email, avatar, password);
    ApplyToUserStep(user, c, 2);
    ApplyToUserStep(user, c, 3);
    assert c[..4] == c;
  }

  /** The UPDATE built from the non-empty values sets exactly those fields of the group row, to those values. */
  lemma GroupUpdateApplies(group: GroupRow, groupName: string, avatar: string)
    ensures ApplyToGroup(group, NonEmptyAssignments(GroupCandidates(groupName, avatar)))
            == UpdatedGroup(group, groupName, avatar)
  {
    var c := GroupCandidates(groupName, avatar);
    assert c[..0] == [];
    ApplyToGroupStep(group, c, 0);
    var g1 := ApplyToGroup(group, NonEmptyAssignments(c[..1]));
    assert g1 == group.(groupName := if groupName != "" then groupName else group.groupName);
    ApplyToGroupStep(group, c, 1);
    var g2 := ApplyToGroup(group, NonEmptyAssignments(c[..2]));
    assert g2 == g1.(avatar := if avatar != "" then avatar else g1.avatar);
    assert c[..2] == c;
  }

  // ---------------------------------------------------------------------
  // The store and its wrapper

  class Db {
    const maxPendingRequests: nat

    /** The connection handle is non-nil. */
    var hasDb: bool
    /** The reconnect task is inside its retry loop. */
    var retrying: bool
    var pendingRequestsCount: nat
    /** The one-slot reconnect mailbox holds a signal. */
    var reconnectSignal: bool
    /** Init has started the reconnect task. */
    var started: bool

    var userSeq: map<nat, nat>         // tb_seq_id_user
    var chatSeq: map<(nat, nat), nat>  // tb_seq_id_chat, keyed by the ordered pair
    var groupSeq: map<nat, nat>        // tb_seq_id_group
    var inbox: map<nat, seq<InboxMsg>> // tb_user_inbox, per owner
    var members: map<nat, seq<GroupMember>>  // tb_group_members, per group
    var users: map<nat, UserRow>       // tb_users
    var groups: map<nat, GroupRow>     // tb_groups

    /** Every inbox row ever inserted, in order of insertion. */
    ghost var written: seq<InboxMsg>

    ghost predicate Valid()
      reads this`inbox, this`userSeq
    {
      maxPendingRequests == MaxPendingRequests && InboxesValid(inbox, userSeq)
    }

    function MembersOf(groupId: nat): seq<GroupMember>
      reads this`members
    {
      if groupId in members then members[groupId] else []
    }

    /**
     * The wrapper's fail-fast checks, in order: no handle, retrying, too
     * many in flight. A count equal to the maximum is still admitted.
     */
    function Admission(): Outcome<DbError>
      reads this`hasDb, this`retrying, this`pendingRequestsCount
    {
      if !hasDb then Fail(NotConnected)
      else if retrying then Fail(ConnectionIssue)
      else if pendingRequestsCount > maxPendingRequests then Fail(TooManyPending)
      else Pass
    }

    /** A new store: no handle yet, nothing in flight, an empty mailbox, empty tables. */
    constructor ()
      ensures Valid()
      ensures !hasDb && !retrying && pendingRequestsCount == 0 && !reconnectSignal && !started
      ensures maxPendingRequests == 10000
      ensures userSeq == map[] && chatSeq == map[] && groupSeq == map[] && inbox == map[]
      ensures members == map[] && users == map[] && groups == map[] && written == []
    {
      maxPendingRequests := MaxPendingRequests;
      hasDb, retrying, pendingRequestsCount, reconnectSignal, started := false, false, 0, false, false;
      userSeq, chatSeq, groupSeq, inbox := map[], map[], map[], map[];
      members, users, groups := map[], map[], map[];
      written := [];
    }

    /** Puts a signal in the mailbox unless one is already there; never blocks. */
    method TryPush() returns (pushed: bool)
      modifies this`reconnectSignal
      ensures pushed == !old(reconnectSignal)
      ensures reconnectSignal
    {
      pushed := !reconnectSignal;
      reconnectSignal := true;
    }

    /** Asks the reconnect task to check the connection; a redundant request is dropped. */
    method TriggerReconnect()
      modifies this`reconnectSignal
      ensures reconnectSignal
    {
      var _ := TryPush();
    }

    /** Starts the reconnect task once and asks it to connect. */
    method Init()
      modifies this`started, this`reconnectSignal
      ensures started
      ensures reconnectSignal == (old(reconnectSignal) || !old(started))
    {
      if !started {
        started := true;
        var _ := TryPush();
      }
    }

    /**
     * One wake-up of the reconnect task. Outside its retry loop it waits
     * for a signal; on one it keeps a handle that answers the probe and
     * otherwise drops the handle, sets retrying and enters the loop. In the
     * loop it tries attempts in turn until one connects, which clears
     * retrying. Attempts that run out leave it still retrying.
     */
    method ReconnectTask(pingOk: bool, attempts: seq<ConnectOutcome>)
      modifies this`hasDb, this`retrying, this`reconnectSignal
      ensures !old(retrying) && !old(reconnectSignal) ==>
        hasDb == old(hasDb) && retrying == old(retrying) && reconnectSignal == old(reconnectSignal)
      ensures !old(retrying) && old(reconnectSignal) ==> !reconnectSignal
      ensures old(retrying) ==> reconnectSignal == old(reconnectSignal)
      ensures !old(retrying) && old(reconnectSignal) && old(hasDb) && pingOk ==>
        hasDb && !retrying
      ensures (old(retrying) || (old(reconnectSignal) && !(old(hasDb) && pingOk))) ==>
        && (Connected in attempts ==> hasDb && !retrying)
        && (Connected !in attempts ==> retrying)
        && (Connected !in attempts && attempts != [] ==> hasDb == (attempts[|attempts| - 1] == PingFailed))
        && (attempts == [] ==> hasDb == (old(retrying) && old(hasDb)))
    {
      if !retrying {
        if !reconnectSignal {
          return;
        }
        reconnectSignal := false;
        if hasDb {
          if pingOk {
            return;
          }
          hasDb := false;
        }
        retrying := true;
      }
      var i := 0;
      while i < |attempts|
        invariant 0 <= i <= |attempts|
        invariant retrying
        invariant Connected !in attempts[..i]
        invariant i > 0 ==> hasDb == (attempts[i - 1] == PingFailed)
        invariant i == 0 ==> hasDb == (old(retrying) && old(hasDb))
        invariant reconnectSignal == (old(reconnectSignal) && old(retrying))
      {
        match attempts[i] {
          case OpenFailed => hasDb := false;
          case PingFailed => hasDb := true;
          case Connected =>
            hasDb := true;
            retrying := false;
            assert Connected in attempts;
            return;
        }
        assert attempts[..i + 1] == attempts[..i] + [attempts[i]];
        i := i + 1;
      }
      assert attempts[..i] == attempts;
    }

    /**
     * Runs an action through the wrapper. A rejected action does not run
     * and leaves the mailbox alone; a failed one signals the reconnect task
     * and yields an error; a successful one yields its result. The count of
     * statements in flight is back to its entry value afterwards.
     */
    method WithReconnectHandling(actionFails: bool) returns (r: Outcome<DbError>)
      modifies this`pendingRequestsCount, this`reconnectSignal
      ensures pendingRequestsCount == old(pendingRequestsCount)
      ensures old(Admission()).Fail? ==> r == old(Admission()) && reconnectSignal == old(reconnectSignal)
      ensures old(Admission()).Pass? && !actionFails ==> r == Pass && reconnectSignal == old(reconnectSignal)
      ensures old(Admission()).Pass? && actionFails ==> r == Fail(ActionFailed) && reconnectSignal
    {
      if !hasDb {
        return Fail(NotConnected);
      }
      if retrying {
        return Fail(ConnectionIssue);
      }
      if pendingRequestsCount > maxPendingRequests {
        return Fail(TooManyPending);
      }
      pendingRequestsCount := pendingRequestsCount + 1;
      if actionFails {
        TriggerReconnect();
        r := Fail(ActionFailed);
      } else {
        r := Pass;
      }
      pendingRequestsCount := pendingRequestsCount - 1;
    }

    /** Executes one statement; the database decides whether it fails. */
    method Run() returns (r: Outcome<DbError>)
      modifies this`pendingRequestsCount, this`reconnectSignal
      ensures pendingRequestsCount == old(pendingRequestsCount)
      ensures r == old(Admission()) || (old(Admission()) == Pass && r == Fail(ActionFailed))
      ensures r == Fail(ActionFailed) ==> reconnectSignal
      ensures r != Fail(ActionFailed) ==> reconnectSignal == old(reconnectSignal)
    {
      var fails: bool :| true;
      r := WithReconnectHandling(fails);
    }

    /** Issues a single-row query: the action itself cannot fail, only the gate. */
    method QueryRow() returns (r: Outcome<DbError>)
      modifies this`pendingRequestsCount, this`reconnectSignal
      ensures pendingRequestsCount == old(pendingRequestsCount)
      ensures r == old(Admission()) && reconnectSignal == old(reconnectSignal)
    {
      r := WithReconnectHandling(false);
    }

    /**
     * Allocates from a counter table: read the row; with no row insert 2
     * and yield 1, with a row V write V + 1 and yield V. A failing step
     * leaves the table as it was.
     */
    method Allocate<K>(counters: map<K, nat>, key: K) returns (r: Result<nat, DbError>, after: map<K, nat>)
      modifies this`pendingRequestsCount, this`reconnectSignal
      ensures pendingRequestsCount == old(pendingRequestsCount)
      ensures r.Ok? ==> r.value == NextId(counters, key) && after == Issue(counters, key)
      ensures r.Err? ==> after == counters
      ensures old(Admission()).Fail? ==> r == Err(old(Admission()).error) && reconnectSignal == old(reconnectSignal)
    {
      var q := QueryRow();
      if q.Fail? {
        return Err(q.error), counters;
      }
      var scanFails: bool :| true;
      if scanFails {
        return Err(ScanFailed), counters;
      }
      if key !in counters {
        var e := Run();  // INSERT (key, 2)
        if e.Fail? {
          return Err(e.error), counters;
        }
        return Ok(1), counters[key := 2];
      }
      var v := counters[key];
      var e := Run();  // UPDATE seq_id = v + 1
      if e.Fail? {
        return Err(e.error), counters;
      }
      return Ok(v), counters[key := v + 1];
    }

    /** Allocates the next inbox seqId of uid. */
    method AllocateSeqId(uid: nat) returns (r: Result<nat, DbError>)
      requires Valid()
      modifies this`pendingRequestsCount, this`reconnectSignal, this`userSeq
      ensures Valid()
      ensures pendingRequestsCount == old(pendingRequestsCount)
      ensures r.Ok? ==> r.value == NextId(old(userSeq), uid) && userSeq == Issue(old(userSeq), uid)
      ensures r.Err? ==> userSeq == old(userSeq)
      ensures old(Admission()).Fail? ==> r == Err(old(Admission()).error) && reconnectSignal == old(reconnectSignal)
    {
      IssuePreservesInboxes(inbox, userSeq, uid);
      r, userSeq := Allocate(userSeq, uid);
    }

    /** Allocates the next convMsgId of the conversation between uid1 and uid2, in either order. */
    method AllocateChatSeqId(uid1: nat, uid2: nat) returns (r: Result<nat, DbError>)
      modifies this`pendingRequestsCount, this`reconnectSignal, this`chatSeq
      ensures pendingRequestsCount == old(pendingRequestsCount)
      ensures r.Ok? ==>
        r.value == NextId(old(chatSeq), OrderedPair(uid1, uid2))
        && chatSeq == Issue(old(chatSeq), OrderedPair(uid1, uid2))
      ensures r.Err? ==> chatSeq == old(chatSeq)
      ensures old(Admission()).Fail? ==> r == Err(old(Admission()).error) && reconnectSignal == old(reconnectSignal)
    {
      var pair := OrderedPair(uid1, uid2);
      r, chatSeq := Allocate(chatSeq, pair);
    }

    /** Allocates the next convMsgId of a group conversation. */
    method AllocateGroupSeqId(groupId: nat) returns (r: Result<nat, DbError>)
      modifies this`pendingRequestsCount, this`reconnectSignal, this`groupSeq
      ensures pendingRequestsCount == old(pendingRequestsCount)
      ensures r.Ok? ==> r.value == NextId(old(groupSeq), groupId) && groupSeq == Issue(old(groupSeq), groupId)
      ensures r.Err? ==> groupSeq == old(groupSeq)
      ensures old(Admission()).Fail? ==> r == Err(old(Admission()).error) && reconnectSignal == old(reconnectSignal)
    {
      r, groupSeq := Allocate(groupSeq, groupId);
    }

    /**
     * Lists a group's members in table order. An iteration error ends the
     * loop as the last row would and is never asked for, so the list read
     * so far is returned as a success: read is how many rows were read.
     */
    method GroupGetMemList(groupId: nat) returns (r: Result<seq<nat>, DbError>, ghost read: nat)
      modifies this`pendingRequestsCount, this`reconnectSignal
      ensures pendingRequestsCount == old(pendingRequestsCount)
      ensures read <= |MembersOf(groupId)|
      ensures r.Ok? ==> r.value == MemberIds(MembersOf(groupId))[..read] && r.value <= MemberIds(MembersOf(groupId))
      ensures old(Admission()).Fail? ==> r == Err(old(Admission()).error) && reconnectSignal == old(reconnectSignal)
    {
      read := 0;
      var q := Run();
      if q.Fail? {
        return Err(q.error), read;
      }
      var rows := MembersOf(groupId);
      var uids: seq<nat> := [];
      var i := 0;
      while i < |rows|
        invariant 0 <= i <= |rows| && |uids| == i
        invariant forall k | 0 <= k < i :: uids[k] == rows[k].userId
      {
        var iterationFails: bool :| true;  // rows.Next() stops; rows.Err() is not checked
        if iterationFails {
          break;
        }
        var scanFails: bool :| true;
        if scanFails {
          return Err(ScanFailed), read;
        }
        uids := uids + [rows[i].userId];
        i := i + 1;
      }
      r, read := Ok(uids), i;
    }

    /**
     * Lists the group's owner and administrators (role 1 or 2) in table
     * order. As in GroupGetMemList, an iteration error returns the admins
     * among the first read rows as a success.
     */
    method GroupGetAdminList(groupId: nat) returns (r: Result<seq<nat>, DbError>, ghost read: nat)
      modifies this`pendingRequestsCount, this`reconnectSignal
      ensures pendingRequestsCount == old(pendingRequestsCount)
      ensures read <= |MembersOf(groupId)|
      ensures r.Ok? ==> r.value == AdminIds(MembersOf(groupId)[..read]) && r.value <= AdminIds(MembersOf(groupId))
      ensures old(Admission()).Fail? ==> r == Err(old(Admission()).error) && reconnectSignal == old(reconnectSignal)
    {
      read := 0;
      var q := Run();
      if q.Fail? {
        return Err(q.error), read;
      }
      // The query's WHERE clause keeps roles 1 and 2; the loop reads what it returns.
      var rows := MembersOf(groupId);
      var admins: seq<nat> := [];
      var i := 0;
      while i < |rows|
        invariant 0 <= i <= |rows|
        invariant admins == AdminIds(rows[..i])
      {
        var iterationFails: bool :| true;  // rows.Next() stops; rows.Err() is not checked
        if iterationFails {
          break;
        }
        var scanFails: bool :| true;
        if scanFails {
          return Err(ScanFailed), read;
        }
        assert rows[..i + 1][..i] == rows[..i];
        if rows[i].role == 1 || rows[i].role == 2 {
          admins := admins + [rows[i].userId];
        }
        i := i + 1;
      }
      AdminIdsPrefix(rows, i);
      r, read := Ok(admins), i;
    }

    /**
     * Deletes from uid's inbox the mark-read markers convMsg supersedes.
     * cleaned is the inbox afterwards: unchanged when the statement fails.
     */
    method DeleteSupersededMarkers(uid: nat, convMsg: ChatMsgOfConv) returns (ghost cleaned: seq<InboxMsg>)
      requires Valid()
      modifies this`pendingRequestsCount, this`reconnectSignal, this`inbox
      ensures Valid()
      ensures pendingRequestsCount == old(pendingRequestsCount)
      ensures forall u | u != uid :: RowsOf(inbox, u) == RowsOf(old(inbox), u)
      ensures RowsOf(inbox, uid) == cleaned
      ensures cleaned == RowsOf(old(inbox), uid) || cleaned == WithoutSupersededMarkers(RowsOf(old(inbox), uid), convMsg)
      ensures old(Admission()).Fail? ==> inbox == old(inbox) && reconnectSignal == old(reconnectSignal)
    {
      var d := Run();
      if d.Pass? {
        assert InboxValid(uid, RowsOf(inbox, uid), userSeq);
        WithoutSupersededMarkersSpec(RowsOf(inbox, uid), convMsg, uid, userSeq);
        inbox := inbox[uid := WithoutSupersededMarkers(RowsOf(inbox, uid), convMsg)];
      }
      cleaned := RowsOf(inbox, uid);
    }

    /**
     * Allocates uid's next seqId and inserts uid's copy of convMsg under it.
     * When the insert fails the allocated id stays consumed.
     */
    method InsertCopy(uid: nat, convMsg: ChatMsgOfConv) returns (r: Outcome<DbError>)
      requires Valid()
      modifies this`pendingRequestsCount, this`reconnectSignal, this`userSeq, this`inbox, this`written
      ensures Valid()
      ensures pendingRequestsCount == old(pendingRequestsCount)
      ensures forall u | u != uid :: RowsOf(inbox, u) == RowsOf(old(inbox), u)
      ensures r.Pass? ==>
        && userSeq == Issue(old(userSeq), uid)
        && |written| == |old(written)| + 1 && written[..|old(written)|] == old(written)
        && IsCopy(written[|old(written)|], uid, NextId(old(userSeq), uid), convMsg)
        && inbox == old(inbox)[uid := RowsOf(old(inbox), uid) + [written[|old(written)|]]]
      ensures r.Fail? ==>
        && written == old(written) && inbox == old(inbox)
        && (userSeq == old(userSeq) || userSeq == Issue(old(userSeq), uid))
      ensures CopyStep(Tables(old(written), old(inbox), old(userSeq)), Tables(written, inbox, userSeq), uid, convMsg, true, r.Pass?)
      ensures old(Admission()).Fail? ==>
        r == Fail(old(Admission()).error) && userSeq == old(userSeq) && reconnectSignal == old(reconnectSignal)
    {
      var s := AllocateSeqId(uid);
      if s.Err? {
        return Fail(s.error);
      }
      var ins := Run();  // INSERT INTO tb_user_inbox
      if ins.Fail? {
        return Fail(ins.error);
      }
      var sentAtMs: nat :| true;
      var row := InboxRowOf(uid, s.value, convMsg, sentAtMs);
      AppendPreservesInboxes(inbox, old(userSeq), uid, row);
      inbox := inbox[uid := RowsOf(inbox, uid) + [row]];
      written := written + [row];
      r := Pass;
    }

    /**
     * Writes one inbox copy of convMsg for uid. A mark-read message first
     * deletes the markers it supersedes from uid's inbox; a failure there
     * is only logged. Then a fresh seqId is allocated from uid's counter
     * and the row is inserted with it.
     */
    method ChatSendMsgToUser(uid: nat, convMsg: ChatMsgOfConv) returns (r: Outcome<DbError>, ghost cleaned: seq<InboxMsg>)
      requires Valid()
      modifies this`pendingRequestsCount, this`reconnectSignal, this`userSeq, this`inbox, this`written
      ensures Valid()
      ensures pendingRequestsCount == old(pendingRequestsCount)
      ensures forall u | u != uid :: RowsOf(inbox, u) == RowsOf(old(inbox), u)
      ensures convMsg.msg.msgType != MsgTypeMarkRead ==> cleaned == RowsOf(old(inbox), uid)
      ensures convMsg.msg.msgType == MsgTypeMarkRead ==>
        cleaned == RowsOf(old(inbox), uid) || cleaned == WithoutSupersededMarkers(RowsOf(old(inbox), uid), convMsg)
      ensures r.Pass? ==>
        && userSeq == Issue(old(userSeq), uid)
        && |written| == |old(written)| + 1 && written[..|old(written)|] == old(written)
        && var row := written[|old(written)|];
           && IsCopy(row, uid, NextId(old(userSeq), uid), convMsg)
           && RowsOf(inbox, uid) == cleaned + [row]
      ensures r.Fail? ==>
        && written == old(written) && RowsOf(inbox, uid) == cleaned
        && (userSeq == old(userSeq) || userSeq == Issue(old(userSeq), uid))
      ensures convMsg.msg.msgType != MsgTypeMarkRead && r.Pass? ==>
        |written| == |old(written)| + 1 && inbox == old(inbox)[uid := RowsOf(old(inbox), uid) + [written[|old(written)|]]]
      ensures convMsg.msg.msgType != MsgTypeMarkRead && r.Fail? ==> inbox == old(inbox)
      ensures CopyStep(Tables(old(written), old(inbox), old(userSeq)), Tables(written, inbox, userSeq), uid, convMsg,
                       convMsg.msg.msgType != MsgTypeMarkRead, r.Pass?)
      ensures old(Admission()).Fail? ==>
        r == Fail(old(Admission()).error) && inbox == old(inbox) && userSeq == old(userSeq)
        && reconnectSignal == old(reconnectSignal)
    {
      if convMsg.msg.msgType == MsgTypeMarkRead {
        cleaned := DeleteSupersededMarkers(uid, convMsg);  // a failure here is only logged
      } else {
        cleaned := RowsOf(inbox, uid);
      }
      r := InsertCopy(uid, convMsg);
    }

    /** One step of SendToEach: owner's copy of m, the next of the fan-out f, through ChatSendMsgToUser. */
    method SendOne(owner: nat, m: ChatMsgOfConv, ghost f: FanOut, ghost done: seq<nat>) returns (r: Outcome<DbError>)
      requires Valid() && |done| < |f.all| && owner == f.all[|done|] && m == f.m
      requires f.exact == (m.msg.msgType != MsgTypeMarkRead)
      requires Sent(written, inbox, done, false, f) && userSeq == IssueAll(f.u0, done)
      modifies this`pendingRequestsCount, this`reconnectSignal, this`userSeq, this`inbox, this`written
      ensures Valid()
      ensures pendingRequestsCount == old(pendingRequestsCount)
      ensures r.Pass? ==> Sent(written, inbox, done + [owner], false, f) && userSeq == IssueAll(f.u0, done + [owner])
      ensures r.Fail? ==> Sent(written, inbox, done, true, f)
      ensures old(Admission()).Fail? ==> r == Fail(old(Admission()).error) && userSeq == old(userSeq) && inbox == old(inbox)
    {
      ghost var t1 := Tables(written, inbox, userSeq);
      ghost var cleaned;
      r, cleaned := ChatSendMsgToUser(owner, m);
      SentStep(t1, Tables(written, inbox, userSeq), done, f, owner, r.Pass?);
    }

    /**
     * Writes a copy of m for each of owners in turn, through
     * ChatSendMsgToUser, stopping at the first failure; delivered is how
     * many copies were written. Every owner that got its copy ends its
     * inbox with a copy of m, unless it is the owner whose attempt failed.
     */
    method SendToEach(owners: seq<nat>, m: ChatMsgOfConv) returns (r: Outcome<DbError>, ghost delivered: nat)
      requires Valid()
      modifies this`pendingRequestsCount, this`reconnectSignal, this`userSeq, this`inbox, this`written
      ensures Valid()
      ensures pendingRequestsCount == old(pendingRequestsCount)
      ensures delivered <= |owners|
      ensures Sent(written, inbox, owners[..delivered], r.Fail?,
                   FanOut(owners, m, m.msg.msgType != MsgTypeMarkRead, old(written), old(userSeq), old(inbox)))
      ensures r.Pass? ==> delivered == |owners| && userSeq == IssueAll(old(userSeq), owners)
      ensures r.Fail? ==> delivered < |owners|
      ensures old(Admission()).Fail? && owners != [] ==>
        r == Fail(old(Admission()).error) && delivered == 0 && userSeq == old(userSeq) && inbox == old(inbox)
    {
      ghost var f := FanOut(owners, m, m.msg.msgType != MsgTypeMarkRead, written, userSeq, inbox);
      SentStart(written, inbox, f);
      var i := 0;
      while i < |owners|
        invariant Valid()
        invariant i <= |owners|
        invariant pendingRequestsCount == old(pendingRequestsCount)
        invariant Sent(written, inbox, owners[..i], false, f)
        invariant userSeq == IssueAll(f.u0, owners[..i])
        invariant Admission() == old(Admission())
        invariant old(Admission()).Fail? ==> i == 0 && userSeq == f.u0 && inbox == f.i0
      {
        r := SendOne(owners[i], m, f, owners[..i]);
        if r.Fail? {
          return r, i;
        }
        assert owners[..i] + [owners[i]] == owners[..i + 1];
        i := i + 1;
      }
      assert owners[..i] == owners;
      r, delivered := Pass, i;
    }

    /**
     * Sends a message to its conversation: to a user peer through
     * ChatSendMsgDirect, to any other peer through ChatSendMsgGroup. The
     * first failure ends the send; copies already written stay. owners is
     * who the copies are for, sent the message with its convMsgId,
     * delivered how many owners got their copy.
     */
    method ChatSendMsg(convMsg: ChatMsgOfConv)
      returns (r: Outcome<DbError>, ghost owners: seq<nat>, ghost sent: ChatMsgOfConv, ghost delivered: nat)
      requires Valid()
      modifies this`pendingRequestsCount, this`reconnectSignal, this`userSeq, this`chatSeq, this`groupSeq,
               this`inbox, this`written
      ensures Valid()
      ensures pendingRequestsCount == old(pendingRequestsCount)
      ensures delivered <= |owners|
      ensures Sent(written, inbox, owners[..delivered], r.Fail? && delivered > 0,
                   FanOut(owners, sent, convMsg.msg.msgType != MsgTypeMarkRead, old(written), old(userSeq), old(inbox)))
      ensures r.Pass? ==> delivered == |owners| && userSeq == IssueAll(old(userSeq), owners)
      ensures ReachedEndWithCopy(inbox, owners[..delivered], r.Fail? && delivered > 0,
                                 FanOut(owners, sent, convMsg.msg.msgType != MsgTypeMarkRead, old(written), old(userSeq), old(inbox)))
      ensures r.Fail? && delivered > 0 ==> delivered < |owners|
      ensures convMsg.receiverId.peerIdType == PeerIdTypeUid ==>
        var pair := OrderedPair(convMsg.msg.senderUid, convMsg.receiverId.uid);
        && owners == [convMsg.receiverId.uid, convMsg.msg.senderUid]
        && sent == convMsg.(convMsgId := NextId(old(chatSeq), pair))
        && groupSeq == old(groupSeq)
        && (chatSeq == old(chatSeq) || chatSeq == Issue(old(chatSeq), pair))
        && (r.Pass? || delivered > 0 ==> chatSeq == Issue(old(chatSeq), pair))
      ensures convMsg.receiverId.peerIdType != PeerIdTypeUid ==>
        var groupId := convMsg.receiverId.groupId;
        && owners <= MemberIds(MembersOf(groupId))
        && sent == convMsg.(convMsgId := NextId(old(groupSeq), groupId))
        && chatSeq == old(chatSeq)
        && (groupSeq == old(groupSeq) || groupSeq == Issue(old(groupSeq), groupId))
        && (r.Pass? || delivered > 0 ==> groupSeq == Issue(old(groupSeq), groupId))
      ensures old(Admission()).Fail? ==>
        r == Fail(old(Admission()).error) && delivered == 0 && userSeq == old(userSeq) && inbox == old(inbox)
    {
      if convMsg.receiverId.peerIdType == PeerIdTypeUid {
        r, owners, sent, delivered := ChatSendMsgDirect(convMsg);
      } else {
        r, owners, sent, delivered := ChatSendMsgGroup(convMsg);
      }
    }

    /**
     * ChatSendMsg to a user peer: allocate the pair's convMsgId, then write
     * the receiver's copy, then the sender's.
     */
    method ChatSendMsgDirect(convMsg: ChatMsgOfConv)
      returns (r: Outcome<DbError>, ghost owners: seq<nat>, ghost sent: ChatMsgOfConv, ghost delivered: nat)
      requires convMsg.receiverId.peerIdType == PeerIdTypeUid
      requires Valid()
      modifies this`pendingRequestsCount, this`reconnectSignal, this`userSeq, this`chatSeq, this`groupSeq,
               this`inbox, this`written
      ensures Valid()
      ensures pendingRequestsCount == old(pendingRequestsCount)
      ensures delivered <= |owners|
      ensures Sent(written, inbox, owners[..delivered], r.Fail? && delivered > 0,
                   FanOut(owners, sent, convMsg.msg.msgType != MsgTypeMarkRead, old(written), old(userSeq), old(inbox)))
      ensures r.Pass? ==> delivered == |owners| && userSeq == IssueAll(old(userSeq), owners)
      ensures ReachedEndWithCopy(inbox, owners[..delivered], r.Fail? && delivered > 0,
                                 FanOut(owners, sent, convMsg.msg.msgType != MsgTypeMarkRead, old(written), old(userSeq), old(inbox)))
      ensures r.Fail? && delivered > 0 ==> delivered < |owners|
      ensures
        var pair := OrderedPair(convMsg.msg.senderUid, convMsg.receiverId.uid);
        && owners == [convMsg.receiverId.uid, convMsg.msg.senderUid]
        && sent == convMsg.(convMsgId := NextId(old(chatSeq), pair))
        && groupSeq == old(groupSeq)
        && (chatSeq == old(chatSeq) || chatSeq == Issue(old(chatSeq), pair))
        && (r.Pass? || delivered > 0 ==> chatSeq == Issue(old(chatSeq), pair))
      ensures old(Admission()).Fail? ==>
        r == Fail(old(Admission()).error) && delivered == 0 && userSeq == old(userSeq) && inbox == old(inbox)
    {
      var exact := convMsg.msg.msgType != MsgTypeMarkRead;
      delivered := 0;
      var receiver, sender := convMsg.receiverId.uid, convMsg.msg.senderUid;
      owners := [receiver, sender];
      sent := convMsg.(convMsgId := NextId(chatSeq, OrderedPair(sender, receiver)));
      SentStart(written, inbox, FanOut(owners, sent, exact, written, userSeq, inbox));
      var cid := AllocateChatSeqId(sender, receiver);
      if cid.Err? {
        return Fail(cid.error), owners, sent, delivered;
      }
      // The receiver's copy first, then the sender's; a failure of the first skips the second.
      r, delivered := SendToEach([receiver, sender], convMsg.(convMsgId := cid.value));
      if r.Fail? && delivered == 0 {
        SentNoneFailed(written, inbox, FanOut(owners, sent, exact, old(written), old(userSeq), old(inbox)));
      }
      ReachedOwnersEndWithCopy(written, inbox, owners[..delivered], r.Fail? && delivered > 0,
                               FanOut(owners, sent, exact, old(written), old(userSeq), old(inbox)));
    }

    /**
     * ChatSendMsg to a group peer: read the group's members, allocate the
     * group's convMsgId, then write one copy per member in list order. The
     * member list may be cut short by an unchecked iteration error.
     */
    method ChatSendMsgGroup(convMsg: ChatMsgOfConv)
      returns (r: Outcome<DbError>, ghost owners: seq<nat>, ghost sent: ChatMsgOfConv, ghost delivered: nat)
      requires convMsg.receiverId.peerIdType != PeerIdTypeUid
      requires Valid()
      modifies this`pendingRequestsCount, this`reconnectSignal, this`userSeq, this`chatSeq, this`groupSeq,
               this`inbox, this`written
      ensures Valid()
      ensures pendingRequestsCount == old(pendingRequestsCount)
      ensures delivered <= |owners|
      ensures Sent(written, inbox, owners[..delivered], r.Fail? && delivered > 0,
                   FanOut(owners, sent, convMsg.msg.msgType != MsgTypeMarkRead, old(written), old(userSeq), old(inbox)))
      ensures r.Pass? ==> delivered == |owners| && userSeq == IssueAll(old(userSeq), owners)
      ensures ReachedEndWithCopy(inbox, owners[..delivered], r.Fail? && delivered > 0,
                                 FanOut(owners, sent, convMsg.msg.msgType != MsgTypeMarkRead, old(written), old(userSeq), old(inbox)))
      ensures r.Fail? && delivered > 0 ==> delivered < |owners|
      ensures
        var groupId := convMsg.receiverId.groupId;
        && owners <= MemberIds(MembersOf(groupId))
        && sent == convMsg.(convMsgId := NextId(old(groupSeq), groupId))
        && chatSeq == old(chatSeq)
        && (groupSeq == old(groupSeq) || groupSeq == Issue(old(groupSeq), groupId))
        && (r.Pass? || delivered > 0 ==> groupSeq == Issue(old(groupSeq), groupId))
      ensures old(Admission()).Fail? ==>
        r == Fail(old(Admission()).error) && delivered == 0 && userSeq == old(userSeq) && inbox == old(inbox)
    {
      var exact := convMsg.msg.msgType != MsgTypeMarkRead;
      delivered := 0;
      var groupId := convMsg.receiverId.groupId;
      owners := MemberIds(MembersOf(groupId));
      sent := convMsg.(convMsgId := NextId(groupSeq, groupId));
      SentStart(written, inbox, FanOut(owners, sent, exact, written, userSeq, inbox));
      var memberList, read := GroupGetMemList(groupId);
      if memberList.Err? {
        return Fail(memberList.error), owners, sent, delivered;
      }
      owners := memberList.value;
      SentStart(written, inbox, FanOut(owners, sent, exact, written, userSeq, inbox));
      var cid := AllocateGroupSeqId(groupId);
      if cid.Err? {
        return Fail(cid.error), owners, sent, delivered;
      }
      r, delivered := SendToEach(memberList.value, convMsg.(convMsgId := cid.value));
      if r.Fail? && delivered == 0 {
        SentNoneFailed(written, inbox, FanOut(owners, sent, exact, old(written), old(userSeq), old(inbox)));
      }
      ReachedOwnersEndWithCopy(written, inbox, owners[..delivered], r.Fail? && delivered > 0,
                               FanOut(owners, sent, exact, old(written), old(userSeq), old(inbox)));
    }

    /**
     * Writes a copy of m for each admin in turn through InsertCopy, with no
     * mark-read cleanup. The first failure ends it.
     */
    method InsertForEach(admins: seq<nat>, m: ChatMsgOfConv) returns (r: Outcome<DbError>, ghost delivered: nat)
      requires Valid()
      modifies this`pendingRequestsCount, this`reconnectSignal, this`userSeq, this`inbox, this`written
      ensures Valid()
      ensures pendingRequestsCount == old(pendingRequestsCount)
      ensures delivered <= |admins|
      ensures Sent(written, inbox, admins[..delivered], r.Fail?, FanOut(admins, m, true, old(written), old(userSeq), old(inbox)))
      ensures r.Pass? ==> delivered == |admins| && userSeq == IssueAll(old(userSeq), admins)
      ensures r.Fail? ==> delivered < |admins|
      ensures old(Admission()).Fail? && admins != [] ==>
        r == Fail(old(Admission()).error) && delivered == 0 && userSeq == old(userSeq) && inbox == old(inbox)
    {
      ghost var f := FanOut(admins, m, true, written, userSeq, inbox);
      SentStart(written, inbox, f);
      var i := 0;
      while i < |admins|
        invariant Valid()
        invariant i <= |admins|
        invariant pendingRequestsCount == old(pendingRequestsCount)
        invariant Sent(written, inbox, admins[..i], false, f)
        invariant userSeq == IssueAll(f.u0, admins[..i])
        invariant Admission() == old(Admission())
        invariant old(Admission()).Fail? ==> i == 0 && userSeq == f.u0 && inbox == f.i0
      {
        ghost var t1 := Tables(written, inbox, userSeq);
        r := InsertCopy(admins[i], m);
        SentStep(t1, Tables(written, inbox, userSeq), admins[..i], f, admins[i], r.Pass?);
        if r.Fail? {
          return r, i;
        }
        assert admins[..i] + [admins[i]] == admins[..i + 1];
        i := i + 1;
      }
      assert admins[..i] == admins;
      r, delivered := Pass, i;
    }

    /**
     * Sends a message to a group's owner and administrators only. The peer
     * must be a group; then the admin list is read, possibly cut short by
     * an unchecked iteration error, the group's convMsgId allocated, and
     * the copies written by InsertForEach.
     */
    method ChatSendMsgToAdmins(convMsg: ChatMsgOfConv)
      returns (r: Outcome<DbError>, ghost owners: seq<nat>, ghost sent: ChatMsgOfConv, ghost delivered: nat)
      requires Valid()
      modifies this`pendingRequestsCount, this`reconnectSignal, this`userSeq, this`groupSeq, this`inbox, this`written
      ensures Valid()
      ensures pendingRequestsCount == old(pendingRequestsCount)
      ensures convMsg.receiverId.peerIdType != PeerIdTypeGroupId ==>
        && r == Fail(NotGroupPeer) && reconnectSignal == old(reconnectSignal)
        && written == old(written) && inbox == old(inbox) && userSeq == old(userSeq) && groupSeq == old(groupSeq)
      ensures convMsg.receiverId.peerIdType == PeerIdTypeGroupId ==>
        var groupId := convMsg.receiverId.groupId;
        && owners <= AdminIds(MembersOf(groupId))
        && sent == convMsg.(convMsgId := NextId(old(groupSeq), groupId))
        && (groupSeq == old(groupSeq) || groupSeq == Issue(old(groupSeq), groupId))
        && (r.Pass? || delivered > 0 ==> groupSeq == Issue(old(groupSeq), groupId))
      ensures delivered <= |owners|
      ensures Sent(written, inbox, owners[..delivered], r.Fail? && delivered > 0,
                   FanOut(owners, sent, true, old(written), old(userSeq), old(inbox)))
      ensures r.Pass? ==> delivered == |owners| && userSeq == IssueAll(old(userSeq), owners)
      ensures r.Fail? && delivered > 0 ==> delivered < |owners|
      ensures old(Admission()).Fail? ==> r.Fail? && delivered == 0 && userSeq == old(userSeq) && inbox == old(inbox)
    {
      var groupId := convMsg.receiverId.groupId;
      owners := AdminIds(MembersOf(groupId));
      sent := convMsg.(convMsgId := NextId(groupSeq, groupId));
      delivered := 0;
      if convMsg.receiverId.peerIdType != PeerIdTypeGroupId {
        SentStart(written, inbox, FanOut(owners, sent, true, old(written), old(userSeq), old(inbox)));
        return Fail(NotGroupPeer), owners, sent, delivered;
      }
      var adminList, read := GroupGetAdminList(groupId);
      if adminList.Err? {
        SentStart(written, inbox, FanOut(owners, sent, true, old(written), old(userSeq), old(inbox)));
        return Fail(adminList.error), owners, sent, delivered;
      }
      owners := adminList.value;
      var cid := AllocateGroupSeqId(groupId);
      if cid.Err? {
        SentStart(written, inbox, FanOut(owners, sent, true, old(written), old(userSeq), old(inbox)));
        return Fail(cid.error), owners, sent, delivered;
      }
      r, delivered := InsertForEach(adminList.value, convMsg.(convMsgId := cid.value));
      if r.Fail? && delivered == 0 {
        SentNoneFailed(written, inbox, FanOut(owners, sent, true, old(written), old(userSeq), old(inbox)));
      }
    }

    /**
     * Marks as read, in uid's inbox and then in contactId's, the messages
     * contactId sent to uid with convMsgId at most readMsgId. The second
     * update is not attempted when the first fails.
     */
    method ChatMarkRead(uid: nat, contactId: nat, readMsgId: nat) returns (r: Outcome<DbError>)
      requires Valid()
      modifies this`pendingRequestsCount, this`reconnectSignal, this`inbox
      ensures Valid()
      ensures pendingRequestsCount == old(pendingRequestsCount)
      ensures r.Pass? ==> forall u ::
        RowsOf(inbox, u) == if u == uid || u == contactId
                            then MarkedRead(RowsOf(old(inbox), u), contactId, uid, readMsgId)
                            else RowsOf(old(inbox), u)
      ensures r.Fail? ==>
        || inbox == old(inbox)
        || inbox == old(inbox)[uid := MarkedRead(RowsOf(old(inbox), uid), contactId, uid, readMsgId)]
      ensures old(Admission()).Fail? ==> r == Fail(old(Admission()).error) && inbox == old(inbox)
    {
      var first := Run();
      if first.Fail? {
        return first;
      }
      assert InboxValid(uid, RowsOf(inbox, uid), userSeq);
      MarkedReadPreserves(RowsOf(inbox, uid), contactId, uid, readMsgId, uid, userSeq);
      inbox := inbox[uid := MarkedRead(RowsOf(inbox, uid), contactId, uid, readMsgId)];
      var second := Run();
      if second.Fail? {
        return second;
      }
      assert InboxValid(contactId, RowsOf(inbox, contactId), userSeq);
      MarkedReadPreserves(RowsOf(inbox, contactId), contactId, uid, readMsgId, contactId, userSeq);
      MarkedReadIdempotent(RowsOf(old(inbox), uid), contactId, uid, readMsgId);
      inbox := inbox[contactId := MarkedRead(RowsOf(inbox, contactId), contactId, uid, readMsgId)];
      r := Pass;
    }

    /**
     * Reads uid's inbox rows above the cursor seqId, in ascending seqId
     * order, decoded. Under Valid every stored row decodes, so the only
     * failures are the wrapper's and the query's; an unchecked iteration
     * error returns the first read of those rows as a success.
     */
    method ChatGetMsgList(uid: nat, seqId: nat) returns (r: Result<seq<ChatMsgOfConv>, DbError>, ghost read: nat)
      requires Valid()
      modifies this`pendingRequestsCount, this`reconnectSignal
      ensures pendingRequestsCount == old(pendingRequestsCount)
      ensures read <= |Since(RowsOf(inbox, uid), seqId)|
      ensures r.Ok? ==>
        var rows := Since(RowsOf(inbox, uid), seqId);
        && |r.value| == read
        && forall i | 0 <= i < read :: ConvertDbMsgToChatMsgOfConv(rows[i]) == Ok(r.value[i])
      ensures r.Ok? ==> forall i | 0 <= i < |r.value| :: r.value[i].seqId > seqId
      ensures r.Ok? ==> forall i, j | 0 <= i < j < |r.value| :: r.value[i].seqId < r.value[j].seqId
      ensures r.Ok? && read == |Since(RowsOf(inbox, uid), seqId)| ==>
        forall row | row in RowsOf(inbox, uid) && row.seqId > seqId ::
          ConvertDbMsgToChatMsgOfConv(row).Ok? && ConvertDbMsgToChatMsgOfConv(row).value in r.value
      ensures r.Err? ==> r.error == ActionFailed || (old(Admission()).Fail? && r.error == old(Admission()).error)
    {
      read := 0;
      var q := Run();
      if q.Fail? {
        return Err(q.error), read;
      }
      var all := RowsOf(inbox, uid);
      assert InboxValid(uid, all, userSeq);
      SinceSpec(all, seqId, uid, userSeq);
      var rows := Since(all, seqId);
      r, read := ConvertRows(rows);
      if r.Ok? && read == |rows| {
        DecodedCovers(all, seqId, r.value);
      }
    }

    /**
     * Updates the user's non-empty fields among nickname, email, avatar and
     * password. With none non-empty no statement runs and nothing changes.
     */
    method UserUpdateInfo(uid: nat, nickname: string, email: string, avatar: string, password: string)
      returns (r: Outcome<DbError>)
      modifies this`pendingRequestsCount, this`reconnectSignal, this`users
      ensures pendingRequestsCount == old(pendingRequestsCount)
      ensures nickname == email == avatar == password == "" ==>
        r == Pass && users == old(users) && reconnectSignal == old(reconnectSignal)
      ensures r.Pass? ==>
        users == if uid in old(users) then old(users)[uid := UpdatedUser(old(users)[uid], nickname, email, avatar, password)]
                 else old(users)
      ensures r.Fail? ==> users == old(users)
      ensures old(Admission()).Fail? && !(nickname == email == avatar == password == "") ==>
        r == Fail(old(Admission()).error)
    {
      var fields, args := UserUpdateFields(nickname, email, avatar, password);
      UserCandidatesEmpty(nickname, email, avatar, password);
      if |fields| == 0 {
        return Pass;
      }
      // UPDATE tb_users SET <fields> WHERE user_id = uid
      r := Run();
      if r.Fail? {
        return;
      }
      if uid in users {
        UserUpdateApplies(users[uid], nickname, email, avatar, password);
        users := users[uid := ApplyToUser(users[uid], NonEmptyAssignments(UserCandidates(nickname, email, avatar, password)))];
      }
    }

    /** Updates the group's non-empty fields among name and avatar. */
    method GroupUpdateInfo(groupId: nat, groupName: string, avatar: string) returns (r: Outcome<DbError>)
      modifies this`pendingRequestsCount, this`reconnectSignal, this`groups
      ensures pendingRequestsCount == old(pendingRequestsCount)
      ensures groupName == avatar == "" ==>
        r == Pass && groups == old(groups) && reconnectSignal == old(reconnectSignal)
      ensures r.Pass? ==>
        groups == if groupId in old(groups) then old(groups)[groupId := UpdatedGroup(old(groups)[groupId], groupName, avatar)]
                  else old(groups)
      ensures r.Fail? ==> groups == old(groups)
      ensures old(Admission()).Fail? && !(groupName == avatar == "") ==> r == Fail(old(Admission()).error)
    {
      var fields, args := GroupUpdateFields(groupName, avatar);
      GroupCandidatesEmpty(groupName, avatar);
      if |fields| == 0 {
        return Pass;
      }
      // UPDATE tb_groups SET <fields> WHERE group_id = groupId
      r := Run();
      if r.Fail? {
        return;
      }
      if groupId in groups {
        GroupUpdateApplies(groups[groupId], groupName, avatar);
        groups := groups[groupId := ApplyToGroup(groups[groupId], NonEmptyAssignments(GroupCandidates(groupName, avatar)))];
      }
    }
  }

  /**
   * A direct send that passes leaves the receiver's and the sender's
   * inboxes each ending with a copy of the message, a mark-read message
   * included, and the same user on both sides included.
   */
  method DirectSendLands(db: Db, convMsg: ChatMsgOfConv) returns (r: Outcome<DbError>, ghost sent: ChatMsgOfConv)
    requires db.Valid() && convMsg.receiverId.peerIdType == PeerIdTypeUid
    modifies db
    ensures r.Pass? ==>
      && EndsWithCopy(db.inbox, convMsg.receiverId.uid, sent)
      && EndsWithCopy(db.inbox, convMsg.msg.senderUid, sent)
  {
    ghost var owners, delivered;
    r, owners, sent, delivered := db.ChatSendMsg(convMsg);
    if r.Pass? {
      assert owners[..delivered] == owners;
    }
  }
}

/** The server's conversations controller over an in-memory store of
    conversation requests, conversations, participant rows and messages:
    the request lifecycle, accept and deny, the find-or-create rule of
    `newConversation`, the listing with its `isRead` projection, and
    marking a conversation read. */
module ConversationServer {
  import opened Wrappers

  datatype Status = Pending | Accepted | Denied

  datatype Request = Request(id: int, senderId: int, recipientId: int, status: Status)

  datatype ConversationRecord = ConversationRecord(id: int, title: Option<string>)

  /** A participant row: the user's membership and read flag. */
  datatype Member = Member(conversationId: int, userId: int, isRead: bool)

  /** A stored message, with its creation time as a timestamp. */
  datatype StoredMessage = StoredMessage(id: int, conversationId: int, message: string, createdAt: int)

  /** The body of `newConversation`'s answer: participants as user ids. */
  datatype ConversationView = ConversationView(id: int, title: Option<string>, participants: seq<int>)

  /** One entry of `getAllConversations`' answer. */
  datatype ConversationListing = ConversationListing(
    id: int,
    title: Option<string>,
    lastMessageSent: StoredMessage,
    participants: seq<int>,
    isRead: bool)

  /** The read flag a new participant row starts with. */
  const NewRowIsRead := false

  // ---------------------------------------------------------------------
  // Requests
  // ---------------------------------------------------------------------

  /** The requests the user sent or received, in store order. */
  function RequestsFor(requests: seq<Request>, userId: int): (r: seq<Request>)
    ensures |r| <= |requests|
    ensures forall q :: q in r <==> q in requests && (q.senderId == userId || q.recipientId == userId)
  {
    if requests == [] then []
    else
      var rest := RequestsFor(requests[1..], userId);
      if requests[0].senderId == userId || requests[0].recipientId == userId then [requests[0]] + rest else rest
  }

  /** The index of the request with the id, or -1. */
  function FindRequest(requests: seq<Request>, id: int): (i: int)
    ensures -1 <= i < |requests|
    ensures i >= 0 ==> requests[i].id == id
    ensures i == -1 <==> forall j :: 0 <= j < |requests| ==> requests[j].id != id
  {
    if requests == [] then -1
    else if requests[0].id == id then 0
    else
      var k := FindRequest(requests[1..], id);
      if k == -1 then -1 else k + 1
  }

  // ---------------------------------------------------------------------
  // Participant rows
  // ---------------------------------------------------------------------

  /** The rows of one conversation, in store order. */
  function MembersOf(members: seq<Member>, conversationId: int): (r: seq<Member>)
    ensures |r| <= |members|
    ensures forall m :: m in r <==> m in members && m.conversationId == conversationId
  {
    if members == [] then []
    else
      var rest := MembersOf(members[1..], conversationId);
      if members[0].conversationId == conversationId then [members[0]] + rest else rest
  }

  lemma {:induction false} MembersOfAppend(a: seq<Member>, b: seq<Member>, conversationId: int)
    ensures MembersOf(a + b, conversationId) == MembersOf(a, conversationId) + MembersOf(b, conversationId)
  {
    if a == [] {
      assert a + b == b;
    } else {
      assert (a + b)[0] == a[0];
      assert (a + b)[1..] == a[1..] + b;
      MembersOfAppend(a[1..], b, conversationId);
    }
  }

  /** Rows that all belong to the conversation are all kept. */
  lemma {:induction false} MembersOfAll(rows: seq<Member>, conversationId: int)
    requires forall k :: 0 <= k < |rows| ==> rows[k].conversationId == conversationId
    ensures MembersOf(rows, conversationId) == rows
  {
    if rows != [] {
      MembersOfAll(rows[1..], conversationId);
      assert rows == [rows[0]] + rows[1..];
    }
  }

  /** Rows none of which belongs to the conversation are all dropped. */
  lemma {:induction false} MembersOfNone(rows: seq<Member>, conversationId: int)
    requires forall k :: 0 <= k < |rows| ==> rows[k].conversationId != conversationId
    ensures MembersOf(rows, conversationId) == []
  {
    if rows != [] {
      MembersOfNone(rows[1..], conversationId);
    }
  }

  function UserIds(rows: seq<Member>): seq<int> {
    seq(|rows|, k requires 0 <= k < |rows| => rows[k].userId)
  }

  predicate IsMember(rows: seq<Member>, userId: int) {
    exists k :: 0 <= k < |rows| && rows[k].userId == userId
  }

  /** New rows of a conversation for the given user ids, unread. */
  function NewRows(conversationId: int, userIds: seq<int>): seq<Member> {
    seq(|userIds|, k requires 0 <= k < |userIds| => Member(conversationId, userIds[k], NewRowIsRead))
  }

  // ---------------------------------------------------------------------
  // Find-or-create
  // ---------------------------------------------------------------------

  /** The creator followed by the requested ids. */
  function ParticipantList(creatorId: int, participantIds: seq<int>): seq<int> {
    [creatorId] + participantIds
  }

  predicate IsSelfConversation(creatorId: int, participantIds: seq<int>) {
    |participantIds| == 1 && participantIds[0] == creatorId
  }

  /** The rows of a new conversation: the creator alone for a
      self-conversation, otherwise the whole participant list. */
  function NewMemberIds(creatorId: int, participantIds: seq<int>): (r: seq<int>)
    ensures |r| > 0 && r[0] == creatorId
    ensures forall u :: u in participantIds ==> u in r
    ensures IsSelfConversation(creatorId, participantIds) ==> r == [creatorId]
    ensures !IsSelfConversation(creatorId, participantIds) ==> |r| == |participantIds| + 1
    ensures !IsSelfConversation(creatorId, participantIds) ==> r == [creatorId] + participantIds
  {
    if IsSelfConversation(creatorId, participantIds) then [creatorId]
    else ParticipantList(creatorId, participantIds)
  }

  /** The lookup query: for a self-conversation, every participant row's
      user is in the list; otherwise every listed user has a row. */
  predicate QueryMatches(userIds: seq<int>, participants: seq<int>, self: bool) {
    if self then forall u :: u in userIds ==> u in participants
    else forall p :: p in participants ==> p in userIds
  }

  /** What the two queries mean: a self lookup finds the conversations
      whose every participant is the creator (one without rows included);
      any other lookup finds those that have the creator and every
      requested user among their participants, whoever else they have. */
  lemma QueryMeaning(userIds: seq<int>, creatorId: int, participantIds: seq<int>)
    ensures IsSelfConversation(creatorId, participantIds) ==>
      (QueryMatches(userIds, ParticipantList(creatorId, participantIds), true) <==> forall u :: u in userIds ==> u == creatorId)
    ensures QueryMatches(userIds, ParticipantList(creatorId, participantIds), false)
      <==> creatorId in userIds && forall p :: p in participantIds ==> p in userIds
  {
    var ps := ParticipantList(creatorId, participantIds);
    assert forall p :: p in ps <==> p == creatorId || p in participantIds;
  }

  /** The rows a new conversation gets answer the query that created it. */
  lemma NewRowsMatch(conversationId: int, creatorId: int, participantIds: seq<int>)
    ensures var self := IsSelfConversation(creatorId, participantIds);
      QueryMatches(UserIds(NewRows(conversationId, NewMemberIds(creatorId, participantIds))),
                   ParticipantList(creatorId, participantIds), self)
  {
    var ids := NewMemberIds(creatorId, participantIds);
    var us := UserIds(NewRows(conversationId, ids));
    assert us == ids;
    var ps := ParticipantList(creatorId, participantIds);
    if IsSelfConversation(creatorId, participantIds) {
      assert ps[0] == creatorId;
    } else {
      assert ids == ps;
    }
  }

  predicate Matches(c: ConversationRecord, members: seq<Member>, participants: seq<int>, self: bool) {
    QueryMatches(UserIds(MembersOf(members, c.id)), participants, self)
  }

  /** The index of the first true flag, or -1. */
  function FirstTrue(flags: seq<bool>): (i: int)
    ensures -1 <= i < |flags|
    ensures i >= 0 ==> flags[i]
    ensures i >= 0 ==> forall j :: 0 <= j < i ==> !flags[j]
    ensures i == -1 <==> forall j :: 0 <= j < |flags| ==> !flags[j]
  {
    if flags == [] then -1
    else if flags[0] then 0
    else
      var k := FirstTrue(flags[1..]);
      if k == -1 then -1 else k + 1
  }

  /** Whether each stored conversation answers the query. */
  function MatchFlags(convs: seq<ConversationRecord>, members: seq<Member>, participants: seq<int>, self: bool): (r: seq<bool>)
    ensures |r| == |convs|
    ensures forall j :: 0 <= j < |convs| ==> r[j] == Matches(convs[j], members, participants, self)
  {
    seq(|convs|, j requires 0 <= j < |convs| => Matches(convs[j], members, participants, self))
  }

  /** The index of the first conversation the query finds, or -1. */
  function FirstMatch(convs: seq<ConversationRecord>, members: seq<Member>, participants: seq<int>, self: bool): (i: int)
    ensures -1 <= i < |convs|
    ensures i >= 0 ==> Matches(convs[i], members, participants, self)
    ensures i >= 0 ==> forall j :: 0 <= j < i ==> !Matches(convs[j], members, participants, self)
    ensures i == -1 <==> forall j :: 0 <= j < |convs| ==> !Matches(convs[j], members, participants, self)
  {
    FirstTrue(MatchFlags(convs, members, participants, self))
  }

  /** A conversation appended after a list none of which matched, whose
      rows are the only change to those of the others, is the first match
      once it matches. */
  lemma FirstMatchAppended(convs: seq<ConversationRecord>, c: ConversationRecord, m1: seq<Member>, m2: seq<Member>, participants: seq<int>, self: bool)
    requires FirstMatch(convs, m1, participants, self) == -1
    requires forall j :: 0 <= j < |convs| ==> MembersOf(m2, convs[j].id) == MembersOf(m1, convs[j].id)
    requires Matches(c, m2, participants, self)
    ensures FirstMatch(convs + [c], m2, participants, self) == |convs|
  {
    var all := convs + [c];
    forall j | 0 <= j < |convs|
      ensures !Matches(all[j], m2, participants, self)
    {
      assert all[j] == convs[j];
      assert !Matches(convs[j], m1, participants, self);
    }
    assert all[|convs|] == c;
  }

  /** Rows added under an id no row has yet are that conversation's rows,
      in order, and leave every other conversation's rows as they were. */
  lemma FreshRows(members: seq<Member>, nextId: int, userIds: seq<int>)
    requires forall k :: 0 <= k < |members| ==> members[k].conversationId < nextId
    ensures MembersOf(members + NewRows(nextId, userIds), nextId) == NewRows(nextId, userIds)
    ensures UserIds(NewRows(nextId, userIds)) == userIds
    ensures forall x :: x != nextId ==> MembersOf(members + NewRows(nextId, userIds), x) == MembersOf(members, x)
  {
    var rows := NewRows(nextId, userIds);
    MembersOfNone(members, nextId);
    MembersOfAll(rows, nextId);
    MembersOfAppend(members, rows, nextId);
    forall x | x != nextId
      ensures MembersOf(members + rows, x) == MembersOf(members, x)
    {
      FreshRowsElsewhere(members, rows, x);
    }
  }

  /** Rows of one conversation added to the table leave another
      conversation's rows as they were. */
  lemma FreshRowsElsewhere(members: seq<Member>, rows: seq<Member>, x: int)
    requires forall k :: 0 <= k < |rows| ==> rows[k].conversationId != x
    ensures MembersOf(members + rows, x) == MembersOf(members, x)
  {
    MembersOfAppend(members, rows, x);
    MembersOfNone(rows, x);
    assert MembersOf(members, x) + [] == MembersOf(members, x);
  }

  /** A conversation created under a fresh id after a lookup that found
      nothing has the new member list as its rows, and the same lookup now
      finds it first. */
  lemma CreatedIsFoundFirst(convs: seq<ConversationRecord>, members: seq<Member>, nextId: int, creatorId: int, participantIds: seq<int>)
    requires forall j :: 0 <= j < |convs| ==> convs[j].id < nextId
    requires forall k :: 0 <= k < |members| ==> members[k].conversationId < nextId
    requires FirstMatch(convs, members, ParticipantList(creatorId, participantIds), IsSelfConversation(creatorId, participantIds)) == -1
    ensures var rows := NewRows(nextId, NewMemberIds(creatorId, participantIds));
      && UserIds(MembersOf(members + rows, nextId)) == NewMemberIds(creatorId, participantIds)
      && FirstMatch(convs + [ConversationRecord(nextId, None)], members + rows,
                    ParticipantList(creatorId, participantIds), IsSelfConversation(creatorId, participantIds)) == |convs|
  {
    var ids := NewMemberIds(creatorId, participantIds);
    var rows := NewRows(nextId, ids);
    FreshRows(members, nextId, ids);
    NewRowsMatch(nextId, creatorId, participantIds);
    FirstMatchAppended(convs, ConversationRecord(nextId, None), members, members + rows,
                       ParticipantList(creatorId, participantIds), IsSelfConversation(creatorId, participantIds));
  }

  function ViewOf(c: ConversationRecord, members: seq<Member>): ConversationView {
    ConversationView(c.id, c.title, UserIds(MembersOf(members, c.id)))
  }

  // ---------------------------------------------------------------------
  // Listing
  // ---------------------------------------------------------------------

  /** The conversation's newest message; among equally new ones, the first
      stored. */
  function LatestMessage(messages: seq<StoredMessage>, conversationId: int): (r: Option<StoredMessage>)
    ensures r.Some? <==> exists m :: m in messages && m.conversationId == conversationId
    ensures r.Some? ==> r.value in messages && r.value.conversationId == conversationId
    ensures r.Some? ==> forall m :: m in messages && m.conversationId == conversationId ==> m.createdAt <= r.value.createdAt
  {
    if messages == [] then None
    else
      var rest := LatestMessage(messages[1..], conversationId);
      if messages[0].conversationId != conversationId then rest
      else if rest.None? || rest.value.createdAt <= messages[0].createdAt then Some(messages[0])
      else rest
  }

  /** The `isRead` the listing reports: the first row's flag if that row is
      the user's, otherwise the second row's. The requires is what keeps
      `participants[1]` defined. */
  function ReportedIsRead(rows: seq<Member>, userId: int): bool
    requires |rows| > 0 && (rows[0].userId == userId || |rows| > 1)
  {
    if rows[0].userId == userId then rows[0].isRead else rows[1].isRead
  }

  /** For a member of the conversation the projection never reads past the
      rows. */
  lemma MemberProjectionDefined(rows: seq<Member>, userId: int)
    requires IsMember(rows, userId)
    ensures |rows| > 0 && (rows[0].userId == userId || |rows| > 1)
  {
  }

  /** With at most two rows, as accept and one-to-one creation make, the
      reported flag is that of the user's own first row; otherwise, for a
      user who is not first, it is the second row's, whoever that is. */
  lemma ReportedIsReadSpec(rows: seq<Member>, userId: int)
    requires IsMember(rows, userId)
    ensures |rows| > 0 && (rows[0].userId == userId || |rows| > 1)
    ensures |rows| <= 2 ==>
      forall i :: (0 <= i < |rows| && rows[i].userId == userId && (forall j :: 0 <= j < i ==> rows[j].userId != userId))
        ==> ReportedIsRead(rows, userId) == rows[i].isRead
    ensures rows[0].userId != userId ==> ReportedIsRead(rows, userId) == rows[1].isRead
  {
    MemberProjectionDefined(rows, userId);
  }

  /** Whether a conversation is in the user's listing: the user has a row
      and the conversation has a message. */
  predicate Listed(c: ConversationRecord, members: seq<Member>, messages: seq<StoredMessage>, userId: int) {
    IsMember(MembersOf(members, c.id), userId) && LatestMessage(messages, c.id).Some?
  }

  function ListingOf(c: ConversationRecord, members: seq<Member>, messages: seq<StoredMessage>, userId: int): ConversationListing
    requires Listed(c, members, messages, userId)
  {
    var rows := MembersOf(members, c.id);
    MemberProjectionDefined(rows, userId);
    ConversationListing(c.id, c.title, LatestMessage(messages, c.id).value, UserIds(rows), ReportedIsRead(rows, userId))
  }

  /** The answer of `getAllConversations`, in store order. */
  function Listing(convs: seq<ConversationRecord>, members: seq<Member>, messages: seq<StoredMessage>, userId: int): seq<ConversationListing> {
    if convs == [] then []
    else
      var rest := Listing(convs[1..], members, messages, userId);
      if Listed(convs[0], members, messages, userId) then [ListingOf(convs[0], members, messages, userId)] + rest else rest
  }

  /** An entry is in the listing exactly when it is the projection of a
      stored conversation in which the user has a row and which has a
      message; each entry's last message is the conversation's newest. */
  lemma {:induction false} ListingSpec(convs: seq<ConversationRecord>, members: seq<Member>, messages: seq<StoredMessage>, userId: int)
    ensures forall l :: l in Listing(convs, members, messages, userId) <==>
      exists c :: c in convs && Listed(c, members, messages, userId) && l == ListingOf(c, members, messages, userId)
    ensures forall l :: l in Listing(convs, members, messages, userId) ==>
      userId in l.participants && l.lastMessageSent.conversationId == l.id
      && forall m :: m in messages && m.conversationId == l.id ==> m.createdAt <= l.lastMessageSent.createdAt
  {
    if convs != [] {
      ListingSpec(convs[1..], members, messages, userId);
      forall c | c in convs
        ensures c == convs[0] || c in convs[1..]
      {
      }
      forall c | c in convs && Listed(c, members, messages, userId)
        ensures userId in ListingOf(c, members, messages, userId).participants
      {
        var rows := MembersOf(members, c.id);
        var k :| 0 <= k < |rows| && rows[k].userId == userId;
        assert UserIds(rows)[k] == userId;
      }
    }
  }

  // ---------------------------------------------------------------------
  // Reading
  // ---------------------------------------------------------------------

  /** One row under `updateMany`: read if it is the conversation's and the
      user's. */
  function MarkRow(m: Member, conversationId: int, userId: int): Member {
    if m.conversationId == conversationId && m.userId == userId then m.(isRead := true) else m
  }

  /** `updateMany`: the rows of the conversation and the user become read. */
  function MarkMembersRead(members: seq<Member>, conversationId: int, userId: int): seq<Member> {
    seq(|members|, k requires 0 <= k < |members| => MarkRow(members[k], conversationId, userId))
  }

  lemma MarkMembersReadSplit(members: seq<Member>, conversationId: int, userId: int)
    requires members != []
    ensures MarkMembersRead(members, conversationId, userId)
         == [MarkRow(members[0], conversationId, userId)] + MarkMembersRead(members[1..], conversationId, userId)
  {
  }

  /** Marking read turns the conversation's rows into those rows marked,
      and keeps each row's conversation and user. */
  lemma {:induction false} MembersOfMarked(members: seq<Member>, conversationId: int, userId: int)
    ensures MembersOf(MarkMembersRead(members, conversationId, userId), conversationId)
         == MarkMembersRead(MembersOf(members, conversationId), conversationId, userId)
  {
    if members != [] {
      var head := MarkRow(members[0], conversationId, userId);
      var tail := MarkMembersRead(members[1..], conversationId, userId);
      MarkMembersReadSplit(members, conversationId, userId);
      assert ([head] + tail)[0] == head && ([head] + tail)[1..] == tail;
      MembersOfMarked(members[1..], conversationId, userId);
      var rest := MembersOf(members[1..], conversationId);
      if members[0].conversationId == conversationId {
        assert MembersOf(members, conversationId) == [members[0]] + rest;
        MarkMembersReadSplit([members[0]] + rest, conversationId, userId);
        assert ([members[0]] + rest)[1..] == rest;
      }
    }
  }

  /** The rows of every other conversation are untouched. */
  lemma {:induction false} MembersOfMarkedOther(members: seq<Member>, conversationId: int, userId: int, other: int)
    requires other != conversationId
    ensures MembersOf(MarkMembersRead(members, conversationId, userId), other) == MembersOf(members, other)
  {
    if members != [] {
      var head := MarkRow(members[0], conversationId, userId);
      var tail := MarkMembersRead(members[1..], conversationId, userId);
      MarkMembersReadSplit(members, conversationId, userId);
      assert ([head] + tail)[0] == head && ([head] + tail)[1..] == tail;
      MembersOfMarkedOther(members[1..], conversationId, userId, other);
    }
  }

  /** After a member among the first two rows reads a conversation, the
      listing reports it read to them. */
  lemma ReadIsReported(members: seq<Member>, conversationId: int, userId: int)
    requires var rows := MembersOf(members, conversationId);
      |rows| > 0 && (rows[0].userId == userId || (|rows| > 1 && rows[1].userId == userId))
    ensures var after := MembersOf(MarkMembersRead(members, conversationId, userId), conversationId);
      |after| > 0 && (after[0].userId == userId || |after| > 1) && ReportedIsRead(after, userId)
  {
    MembersOfMarked(members, conversationId, userId);
    var rows := MembersOf(members, conversationId);
    assert rows[0] in rows;
    if |rows| > 1 {
      assert rows[1] in rows;
    }
  }

  /** In a group, a third member who reads the conversation is still
      reported the second member's flag: here unread. */
  lemma GroupReadQuirk()
    ensures var members := [Member(1, 10, false), Member(1, 20, false), Member(1, 30, false)];
      var after := MembersOf(MarkMembersRead(members, 1, 30), 1);
      && after == [Member(1, 10, false), Member(1, 20, false), Member(1, 30, true)]
      && !ReportedIsRead(after, 30)
  {
    var members := [Member(1, 10, false), Member(1, 20, false), Member(1, 30, false)];
    var marked := MarkMembersRead(members, 1, 30);
    assert marked == [Member(1, 10, false), Member(1, 20, false), Member(1, 30, true)];
    MembersOfAll(marked, 1);
  }

  // ---------------------------------------------------------------------
  // The store
  // ---------------------------------------------------------------------

  /** Conversation ids are unique and below the next one handed out, and
      every row belongs to an id already handed out. */
  predicate ConversationsValid(convs: seq<ConversationRecord>, members: seq<Member>, nextId: int) {
    && (forall i :: 0 <= i < |convs| ==> convs[i].id < nextId)
    && (forall i, j :: 0 <= i < j < |convs| ==> convs[i].id != convs[j].id)
    && (forall i :: 0 <= i < |members| ==> members[i].conversationId < nextId)
  }

  /** Creating a conversation under the next id, with its rows, keeps the
      conversation invariant. */
  lemma CreateKeepsValid(convs: seq<ConversationRecord>, members: seq<Member>, nextId: int, userIds: seq<int>)
    requires ConversationsValid(convs, members, nextId)
    ensures ConversationsValid(convs + [ConversationRecord(nextId, None)], members + NewRows(nextId, userIds), nextId + 1)
  {
  }

  class ConversationStore {
    var requests: seq<Request>
    var conversations: seq<ConversationRecord>
    var members: seq<Member>
    /** The message table, written by the messages controller. */
    var messages: seq<StoredMessage>
    var nextRequestId: int
    var nextConversationId: int

    /** Ids are unique and below the next ones handed out; every row
        belongs to an id already handed out. */
    predicate Valid()
      reads this
    {
      && (forall i :: 0 <= i < |requests| ==> requests[i].id < nextRequestId)
      && (forall i, j :: 0 <= i < j < |requests| ==> requests[i].id != requests[j].id)
      && ConversationsValid(conversations, members, nextConversationId)
    }

    constructor (messageTable: seq<StoredMessage>)
      ensures Valid()
      ensures requests == [] && conversations == [] && members == [] && messages == messageTable
    {
      requests := [];
      conversations := [];
      members := [];
      messages := messageTable;
      nextRequestId := 1;
      nextConversationId := 1;
    }

    /** `conversation.create` with nested participant rows: a conversation
        under the next id, untitled, whose rows are the given users'. */
    method CreateConversation(userIds: seq<int>) returns (c: ConversationRecord)
      requires Valid()
      modifies this
      ensures Valid()
      ensures c == ConversationRecord(old(nextConversationId), None)
      ensures conversations == old(conversations) + [c] && members == old(members) + NewRows(c.id, userIds)
      ensures nextConversationId == old(nextConversationId) + 1
      ensures requests == old(requests) && messages == old(messages) && nextRequestId == old(nextRequestId)
    {
      c := ConversationRecord(nextConversationId, None);
      CreateKeepsValid(conversations, members, c.id, userIds);
      conversations := conversations + [c];
      members := members + NewRows(c.id, userIds);
      nextConversationId := nextConversationId + 1;
    }

    /** `sendConversationRequest`: a pending request from the
        authenticated user. */
    method SendRequest(senderId: int, recipientId: int) returns (status: int, created: Request)
      requires Valid()
      modifies this
      ensures Valid()
      ensures status == 201
      ensures created == Request(old(nextRequestId), senderId, recipientId, Pending)
      ensures requests == old(requests) + [created] && nextRequestId == old(nextRequestId) + 1
      ensures conversations == old(conversations) && members == old(members) && messages == old(messages)
      ensures nextConversationId == old(nextConversationId)
    {
      created := Request(nextRequestId, senderId, recipientId, Pending);
      requests := requests + [created];
      nextRequestId := nextRequestId + 1;
      status := 201;
    }

    /** `acceptConversationRequest`: whatever its status, the request
        becomes accepted and a conversation is created whose rows are the
        sender's and the recipient's. */
    method AcceptRequest(requestId: int) returns (status: int, conversation: Option<ConversationRecord>)
      requires Valid()
      modifies this
      ensures Valid()
      ensures messages == old(messages) && nextRequestId == old(nextRequestId)
      ensures var i := FindRequest(old(requests), requestId);
        if i == -1 then
          status == 404 && conversation == None
          && requests == old(requests) && conversations == old(conversations) && members == old(members)
          && nextConversationId == old(nextConversationId)
        else
          var q := old(requests)[i];
          var c := ConversationRecord(old(nextConversationId), None);
          && status == 200 && conversation == Some(c)
          && requests == old(requests)[i := q.(status := Accepted)]
          && conversations == old(conversations) + [c]
          && members == old(members) + NewRows(c.id, [q.senderId, q.recipientId])
          && UserIds(MembersOf(members, c.id)) == [q.senderId, q.recipientId]
          && nextConversationId == old(nextConversationId) + 1
    {
      var i := FindRequest(requests, requestId);
      if i == -1 {
        return 404, None;
      }
      var q := requests[i];
      requests := requests[i := q.(status := Accepted)];
      FreshRows(members, nextConversationId, [q.senderId, q.recipientId]);
      var c := CreateConversation([q.senderId, q.recipientId]);
      status, conversation := 200, Some(c);
    }

    /** `denyConversationRequest`: whatever its status, the request becomes
        denied; nothing is created. */
    method DenyRequest(requestId: int) returns (status: int)
      requires Valid()
      modifies this
      ensures Valid()
      ensures conversations == old(conversations) && members == old(members) && messages == old(messages)
      ensures nextRequestId == old(nextRequestId) && nextConversationId == old(nextConversationId)
      ensures var i := FindRequest(old(requests), requestId);
        if i == -1 then status == 404 && requests == old(requests)
        else status == 200 && requests == old(requests)[i := old(requests)[i].(status := Denied)]
    {
      var i := FindRequest(requests, requestId);
      if i == -1 {
        return 404;
      }
      requests := requests[i := requests[i].(status := Denied)];
      status := 200;
    }

    /** `getConversationRequests`. */
    method GetConversationRequests(userId: int) returns (status: int, list: seq<Request>)
      ensures status == 200
      ensures forall q :: q in list <==> q in requests && (q.senderId == userId || q.recipientId == userId)
      ensures list == RequestsFor(requests, userId)
    {
      return 200, RequestsFor(requests, userId);
    }

    /** `newConversation`: an empty participant list is refused; otherwise
        the first conversation the lookup finds is answered with 200 and
        nothing is created, and failing that a conversation is created with
        the creator alone (self-conversation) or the whole participant
        list, after which the same lookup finds it first. */
    method NewConversation(creatorId: int, participantIds: seq<int>) returns (status: int, response: Option<ConversationView>)
      requires Valid()
      modifies this
      ensures Valid()
      ensures requests == old(requests) && messages == old(messages) && nextRequestId == old(nextRequestId)
      ensures participantIds == [] ==>
        status == 400 && response == None
        && conversations == old(conversations) && members == old(members) && nextConversationId == old(nextConversationId)
      ensures participantIds != [] ==>
        var ps := ParticipantList(creatorId, participantIds);
        var self := IsSelfConversation(creatorId, participantIds);
        var i := FirstMatch(old(conversations), old(members), ps, self);
        if i >= 0 then
          && status == 200 && response == Some(ViewOf(old(conversations)[i], old(members)))
          && conversations == old(conversations) && members == old(members) && nextConversationId == old(nextConversationId)
        else
          var c := ConversationRecord(old(nextConversationId), None);
          && status == 201
          && conversations == old(conversations) + [c]
          && members == old(members) + NewRows(c.id, NewMemberIds(creatorId, participantIds))
          && nextConversationId == old(nextConversationId) + 1
          && response == Some(ConversationView(c.id, None, NewMemberIds(creatorId, participantIds)))
          && FirstMatch(conversations, members, ps, self) == |old(conversations)|
    {
      if participantIds == [] {
        return 400, None;
      }
      var ps := ParticipantList(creatorId, participantIds);
      var self := IsSelfConversation(creatorId, participantIds);
      var i := FirstMatch(conversations, members, ps, self);
      if i >= 0 {
        return 200, Some(ViewOf(conversations[i], members));
      }
      var ids := NewMemberIds(creatorId, participantIds);
      CreatedIsFoundFirst(conversations, members, nextConversationId, creatorId, participantIds);
      var c := CreateConversation(ids);
      status, response := 201, Some(ConversationView(c.id, None, ids));
    }

    /** `getAllConversations`. */
    method GetAllConversations(userId: int) returns (status: int, list: seq<ConversationListing>)
      ensures status == 200
      ensures forall l :: l in list <==>
        exists c :: c in conversations && Listed(c, members, messages, userId) && l == ListingOf(c, members, messages, userId)
      ensures list == Listing(conversations, members, messages, userId)
    {
      ListingSpec(conversations, members, messages, userId);
      return 200, Listing(conversations, members, messages, userId);
    }

    /** `readConversation`: the user's rows of the conversation become
        read, even when there are none. */
    method ReadConversation(conversationId: int, userId: int) returns (status: int)
      requires Valid()
      modifies this
      ensures Valid()
      ensures status == 200
      ensures members == MarkMembersRead(old(members), conversationId, userId)
      ensures requests == old(requests) && conversations == old(conversations) && messages == old(messages)
      ensures nextRequestId == old(nextRequestId) && nextConversationId == old(nextConversationId)
    {
      members := MarkMembersRead(members, conversationId, userId);
      status := 200;
    }
  }
}

/** The client's shared query cache and the records it holds: the
    conversation list under ["conversations"], the pages of messages under
    ["messages", conversationId], and the set of keys marked stale by
    `invalidateQueries`. */
module ClientCache {
  import opened Wrappers

  datatype User = User(id: int, displayName: string)

  datatype Message = Message(id: int, authorId: int, conversationId: int, message: string, createdAt: string, isEdited: bool)

  /** A conversation's `lastMessageSent`: the three-field summary, or what
      spreading an absent summary and setting `message` leaves. */
  datatype LastSent =
    | Summary(id: int, message: string, createdAt: string)
    | TextOnly(message: string)

  /** `lastMessageSent.id`, undefined for a text-only record. */
  function LastSentId(l: LastSent): Option<int> {
    match l
    case Summary(id, _, _) => Some(id)
    case TextOnly(_) => None
  }

  /** A cached conversation; `lastMessageSent` and `isRead` are absent on a
      conversation that came from the creation response. */
  datatype Conversation = Conversation(
    id: int,
    title: Option<string>,
    participants: seq<User>,
    lastMessageSent: Option<LastSent>,
    isRead: Option<bool>)

  /** React Query's infinite data: the pages and the parameters they were
      fetched with. */
  datatype InfiniteData = InfiniteData(pages: seq<seq<Message>>, pageParams: seq<int>)

  datatype QueryKey = ConversationsKey | ConversationRequestsKey | MessagesKey(conversationId: int)

  /** A JavaScript error thrown by an updater (dereferencing `undefined`). */
  datatype JsError = TypeError

  /** `findIndex` on conversation ids: the first index with the id, or -1. */
  function FindIndex(convs: seq<Conversation>, id: int): (i: int)
    ensures -1 <= i < |convs|
    ensures i >= 0 ==> convs[i].id == id
    ensures i >= 0 ==> forall j :: 0 <= j < i ==> convs[j].id != id
    ensures i == -1 <==> forall j :: 0 <= j < |convs| ==> convs[j].id != id
  {
    if |convs| == 0 then -1
    else if convs[0].id == id then 0
    else
      var k := FindIndex(convs[1..], id);
      if k == -1 then -1 else k + 1
  }

  class QueryCache {
    /** ["conversations"]; None while nothing is cached. */
    var conversations: Option<seq<Conversation>>
    /** ["messages", conversationId]; a missing key is nothing cached. */
    var messages: map<int, InfiniteData>
    /** Keys `invalidateQueries` has marked stale. */
    var invalidated: set<QueryKey>

    constructor ()
      ensures conversations == None && messages == map[] && invalidated == {}
    {
      conversations := None;
      messages := map[];
      invalidated := {};
    }

    /** `getQueryData(["messages", conversationId])`. */
    function Messages(conversationId: int): Option<InfiniteData>
      reads this
    {
      if conversationId in messages then Some(messages[conversationId]) else None
    }

    /** `setQueryData(["messages", conversationId], data)`; writing
        `undefined` leaves the entry as it is. */
    method SetMessages(conversationId: int, data: Option<InfiniteData>)
      modifies this
      ensures conversations == old(conversations) && invalidated == old(invalidated)
      ensures messages == if data.Some? then old(messages)[conversationId := data.value] else old(messages)
    {
      if data.Some? {
        messages := messages[conversationId := data.value];
      }
    }

    /** `setQueryData(["conversations"], list)`. */
    method SetConversations(list: Option<seq<Conversation>>)
      modifies this
      ensures messages == old(messages) && invalidated == old(invalidated)
      ensures conversations == if list.Some? then list else old(conversations)
    {
      if list.Some? {
        conversations := list;
      }
    }

    /** `invalidateQueries(key)`. */
    method Invalidate(key: QueryKey)
      modifies this
      ensures conversations == old(conversations) && messages == old(messages)
      ensures invalidated == old(invalidated) + {key}
    {
      invalidated := invalidated + {key};
    }
  }
}

/** The client's message hooks: encryption of an outgoing message, the
    next-page rule of the infinite message query, and the updaters the
    success handlers apply to the cached message pages and conversation
    list. */
module Messages {
  import opened Bytes
  import opened Wrappers
  import opened Encodings
  import opened Primitives
  import opened ClientCache

  // ---------------------------------------------------------------------
  // Pages
  // ---------------------------------------------------------------------

  /** The messages of all pages, first page first. */
  function Flatten(pages: seq<seq<Message>>): seq<Message> {
    if pages == [] then [] else pages[0] + Flatten(pages[1..])
  }

  /** `Flatten` of pages split in two is the concatenation of the parts;
      in particular a first page can be taken off the front. */
  lemma {:induction false} FlattenAppend(a: seq<seq<Message>>, b: seq<seq<Message>>)
    ensures Flatten(a + b) == Flatten(a) + Flatten(b)
  {
    if a != [] {
      assert (a + b)[1..] == a[1..] + b;
      FlattenAppend(a[1..], b);
    } else {
      assert a + b == b;
    }
  }

  /** `getNextPageParam`: one past the number of pages fetched so far while
      the last page brought messages, otherwise nothing more to fetch. */
  function NextPageParam(lastPage: seq<Message>, allPages: seq<seq<Message>>): Option<int> {
    if |lastPage| > 0 then Some(|allPages| + 1) else None
  }

  /** The numbers the pages were fetched with: page k (from 0) with k + 1,
      the first one with the query function's default parameter 1. React
      Query itself records `undefined` as the first stored page parameter;
      here `pageParams` holds the numbers the query function used. */
  predicate NumberedPages(d: InfiniteData) {
    && |d.pageParams| == |d.pages|
    && forall k :: 0 <= k < |d.pageParams| ==> d.pageParams[k] == k + 1
  }

  /** The next-page rule keeps the numbering: after the first page, the
      parameter it asks for is one more than the last one used, and it asks
      for one exactly when the last page was not empty. */
  lemma NextPageKeepsNumbering(d: InfiniteData, page: seq<Message>)
    requires NumberedPages(d) && |d.pages| > 0
    ensures var p := NextPageParam(d.pages[|d.pages| - 1], d.pages);
      && (p.Some? <==> |d.pages[|d.pages| - 1]| > 0)
      && (p.Some? ==> p.value == d.pageParams[|d.pageParams| - 1] + 1)
      && (p.Some? ==> NumberedPages(InfiniteData(d.pages + [page], d.pageParams + [p.value])))
  {
  }

  // ---------------------------------------------------------------------
  // Sending
  // ---------------------------------------------------------------------

  /** The body of POST /api/messages/new. */
  datatype NewMessageBody = NewMessageBody(message: string, conversationId: int)

  /** What `socket.emit("send-message", …)` carries. */
  datatype SocketMessage = SocketMessage(id: int, authorId: int, recipientId: int, conversationId: int, message: string, timeSent: string)

  /** The mutation of `useNewMessage`: the text's UTF-8 bytes, PKCS#7-padded,
      CBC-encrypted under the decryption key with a 16-byte zero IV, in hex;
      None when aes-js throws. */
  function EncryptOutgoing(lib: Library, decryptionKey: seq<byte>, conversationId: int, text: string): Option<NewMessageBody> {
    match lib.cbcEncrypt(decryptionKey, Zeros(16), Pkcs7Pad(lib.textToBytes(text)))
    case None => None
    case Some(c) => Some(NewMessageBody(HexFromBytes(c), conversationId))
  }

  /** Under aes-js's CBC contract and with a 16-byte key the message is
      always sent; the posted text is the hex of the ciphertext, which
      parses back to it, two digits per byte of a whole number of blocks,
      and the conversation is the hook's. */
  lemma EncryptOutgoingShape(lib: Library, decryptionKey: seq<byte>, conversationId: int, text: string)
    requires CbcLikeAesJs(lib) && |decryptionKey| == 16
    ensures var c := lib.cbcEncrypt(decryptionKey, Zeros(16), Pkcs7Pad(lib.textToBytes(text)));
      var body := EncryptOutgoing(lib, decryptionKey, conversationId, text);
      && c.Some? && body.Some?
      && body.value.conversationId == conversationId
      && |body.value.message| == 2 * |c.value|
      && |body.value.message| % 32 == 0 && |body.value.message| > 0
      && AesUtils.HexToNums(body.value.message) == AesUtils.Nums(ByteValues(c.value))
  {
    var padded := Pkcs7Pad(lib.textToBytes(text));
    Pkcs7PadShape(lib.textToBytes(text));
    var c := lib.cbcEncrypt(decryptionKey, Zeros(16), padded);
    assert c.Some? && |c.value| == |padded|;
    HexFromBytesRoundTrip(c.value);
  }

  /** The body depends on the text only through its ciphertext: texts whose
      padded bytes encrypt alike are posted alike. */
  lemma EncryptOutgoingSendsNoPlaintext(lib: Library, decryptionKey: seq<byte>, conversationId: int, text1: string, text2: string)
    requires lib.cbcEncrypt(decryptionKey, Zeros(16), Pkcs7Pad(lib.textToBytes(text1)))
          == lib.cbcEncrypt(decryptionKey, Zeros(16), Pkcs7Pad(lib.textToBytes(text2)))
    ensures EncryptOutgoing(lib, decryptionKey, conversationId, text1) == EncryptOutgoing(lib, decryptionKey, conversationId, text2)
  {
  }

  /** The messages updater of `useNewMessage`: the pages are copied and the
      new message put in front of the first; with nothing cached, or no
      page, `pages[0]` is undefined and `unshift` throws. */
  function InsertFirst(prev: Option<InfiniteData>, m: Message): Result<InfiniteData, JsError> {
    if prev.None? || |prev.value.pages| == 0 then Failure(TypeError)
    else Success(InfiniteData([[m] + prev.value.pages[0]] + prev.value.pages[1..], prev.value.pageParams))
  }

  /** The insert succeeds exactly when there is a page; the new message is
      then first of all, the other pages and the page parameters are as
      they were, there are as many pages, and all other messages follow in
      their old order. */
  lemma InsertFirstSpec(prev: Option<InfiniteData>, m: Message)
    ensures InsertFirst(prev, m).Success? <==> prev.Some? && |prev.value.pages| > 0
    ensures InsertFirst(prev, m).Success? ==>
      var d := InsertFirst(prev, m).value;
      && |d.pages| == |prev.value.pages|
      && d.pageParams == prev.value.pageParams
      && d.pages[0] == [m] + prev.value.pages[0]
      && (forall k :: 1 <= k < |d.pages| ==> d.pages[k] == prev.value.pages[k])
      && Flatten(d.pages) == [m] + Flatten(prev.value.pages)
  {
    if prev.Some? && |prev.value.pages| > 0 {
      var old_ := prev.value.pages;
      var d := InsertFirst(prev, m).value;
      assert d.pages[1..] == old_[1..];
      assert Flatten(old_) == old_[0] + Flatten(old_[1..]);
    }
  }

  /** The summary a conversation keeps of a message. */
  function SummaryOf(m: Message): LastSent {
    Summary(m.id, m.message, m.createdAt)
  }

  /** The conversations updater of `useNewMessage`: the first conversation
      with the id gets the new summary; with no such conversation the
      assignment to index -1 leaves the elements alone; with nothing cached
      `findIndex` throws. */
  function SetLastSent(prev: Option<seq<Conversation>>, conversationId: int, m: Message): Result<seq<Conversation>, JsError> {
    if prev.None? then Failure(TypeError)
    else
      var i := FindIndex(prev.value, conversationId);
      if i == -1 then Success(prev.value)
      else Success(prev.value[i := prev.value[i].(lastMessageSent := Some(SummaryOf(m)))])
  }

  /** With a cached list, exactly the first conversation with the id (if
      any) changes, and only in its last message, which is now the sent
      one. */
  lemma SetLastSentSpec(prev: seq<Conversation>, conversationId: int, m: Message)
    ensures var r := SetLastSent(Some(prev), conversationId, m);
      && r.Success? && |r.value| == |prev|
      && forall j :: 0 <= j < |prev| ==>
           if j == FindIndex(prev, conversationId)
           then r.value[j] == prev[j].(lastMessageSent := Some(Summary(m.id, m.message, m.createdAt)))
                && LastSentId(r.value[j].lastMessageSent.value) == Some(m.id)
           else r.value[j] == prev[j]
    ensures (forall j :: 0 <= j < |prev| ==> prev[j].id != conversationId) ==> SetLastSent(Some(prev), conversationId, m) == Success(prev)
  {
  }

  /** `onSuccess` of `useNewMessage`: the pages, then the conversations,
      then the socket event; a throwing updater ends the handler, so the
      event is emitted only when both updaters ran. */
  method OnMessageSent(cache: QueryCache, conversationId: int, recipientId: int, data: Message) returns (emitted: Option<SocketMessage>)
    modifies cache
    ensures cache.invalidated == old(cache.invalidated)
    ensures var pages := InsertFirst(old(cache.Messages(conversationId)), data);
      var convs := SetLastSent(old(cache.conversations), conversationId, data);
      && cache.messages == (if pages.Success? then old(cache.messages)[conversationId := pages.value] else old(cache.messages))
      && cache.conversations == (if pages.Success? && convs.Success? then Some(convs.value) else old(cache.conversations))
      && emitted == (if pages.Success? && convs.Success?
                     then Some(SocketMessage(data.id, data.authorId, recipientId, conversationId, data.message, data.createdAt))
                     else None)
  {
    var pages := InsertFirst(cache.Messages(conversationId), data);
    if pages.Failure? {
      return None;
    }
    cache.SetMessages(conversationId, Some(pages.value));
    var convs := SetLastSent(cache.conversations, conversationId, data);
    if convs.Failure? {
      return None;
    }
    cache.SetConversations(Some(convs.value));
    emitted := Some(SocketMessage(data.id, data.authorId, recipientId, conversationId, data.message, data.createdAt));
  }

  // ---------------------------------------------------------------------
  // Deleting
  // ---------------------------------------------------------------------

  /** `page.filter((message) => message.id !== id)`. */
  function RemoveId(page: seq<Message>, id: int): (r: seq<Message>)
    ensures |r| <= |page|
  {
    if page == [] then []
    else (if page[0].id == id then [] else [page[0]]) + RemoveId(page[1..], id)
  }

  /** The filter keeps exactly the messages with another id. */
  lemma {:induction false} RemoveIdMembers(page: seq<Message>, id: int, m: Message)
    ensures m in RemoveId(page, id) <==> m in page && m.id != id
  {
    if page != [] {
      RemoveIdMembers(page[1..], id, m);
      assert page == [page[0]] + page[1..];
    }
  }

  /** The filter works piecewise: filtering two parts and joining them is
      filtering the whole, so the survivors keep their order. */
  lemma {:induction false} RemoveIdAppend(a: seq<Message>, b: seq<Message>, id: int)
    ensures RemoveId(a + b, id) == RemoveId(a, id) + RemoveId(b, id)
  {
    if a == [] {
      assert a + b == b;
    } else {
      assert (a + b)[0] == a[0];
      assert (a + b)[1..] == a[1..] + b;
      RemoveIdAppend(a[1..], b, id);
    }
  }

  /** A page without the id is left as it is. */
  lemma {:induction false} RemoveIdAbsent(page: seq<Message>, id: int)
    requires forall m :: m in page ==> m.id != id
    ensures RemoveId(page, id) == page
  {
    if page != [] {
      assert page[0] in page;
      assert forall m :: m in page[1..] ==> m in page;
      RemoveIdAbsent(page[1..], id);
      assert page == [page[0]] + page[1..];
    }
  }

  /** Every page filtered on its own. */
  function DeletePages(pages: seq<seq<Message>>, id: int): seq<seq<Message>> {
    seq(|pages|, k requires 0 <= k < |pages| => RemoveId(pages[k], id))
  }

  /** Deleting page by page is deleting from all messages at once, as many
      pages are kept, none of them holds the id any more, and deleting again
      changes nothing. */
  lemma {:induction false} DeletePagesSpec(pages: seq<seq<Message>>, id: int)
    ensures |DeletePages(pages, id)| == |pages|
    ensures Flatten(DeletePages(pages, id)) == RemoveId(Flatten(pages), id)
    ensures forall k, m :: 0 <= k < |pages| && m in DeletePages(pages, id)[k] ==> m.id != id
    ensures DeletePages(DeletePages(pages, id), id) == DeletePages(pages, id)
  {
    var d := DeletePages(pages, id);
    if pages != [] {
      assert DeletePages(pages[1..], id) == d[1..];
      DeletePagesSpec(pages[1..], id);
      RemoveIdAppend(pages[0], Flatten(pages[1..]), id);
    }
    forall k, m: Message | 0 <= k < |pages| && m in d[k]
      ensures m.id != id
    {
      RemoveIdMembers(pages[k], id, m);
    }
    forall k | 0 <= k < |d|
      ensures DeletePages(d, id)[k] == d[k]
    {
      RemoveIdAbsent(d[k], id);
    }
  }

  /** The messages updater of `useDeleteMessage`: nothing cached stays
      nothing cached. */
  function DeleteUpdate(prev: Option<InfiniteData>, id: int): Option<InfiniteData> {
    match prev
    case None => None
    case Some(d) => Some(InfiniteData(DeletePages(d.pages, id), d.pageParams))
  }

  /** What `newLastMessageSent` holds when read: `null` when no pages are
      cached, otherwise the first element of the first page, `undefined`
      when that page is empty. */
  datatype Candidate = Null | Undefined | First(m: Message)

  function ReplacementFor(messagesData: Option<InfiniteData>): Candidate {
    if messagesData.None? || |messagesData.value.pages| == 0 then Null
    else if |messagesData.value.pages[0]| == 0 then Undefined
    else First(messagesData.value.pages[0][0])
  }

  /** The conversations updater of `useDeleteMessage`, given the message
      pages as they are after the messages updater ran. Nothing cached, no
      conversation with the id, or one without a last message makes the
      dereference throw, and so does `null.id` when no pages are cached;
      when the deleted message was not the last one the list is returned
      as it is. */
  function LastAfterDelete(prev: Option<seq<Conversation>>, conversationId: int, deletedId: int, messagesData: Option<InfiniteData>): Result<seq<Conversation>, JsError> {
    if prev.None? then Failure(TypeError)
    else
      var i := FindIndex(prev.value, conversationId);
      if i == -1 || prev.value[i].lastMessageSent.None? then Failure(TypeError)
      else if LastSentId(prev.value[i].lastMessageSent.value) != Some(deletedId) then Success(prev.value)
      else match ReplacementFor(messagesData)
        case Null => Failure(TypeError)
        case Undefined => Success(prev.value[i := prev.value[i].(lastMessageSent := None)])
        case First(m) => Success(prev.value[i := prev.value[i].(lastMessageSent := Some(SummaryOf(m)))])
  }

  /** When the cached conversation's last message is the deleted one, it
      is replaced by the first message of the first remaining page, or
      removed when that page is empty; any other last message leaves the
      list as it was. After the messages updater has run, the new last
      message is never the deleted one. */
  lemma LastAfterDeleteSpec(prev: seq<Conversation>, conversationId: int, deletedId: int, data: InfiniteData)
    requires FindIndex(prev, conversationId) >= 0
    requires prev[FindIndex(prev, conversationId)].lastMessageSent.Some?
    requires |data.pages| > 0
    ensures var i := FindIndex(prev, conversationId);
      var after := DeleteUpdate(Some(data), deletedId);
      var page := after.value.pages[0];
      var r := LastAfterDelete(Some(prev), conversationId, deletedId, after);
      && r.Success?
      && (LastSentId(prev[i].lastMessageSent.value) != Some(deletedId) ==> r.value == prev)
      && (LastSentId(prev[i].lastMessageSent.value) == Some(deletedId) ==>
            && r.value == prev[i := prev[i].(lastMessageSent := if page == [] then None else Some(SummaryOf(page[0])))]
            && page == RemoveId(data.pages[0], deletedId))
      && (r.value[i].lastMessageSent.Some? ==> LastSentId(r.value[i].lastMessageSent.value) != Some(deletedId))
  {
    var after := DeleteUpdate(Some(data), deletedId);
    var page := after.value.pages[0];
    if page != [] {
      assert page[0] in page;
      RemoveIdMembers(data.pages[0], deletedId, page[0]);
    }
  }

  /** `onSuccess` of `useDeleteMessage`: the messages updater, then the
      conversations updater reading the pages it left. */
  method OnMessageDeleted(cache: QueryCache, conversationId: int, deletedId: int)
    modifies cache
    ensures cache.invalidated == old(cache.invalidated)
    ensures cache.messages == (if conversationId in old(cache.messages)
                               then old(cache.messages)[conversationId := DeleteUpdate(old(cache.Messages(conversationId)), deletedId).value]
                               else old(cache.messages))
    ensures var r := LastAfterDelete(old(cache.conversations), conversationId, deletedId, DeleteUpdate(old(cache.Messages(conversationId)), deletedId));
      cache.conversations == if r.Success? then Some(r.value) else old(cache.conversations)
  {
    cache.SetMessages(conversationId, DeleteUpdate(cache.Messages(conversationId), deletedId));
    var r := LastAfterDelete(cache.conversations, conversationId, deletedId, cache.Messages(conversationId));
    if r.Success? {
      cache.SetConversations(Some(r.value));
    }
  }

  // ---------------------------------------------------------------------
  // Editing
  // ---------------------------------------------------------------------

  /** A message with the id gets the new text and is marked edited. */
  function EditOne(m: Message, id: int, text: string): Message {
    if m.id == id then m.(message := text, isEdited := true) else m
  }

  function EditPage(page: seq<Message>, id: int, text: string): seq<Message> {
    seq(|page|, j requires 0 <= j < |page| => EditOne(page[j], id, text))
  }

  function EditPages(pages: seq<seq<Message>>, id: int, text: string): seq<seq<Message>> {
    seq(|pages|, k requires 0 <= k < |pages| => EditPage(pages[k], id, text))
  }

  lemma EditPageAppend(a: seq<Message>, b: seq<Message>, id: int, text: string)
    ensures EditPage(a + b, id, text) == EditPage(a, id, text) + EditPage(b, id, text)
  {
  }

  /** The page shapes and every message's identity are kept; exactly the
      messages with the id carry the new text and the edited mark; editing
      page by page is editing all messages at once; and editing twice is
      editing once. */
  lemma {:induction false} EditPagesSpec(pages: seq<seq<Message>>, id: int, text: string)
    ensures var r := EditPages(pages, id, text);
      && |r| == |pages|
      && (forall k :: 0 <= k < |pages| ==> |r[k]| == |pages[k]|)
      && (forall k, j :: 0 <= k < |pages| && 0 <= j < |pages[k]| ==>
            && r[k][j].id == pages[k][j].id
            && r[k][j].authorId == pages[k][j].authorId
            && r[k][j].conversationId == pages[k][j].conversationId
            && r[k][j].createdAt == pages[k][j].createdAt
            && (pages[k][j].id == id ==> r[k][j].message == text && r[k][j].isEdited)
            && (pages[k][j].id != id ==> r[k][j] == pages[k][j]))
      && Flatten(r) == EditPage(Flatten(pages), id, text)
      && EditPages(r, id, text) == r
  {
    var r := EditPages(pages, id, text);
    if pages != [] {
      assert EditPages(pages[1..], id, text) == r[1..];
      EditPagesSpec(pages[1..], id, text);
      EditPageAppend(pages[0], Flatten(pages[1..]), id, text);
    }
    forall k | 0 <= k < |r|
      ensures EditPage(r[k], id, text) == r[k]
    {
      assert forall j :: 0 <= j < |r[k]| ==> EditOne(r[k][j], id, text) == r[k][j];
    }
  }

  /** The messages updater of `useEditMessage`. */
  function EditUpdate(prev: Option<InfiniteData>, id: int, text: string): Option<InfiniteData> {
    match prev
    case None => None
    case Some(d) => Some(InfiniteData(EditPages(d.pages, id, text), d.pageParams))
  }

  /** Spreading the last message and setting its text: an absent one
      becomes a record with the text alone. */
  function EditLastSent(l: Option<LastSent>, text: string): LastSent {
    match l
    case None => TextOnly(text)
    case Some(Summary(id, _, createdAt)) => Summary(id, text, createdAt)
    case Some(TextOnly(_)) => TextOnly(text)
  }

  /** The conversations updater of `useEditMessage`, on a cached list. */
  function EditConversations(convs: seq<Conversation>, conversationId: int, text: string): seq<Conversation> {
    seq(|convs|, i requires 0 <= i < |convs| =>
      if convs[i].id == conversationId
      then convs[i].(lastMessageSent := Some(EditLastSent(convs[i].lastMessageSent, text)))
      else convs[i])
  }

  /** Every conversation with the id, and only those, shows the new text as
      its last message, whichever message was edited; the last message
      keeps its id and time, the conversation its other fields; editing
      twice is editing once. */
  lemma EditConversationsSpec(convs: seq<Conversation>, conversationId: int, text: string)
    ensures var r := EditConversations(convs, conversationId, text);
      && |r| == |convs|
      && (forall i :: 0 <= i < |convs| && convs[i].id != conversationId ==> r[i] == convs[i])
      && (forall i :: 0 <= i < |convs| && convs[i].id == conversationId ==>
            && r[i].lastMessageSent.Some?
            && r[i].lastMessageSent.value.message == text
            && (convs[i].lastMessageSent.Some? ==> LastSentId(r[i].lastMessageSent.value) == LastSentId(convs[i].lastMessageSent.value))
            && (convs[i].lastMessageSent.Some? && convs[i].lastMessageSent.value.Summary? ==>
                  r[i].lastMessageSent.value.createdAt == convs[i].lastMessageSent.value.createdAt)
            && r[i] == convs[i].(lastMessageSent := r[i].lastMessageSent))
      && EditConversations(r, conversationId, text) == r
  {
  }

  function EditConversationsUpdate(prev: Option<seq<Conversation>>, conversationId: int, text: string): Option<seq<Conversation>> {
    match prev
    case None => None
    case Some(convs) => Some(EditConversations(convs, conversationId, text))
  }

  /** `onSuccess` of `useEditMessage`; with nothing cached both updaters
      return `undefined` and change nothing. */
  method OnMessageEdited(cache: QueryCache, conversationId: int, messageId: int, text: string)
    modifies cache
    ensures cache.invalidated == old(cache.invalidated)
    ensures cache.messages == (if conversationId in old(cache.messages)
                               then old(cache.messages)[conversationId := EditUpdate(old(cache.Messages(conversationId)), messageId, text).value]
                               else old(cache.messages))
    ensures cache.conversations == EditConversationsUpdate(old(cache.conversations), conversationId, text)
  {
    cache.SetMessages(conversationId, EditUpdate(cache.Messages(conversationId), messageId, text));
    cache.SetConversations(EditConversationsUpdate(cache.conversations, conversationId, text));
  }

  // ---------------------------------------------------------------------
  // Reading
  // ---------------------------------------------------------------------

  /** The conversations updater of `useGetMessagesInfinite`'s `onSuccess`,
      on a cached list: the first conversation with the id is marked read;
      without one the assignment to index -1 leaves the elements alone. */
  function MarkRead(convs: seq<Conversation>, conversationId: int): seq<Conversation> {
    var i := FindIndex(convs, conversationId);
    if i == -1 then convs else convs[i := convs[i].(isRead := Some(true))]
  }

  /** Lists with the same ids in the same places agree on `FindIndex`. */
  lemma {:induction false} FindIndexSameIds(a: seq<Conversation>, b: seq<Conversation>, id: int)
    requires |a| == |b| && forall j :: 0 <= j < |a| ==> a[j].id == b[j].id
    ensures FindIndex(a, id) == FindIndex(b, id)
  {
    if |a| > 0 && a[0].id != id {
      FindIndexSameIds(a[1..], b[1..], id);
    }
  }

  /** Only the first conversation with the id changes, and only in being
      read; if there is none, nothing changes; marking twice is marking
      once. */
  lemma MarkReadSpec(convs: seq<Conversation>, conversationId: int)
    ensures var r := MarkRead(convs, conversationId);
      var i := FindIndex(convs, conversationId);
      && |r| == |convs|
      && (forall j :: 0 <= j < |convs| && j != i ==> r[j] == convs[j])
      && (i >= 0 ==> r[i] == convs[i].(isRead := Some(true)) && r[i].id == conversationId)
      && ((forall j :: 0 <= j < |convs| ==> convs[j].id != conversationId) ==> r == convs)
      && MarkRead(r, conversationId) == r
  {
    var r := MarkRead(convs, conversationId);
    FindIndexSameIds(convs, r, conversationId);
  }

  function MarkReadUpdate(prev: Option<seq<Conversation>>, conversationId: int): Option<seq<Conversation>> {
    match prev
    case None => None
    case Some(convs) => Some(MarkRead(convs, conversationId))
  }

  /** `onSuccess` of `useGetMessagesInfinite`: the fetched page itself is
      stored by the query library; the handler only marks the conversation
      read. */
  method OnPageFetched(cache: QueryCache, conversationId: int)
    modifies cache
    ensures cache.messages == old(cache.messages) && cache.invalidated == old(cache.invalidated)
    ensures cache.conversations == MarkReadUpdate(old(cache.conversations), conversationId)
  {
    cache.SetConversations(MarkReadUpdate(cache.conversations, conversationId));
  }
}

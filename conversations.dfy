/** The client's conversation hooks: the initiator's Kyber encapsulation
    and key wrap, the accepter's decapsulation and re-wrap, and what their
    success handlers do to the query cache and the navigation state. */
module Conversations {
  import opened Bytes
  import opened Wrappers
  import opened Encodings
  import opened Primitives
  import opened ClientCache

  // ---------------------------------------------------------------------
  // Starting a conversation
  // ---------------------------------------------------------------------

  /** The body of POST /api/conversations/new. */
  datatype NewConversationBody = NewConversationBody(participants: seq<int>, symkeyforme: seq<byte>, ct: seq<byte>)

  /** `CBC(decryptionKey, zero IV as long as the secret's bytes, PKCS#7(bytes))`:
      how both sides wrap a shared secret. */
  function WrapSecret(lib: Library, decryptionKey: seq<byte>, secret: seq<byte>): Option<seq<byte>> {
    var secretBytes := lib.secretToBytes(secret);
    lib.cbcEncrypt(decryptionKey, Zeros(|secretBytes|), Pkcs7Pad(secretBytes))
  }

  /** The mutation of `useNewConversation`: a key pair is generated in the
      same call (`generated`, standing for `generateKeyPair`) and the secret is
      encapsulated against its own public key with randomness `coins`; the
      secret is wrapped under the caller's decryption key and the body
      carries the friends, the wrapped secret and the ciphertext. None when
      aes-js throws. */
  function StartConversation(lib: Library, decryptionKey: seq<byte>, friends: seq<int>, generated: KeyPair, coins: seq<byte>): Option<NewConversationBody> {
    var e := lib.encap(generated.publicKey, coins);
    match WrapSecret(lib, decryptionKey, e.sharedSecret)
    case None => None
    case Some(symkey) => Some(NewConversationBody(friends, symkey, e.ct))
  }

  /** No recipient key takes part: the ciphertext is an encapsulation
      against the key pair generated in the call, and the ciphertext and the
      wrapped key are the same for any two friend lists and any two
      generated pairs with the same public key; the friends are sent as
      given. */
  lemma StartEncapsulatesToFreshKey(lib: Library, decryptionKey: seq<byte>, friends1: seq<int>, friends2: seq<int>, generated1: KeyPair, generated2: KeyPair, coins: seq<byte>)
    requires generated1.publicKey == generated2.publicKey
    ensures var b1 := StartConversation(lib, decryptionKey, friends1, generated1, coins);
      var b2 := StartConversation(lib, decryptionKey, friends2, generated2, coins);
      && (b1.Some? <==> b2.Some?)
      && (b1.Some? ==>
            && b1.value.ct == b2.value.ct == lib.encap(generated1.publicKey, coins).ct
            && b1.value.symkeyforme == b2.value.symkeyforme
            && b1.value.participants == friends1
            && b2.value.participants == friends2)
  {
  }

  /** The body depends on the shared secret only through its wrap: two
      libraries whose encapsulations give the same ciphertext and whose
      wraps agree produce the same body, however their secrets differ. */
  lemma StartSendsNoSecret(lib1: Library, lib2: Library, decryptionKey: seq<byte>, friends: seq<int>, generated: KeyPair, coins: seq<byte>)
    requires lib1.encap(generated.publicKey, coins).ct == lib2.encap(generated.publicKey, coins).ct
    requires WrapSecret(lib1, decryptionKey, lib1.encap(generated.publicKey, coins).sharedSecret)
          == WrapSecret(lib2, decryptionKey, lib2.encap(generated.publicKey, coins).sharedSecret)
    ensures StartConversation(lib1, decryptionKey, friends, generated, coins)
         == StartConversation(lib2, decryptionKey, friends, generated, coins)
  {
  }

  /** Under aes-js's CBC contract, and for a 16-byte decryption key, a wrap
      succeeds exactly when the converted secret is 16 bytes long, since
      the IV is as long as the secret's bytes; the wrapped key is then two
      blocks. */
  lemma WrapNeedsSixteenByteSecret(lib: Library, decryptionKey: seq<byte>, secret: seq<byte>)
    requires CbcLikeAesJs(lib) && |decryptionKey| == 16
    ensures WrapSecret(lib, decryptionKey, secret).Some? <==> |lib.secretToBytes(secret)| == 16
    ensures WrapSecret(lib, decryptionKey, secret).Some? ==> |WrapSecret(lib, decryptionKey, secret).value| == 32
  {
    var b := lib.secretToBytes(secret);
    Pkcs7PadShape(b);
  }

  // ---------------------------------------------------------------------
  // Accepting a request
  // ---------------------------------------------------------------------

  /** The body of PUT /api/conversations/request/:requestId/accept. */
  datatype AcceptBody = AcceptBody(symkeyforme: seq<byte>)

  /** The mutation of `useAcceptConversationRequest`: the fetched `ct` is
      decapsulated with the user's own private key and the secret wrapped
      under the user's own decryption key. */
  function AcceptConversation(lib: Library, decryptionKey: seq<byte>, privateKey: seq<byte>, ct: seq<byte>): Option<AcceptBody> {
    var secret := lib.decap(ct, privateKey);
    match WrapSecret(lib, decryptionKey, secret)
    case None => None
    case Some(symkey) => Some(AcceptBody(symkey))
  }

  /** The accepter sends only the wrap of what its own private key
      decapsulates from `ct`: two runs, with any libraries, decryption keys
      and private keys, whose decapsulated secrets wrap to the same value
      send the same body, and fail together otherwise. */
  lemma AcceptWrapsOwnDecapsulation(lib1: Library, lib2: Library, decryptionKey1: seq<byte>, decryptionKey2: seq<byte>, privateKey1: seq<byte>, privateKey2: seq<byte>, ct: seq<byte>)
    requires WrapSecret(lib1, decryptionKey1, lib1.decap(ct, privateKey1))
          == WrapSecret(lib2, decryptionKey2, lib2.decap(ct, privateKey2))
    ensures AcceptConversation(lib1, decryptionKey1, privateKey1, ct)
         == AcceptConversation(lib2, decryptionKey2, privateKey2, ct)
  {
  }

  /** Under aes-js's CBC contract, and for a 16-byte decryption key, the
      accept body exists exactly when the decapsulated secret converts to
      16 bytes, and its wrapped key is then two blocks. */
  lemma AcceptNeedsSixteenByteSecret(lib: Library, decryptionKey: seq<byte>, privateKey: seq<byte>, ct: seq<byte>)
    requires CbcLikeAesJs(lib) && |decryptionKey| == 16
    ensures var body := AcceptConversation(lib, decryptionKey, privateKey, ct);
      && (body.Some? <==> |lib.secretToBytes(lib.decap(ct, privateKey))| == 16)
      && (body.Some? ==> |body.value.symkeyforme| == 32)
  {
    WrapNeedsSixteenByteSecret(lib, decryptionKey, lib.decap(ct, privateKey));
  }

  // ---------------------------------------------------------------------
  // Success handlers of useNewConversation
  // ---------------------------------------------------------------------

  /** The cache update after creation: append the conversation unless one
      with its id is cached; spreading a missing list throws. */
  function AppendIfAbsent(prev: Option<seq<Conversation>>, data: Conversation): (r: Result<seq<Conversation>, JsError>)
  {
    if prev.None? then Failure(TypeError)
    else if exists i :: 0 <= i < |prev.value| && prev.value[i].id == data.id then Success(prev.value)
    else Success(prev.value + [data])
  }

  /** With a cached list, the append succeeds; the old entries keep their
      order; the new conversation is added once, at the end, exactly when
      no entry had its id, so appending twice changes nothing more. */
  lemma AppendIfAbsentProperties(prev: seq<Conversation>, data: Conversation)
    ensures var r := AppendIfAbsent(Some(prev), data);
      && r.Success?
      && r.value[..|prev|] == prev
      && ((forall i :: 0 <= i < |prev| ==> prev[i].id != data.id) <==> r.value == prev + [data])
      && ((exists i :: 0 <= i < |prev| && prev[i].id == data.id) <==> r.value == prev)
      && AppendIfAbsent(Some(r.value), data) == Success(r.value)
  {
    var r := AppendIfAbsent(Some(prev), data);
    if forall i :: 0 <= i < |prev| ==> prev[i].id != data.id {
      assert r.value[|prev|].id == data.id;
      assert r.value != prev;
    } else {
      assert r.value != prev + [data];
    }
  }

  /** The navigation state: recipient id, title and whether the
      conversation is with oneself. */
  datatype RecipientState = RecipientState(id: int, title: string, conversationWithSelf: bool)
  datatype Navigation = Navigation(conversationId: int, recipient: RecipientState)

  predicate IsSelfConversation(participants: seq<User>, me: int) {
    |participants| == 1 && participants[0].id == me
  }

  /** The participants whose id is not the current user's, in order. */
  function Others(participants: seq<User>, me: int): (r: seq<User>)
    ensures forall u :: u in r ==> u in participants && u.id != me
    ensures forall u :: u in participants && u.id != me ==> u in r
  {
    if participants == [] then []
    else if participants[0].id != me then [participants[0]] + Others(participants[1..], me)
    else Others(participants[1..], me)
  }

  /** The first element of `Others` is the first participant, in list
      order, whose id differs from the current user's. */
  lemma {:induction false} OthersHead(participants: seq<User>, me: int, k: nat)
    requires k < |participants| && participants[k].id != me
    requires forall j :: 0 <= j < k ==> participants[j].id == me
    ensures Others(participants, me) != [] && Others(participants, me)[0] == participants[k]
  {
    if k > 0 {
      OthersHead(participants[1..], me, k - 1);
    }
  }

  /** The recipient: the only participant of a self-conversation, otherwise
      the first participant who is not the current user; None where the
      code reads a property of `undefined`. */
  function ChooseRecipient(participants: seq<User>, me: int): Option<User> {
    if IsSelfConversation(participants, me) then Some(participants[0])
    else
      var others := Others(participants, me);
      if others == [] then None else Some(others[0])
  }

  /** In a self-conversation the recipient is the user; otherwise it is the
      participant at the first index whose id differs from the user's, and
      there is one exactly when some participant is someone else. */
  lemma ChooseRecipientSpec(participants: seq<User>, me: int)
    ensures IsSelfConversation(participants, me) ==> ChooseRecipient(participants, me) == Some(participants[0])
    ensures !IsSelfConversation(participants, me) ==>
      (ChooseRecipient(participants, me).Some? <==> exists j :: 0 <= j < |participants| && participants[j].id != me)
    ensures !IsSelfConversation(participants, me) ==>
      forall k :: 0 <= k < |participants| && participants[k].id != me && (forall j :: 0 <= j < k ==> participants[j].id == me)
        ==> ChooseRecipient(participants, me) == Some(participants[k])
  {
    if !IsSelfConversation(participants, me) {
      forall k | 0 <= k < |participants| && participants[k].id != me && (forall j :: 0 <= j < k ==> participants[j].id == me)
        ensures ChooseRecipient(participants, me) == Some(participants[k])
      {
        OthersHead(participants, me, k);
      }
      if exists j :: 0 <= j < |participants| && participants[j].id != me {
        var j :| 0 <= j < |participants| && participants[j].id != me;
        assert participants[j] in Others(participants, me);
      }
      var others := Others(participants, me);
      if others != [] {
        assert others[0] in others;
        var j :| 0 <= j < |participants| && participants[j] == others[0];
        assert participants[j].id != me;
      }
    }
  }

  /** The navigation of the success handler, when the recipient exists. */
  function NavigationFor(data: Conversation, me: int): Option<Navigation> {
    match ChooseRecipient(data.participants, me)
    case None => None
    case Some(recipient) =>
      Some(Navigation(data.id, RecipientState(recipient.id, recipient.displayName, recipient.id == me)))
  }

  /** `conversationWithSelf` in the navigation state holds exactly for a
      self-conversation. */
  lemma NavigationSelfFlag(data: Conversation, me: int)
    requires NavigationFor(data, me).Some?
    ensures NavigationFor(data, me).value.recipient.conversationWithSelf <==> IsSelfConversation(data.participants, me)
    ensures NavigationFor(data, me).value.conversationId == data.id
  {
  }

  /** `onSuccess` of `useNewConversation`: the cache append, then the
      recipient choice for navigation; either step throwing ends the handler
      there. */
  method OnConversationCreated(cache: QueryCache, data: Conversation, me: int) returns (nav: Option<Navigation>)
    modifies cache
    ensures cache.messages == old(cache.messages) && cache.invalidated == old(cache.invalidated)
    ensures var r := AppendIfAbsent(old(cache.conversations), data);
      && cache.conversations == (if r.Success? then Some(r.value) else old(cache.conversations))
      && nav == (if r.Success? then NavigationFor(data, me) else None)
  {
    var r := AppendIfAbsent(cache.conversations, data);
    if r.Failure? {
      return None;
    }
    if r.value != cache.conversations.value {
      cache.SetConversations(Some(r.value));
    }
    nav := NavigationFor(data, me);
  }

  /** `onSuccess` of `useAcceptConversationRequest`. */
  method OnRequestAccepted(cache: QueryCache)
    modifies cache
    ensures cache.conversations == old(cache.conversations) && cache.messages == old(cache.messages)
    ensures cache.invalidated == old(cache.invalidated) + {ConversationsKey, ConversationRequestsKey}
  {
    cache.Invalidate(ConversationsKey);
    cache.Invalidate(ConversationRequestsKey);
  }

  /** `onSuccess` of `useDenyConversationRequest`. */
  method OnRequestDenied(cache: QueryCache)
    modifies cache
    ensures cache.conversations == old(cache.conversations) && cache.messages == old(cache.messages)
    ensures cache.invalidated == old(cache.invalidated) + {ConversationRequestsKey}
  {
    cache.Invalidate(ConversationRequestsKey);
  }
}

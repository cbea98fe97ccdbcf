# diplom key handling and conversation store, in Dafny

This project models the core of an end-to-end encrypted chat client and its
server. Registration and login stretch the password with scrypt into 32
bytes. Bytes 0..16 are the local *decryption key*. Bytes 16..32, in base64,
are the *authentication key* sent in place of the password. The decryption
key wraps the user's Kyber768 private key (AES-CBC, zero IV, PKCS#7) and
the shared secret of each conversation. Each outgoing message is encrypted
under a key that `getDecryptionKey(conversationId)` looks up per
conversation (`client/src/hooks/useMessages.ts:131`). That function is
defined nowhere in the code, so the model takes the message key as a
parameter.

Opening a conversation works like this:
- the client encapsulates a shared secret;
- it wraps the secret under its own decryption key;
- it posts the wrapped secret and the ciphertext.

The accepter decapsulates with its own private key and wraps the result
under its own key.

Around these crypto pipelines sit:
- the client's query cache of conversations and message pages, and the
  success handlers that update it;
- the server's conversations controller over a store of requests,
  conversations, participant rows and messages.

The cryptographic library calls are not modelled. `Primitives.Library`
holds them as function-valued fields: scrypt, Kyber768 encap/decap, aes-js
CBC, and the UTF-8 conversions. Every result therefore holds for any
implementation of them. Where a proof needs something of a library, a named
hypothesis states it: `ScryptKeepsLength`, and `CbcLikeAesJs` (aes-js
accepts a 16/24/32-byte key, a 16-byte IV and block-aligned data, and keeps
the length). PKCS#7 (section 6.3 of RFC 5652), base64 (section 4 of RFC
4648) and the hex text of aes-js follow their standards and are modelled
concretely, each with a round trip. Randomness is an input: the generated
key pair, and the coins of encapsulation.

Files, one module each:
- `bytes.dfy`: bytes, zero buffers, JavaScript `slice`.
- `aes.dfy`: the hex loops, `parseInt(…, 16)`, the zero-padding and
  stripping loops, and the CTR counter block of `client/src/utils/aes.ts`.
- `encodings.dfy`: PKCS#7, base64, and hex of bytes.
- `primitives.dfy`: the library interface.
- `auth.dfy`: signup and login.
- `cache.dfy`: the client query cache as a class.
- `conversations.dfy`: `useConversations.ts`.
- `messages.dfy`: `useMessages.ts`.
- `store.dfy`: the server controller, as a class over the store.

Loops in the source are methods with loops, proved against specification
functions. State the source changes in place is a class with `modifies`
clauses: the query cache, and the server store. Pure pipelines are
functions with lemmas about them. A JavaScript dereference of `undefined`
inside a cache updater is a `Failure(TypeError)`, and a handler stops at the
first updater that throws.

Three things the code does shape what the model can claim:
- **Salt.** Registration and login both pass scrypt a constant 16-byte
  zero salt (`client/src/hooks/auth/useSignup.ts:35`,
  `client/src/hooks/auth/useLogin.ts:16`); the login line's own comment
  asks for a better salt in production. The same password therefore always
  yields the same key (`Auth.LoginMatchesSignUp`).
- **Encapsulation key.** `useNewConversation` generates a key pair in the
  same call and encapsulates against that pair's public key
  (`client/src/hooks/useConversations.ts:36-42`); no recipient key is read
  (`Conversations.StartEncapsulatesToFreshKey`). No result here claims that
  initiator and accepter share a secret.
- **Wrap IV.** Both conversation wraps use a zero IV as long as the
  converted secret (`client/src/hooks/useConversations.ts:47, 153`), while
  registration and message sending use a 16-byte zero IV. Under the aes-js
  contract the wraps succeed only when that conversion yields 16 bytes
  (`Conversations.WrapNeedsSixteenByteSecret`,
  `Conversations.AcceptNeedsSixteenByteSecret`).

## Model

| member | source | states |
|---|---|---|
| Bytes.Zeros | client/src/hooks/auth/useSignup.ts:35 | `new Uint8Array(n)` is n bytes, all zero |
| Bytes.Slice | client/src/hooks/auth/useSignup.ts:39-40 | `slice` clamps its bounds to the array: the plain subsequence when in range, everything from `from` on when `to` passes the end, and the clamped length in every case |
| Bytes.SliceHalvesRebuild | client/src/hooks/auth/useSignup.ts:39-40 | the two slices cut at one point rebuild the array |
| AesUtils.HexDigits | client/src/utils/aes.ts:63 | `toString(16)` of a non-negative number has at least one digit, and exactly one iff the number is below 16 |
| AesUtils.NumberToHex | client/src/utils/aes.ts:63 | `toString(16)` is never empty, so the "00" branch is dead |
| AesUtils.HexChunk | client/src/utils/aes.ts:63-67 | every element contributes exactly two characters |
| AesUtils.ByteHexChunk | client/src/utils/aes.ts:63-67 | a value in 0..255 becomes its high and low nibble as lower-case hex digits |
| AesUtils.LastTwoHexDigits | client/src/utils/aes.ts:64-67 | a value above 255 keeps only its last two hex digits |
| AesUtils.LargeHexChunk | client/src/utils/aes.ts:64-67 | a non-negative value above 255 is written as its low byte |
| AesUtils.ByteArrayToHex | client/src/utils/aes.ts:60-70 | `ByteArray_2_HexString` as a function: each element's two-character chunk, appended in array order; its length and layout are the two lemmas below |
| AesUtils.ByteArrayToHexLength | client/src/utils/aes.ts:60-70 | the hex string is twice as long as the array |
| AesUtils.ByteArrayToHexAt | client/src/utils/aes.ts:60-70 | element i becomes characters 2i and 2i+1 |
| AesUtils.ByteArrayToHexString | client/src/utils/aes.ts:60-70 | the loop builds the specification string, of length 2 × the array's |
| AesUtils.ParseIntHex | client/src/utils/aes.ts:55 | `parseInt(s, 16)`: leading white space, an optional sign and `0x` prefix, then the longest run of hex digits, NaN when there is none; what it gives for two digits is `ParseTwoHexDigits`/`ParseByteChunk` |
| AesUtils.HexToNums | client/src/utils/aes.ts:52-58 | `HexString_2_ByteArray` as a function: one `parseInt` per two-character chunk; the loop is proved to compute it, and `HexRoundTrip` inverts it on hex made by `ByteArrayToHex` |
| AesUtils.HexStringToByteArray | client/src/utils/aes.ts:52-58 | the loop returns ⌈n/2⌉ numbers, number k being `parseInt` of the chunk at 2k (the last chunk may be one character) |
| AesUtils.ParseByteChunk | client/src/utils/aes.ts:55 | `parseInt(…, 16)` of a byte's two hex digits is that byte |
| AesUtils.HexRoundTrip | client/src/utils/aes.ts:52-70 | parsing the hex of an array of values in 0..255 gives back the same values |
| AesUtils.ZeroPadded | client/src/utils/aes.ts:21-23 | the text followed by as many zero bytes as reach a multiple of 16; its properties are the lemma below |
| AesUtils.ZeroPaddedProperties | client/src/utils/aes.ts:21-23 | null padding keeps the text as a prefix, appends fewer than 16 zero bytes, reaches a multiple of 16, and leaves an aligned text unchanged |
| AesUtils.ZeroPad | client/src/utils/aes.ts:21-23 | the push loop computes the zero-padded text, aligned and less than 16 bytes longer |
| AesUtils.Stripped | client/src/utils/aes.ts:33-34 | what is left after stripping is a prefix of the input |
| AesUtils.StrippedProperties | client/src/utils/aes.ts:33-34 | stripping removes every trailing zero byte and nothing else |
| AesUtils.StripZeros | client/src/utils/aes.ts:33-34 | the pop loop computes the stripped prefix: no trailing zero is left, and every byte removed was zero |
| AesUtils.StrippedAppendZeros | client/src/utils/aes.ts:33-34 | stripping ignores any number of appended zero bytes |
| AesUtils.StripUndoesZeroPad | client/src/utils/aes.ts:21-34 | strip(pad(t)) == t exactly when t is empty or does not end in a zero byte |
| AesUtils.EncryptCounter | client/src/utils/aes.ts:6 | the counter block of CTR encryption: eight zeros, then the nonce array |
| AesUtils.DecryptCounter | client/src/utils/aes.ts:14 | the counter block of CTR decryption: eight zeros, then the nonce parsed from hex; `CounterBlocksAgree` ties it to `EncryptCounter` |
| AesUtils.ShiftedNonceLayout | client/src/utils/aes.ts:6 | the counter block is eight zeros followed by the nonce |
| AesUtils.CounterBlocksAgree | client/src/utils/aes.ts:6-14 | decryption, given the hex of the byte nonce, builds the same counter block as encryption |
| Encodings.Pkcs7Pad | client/src/hooks/auth/useSignup.ts:46 | aes-js `padding.pkcs7.pad`: the data, then k bytes of value k, 1 <= k <= 16; shape and inverse are the lemmas below |
| Encodings.Pkcs7PadShape | client/src/hooks/auth/useSignup.ts:46 | PKCS#7 padding adds 1 to 16 bytes, reaches a multiple of 16, and keeps the data as a prefix |
| Encodings.Pkcs7RoundTrip | client/src/hooks/auth/useSignup.ts:46 | unpadding inverts padding |
| Encodings.Pkcs7PadInjective | client/src/hooks/auth/useSignup.ts:46 | different data never pad to the same bytes |
| Encodings.Base64Encode | client/src/hooks/auth/useSignup.ts:40 | `btoa(String.fromCharCode(...bytes))`: four-character groups of three bytes, the last `=`-padded; length, inverse and injectivity are the lemmas below |
| Encodings.Base64EncodeLength | client/src/hooks/auth/useSignup.ts:40 | base64 of n bytes has 4⌈n/3⌉ characters |
| Encodings.Base64RoundTrip | client/src/hooks/auth/useSignup.ts:40 | decoding the base64 of bytes gives them back |
| Encodings.Base64Injective | client/src/hooks/auth/useSignup.ts:40 | equal base64 texts come from equal bytes |
| Encodings.HexFromBytes | client/src/hooks/auth/useSignup.ts:46 | aes-js `utils.hex.fromBytes`: the same two lower-case digits per byte as `ByteArrayToHex` |
| Encodings.HexFromBytesRoundTrip | client/src/hooks/auth/useSignup.ts:46 | `hex.fromBytes` has two digits per byte and parses back to the bytes |
| Auth.DeriveKey | client/src/hooks/auth/useSignup.ts:37 | the scrypt call on the password's UTF-8 bytes with the given salt and cost parameters |
| Auth.DecryptionKey | client/src/hooks/auth/useSignup.ts:39 | `key.slice(0, 16)` |
| Auth.AuthenticationKey | client/src/hooks/auth/useSignup.ts:40 | the base64 of `key.slice(16, 32)` |
| Auth.SignUp | client/src/hooks/auth/useSignup.ts:21-58 | `signUp`: the two rejections in order, then derivation, split, wrap and post; its outcomes are the `SignUp…` lemmas below |
| Auth.RegisterWithKey | client/src/hooks/auth/useSignup.ts:39-55 | the part of `signUp` after derivation: the body built from the split key, the public key and the wrapped private key |
| Auth.WrapPrivateKey | client/src/hooks/auth/useSignup.ts:45-46 | hex of CBC(decryption key, 16 zero bytes, PKCS#7(private key)), or nothing when aes-js throws |
| Auth.KeySplit | client/src/hooks/auth/useSignup.ts:35-40 | a 32-byte key gives a 16-byte decryption key and a 24-character authentication key; the two together rebuild the key |
| Auth.SignUpRejectsMismatch | client/src/hooks/auth/useSignup.ts:22-26 | a repeat-password mismatch rejects with "Пароли не совпадают", whatever the library and key pair, and so before any derivation |
| Auth.SignUpRejectsMissing | client/src/hooks/auth/useSignup.ts:29-33 | with matching passwords, an empty username or password rejects, whatever the library and key pair |
| Auth.SignUpPosts | client/src/hooks/auth/useSignup.ts:35-55 | a valid form posts the whole body to the signup URL: display name, username, base64 of key bytes 16..32, base64 public key, and hex of CBC(key bytes 0..16, zero IV, PKCS#7(private key)). Under the hypotheses the wrap succeeds, the authentication key has 24 characters, and the wrapped key has 2 × padded-length hex digits |
| Auth.RegisterSendsNoSecret | client/src/hooks/auth/useSignup.ts:39-55 | the body depends on the decryption key and the private key only through the wrapped private key |
| Auth.Login | client/src/hooks/auth/useLogin.ts:8-25 | for every username and password, with no validation, the login URL is posted with that username |
| Auth.LoginMatchesSignUp | client/src/hooks/auth/useLogin.ts:16-20 | login sends the authentication key that registration sent for the same password |
| Auth.LoginSendsNoDecryptionKey | client/src/hooks/auth/useLogin.ts:18-24 | the login body depends on the derived key only through bytes 16..32 |
| Auth.LoginKeyLength | client/src/hooks/auth/useLogin.ts:18-20 | the login authentication key has 24 characters |
| ClientCache.FindIndex | client/src/hooks/useMessages.ts:98 | `findIndex` returns the first index with the id, or -1 exactly when none has it |
| ClientCache.QueryCache.SetMessages | client/src/hooks/useMessages.ts:150-157 | a message-pages write replaces that conversation's entry, and writing `undefined` keeps it |
| ClientCache.QueryCache.SetConversations | client/src/hooks/useConversations.ts:64-67 | a conversation-list write replaces the list, and writing `undefined` keeps it |
| ClientCache.QueryCache.Invalidate | client/src/hooks/useConversations.ts:166-167 | invalidation adds the key to the stale set and changes no data |
| Conversations.WrapSecret | client/src/hooks/useConversations.ts:43-47 | the wrap both sides use: CBC under the decryption key, with a zero IV as long as the converted secret, over its PKCS#7 padding |
| Conversations.StartConversation | client/src/hooks/useConversations.ts:33-56 | the mutation of `useNewConversation`: generate a pair, encapsulate against its public key, wrap the secret, post friends, wrap and ciphertext |
| Conversations.StartEncapsulatesToFreshKey | client/src/hooks/useConversations.ts:37-48 | no recipient key is read: the ciphertext is an encapsulation against the pair generated in the call, and ciphertext and wrapped key are the same for any two friend lists and any two generated pairs with one public key; the friends are sent as given |
| Conversations.StartSendsNoSecret | client/src/hooks/useConversations.ts:44-54 | the body depends on the shared secret only through its wrap and the ciphertext |
| Conversations.WrapNeedsSixteenByteSecret | client/src/hooks/useConversations.ts:44-48 | with a 16-byte key, under aes-js's contract, the wrap succeeds iff the converted secret has 16 bytes, giving 32 bytes |
| Conversations.AcceptConversation | client/src/hooks/useConversations.ts:136-162 | the mutation of `useAcceptConversationRequest`: decapsulate the fetched ciphertext with the own private key, wrap the secret, send the wrap |
| Conversations.AcceptWrapsOwnDecapsulation | client/src/hooks/useConversations.ts:143-160 | two runs, with any libraries, decryption keys and private keys, whose decapsulated secrets wrap to the same value send the same body: nothing but that wrap is sent |
| Conversations.AcceptNeedsSixteenByteSecret | client/src/hooks/useConversations.ts:147-154 | with a 16-byte key, under aes-js's contract, the accept body exists iff the decapsulated secret converts to 16 bytes, and its wrapped key then has 32 bytes |
| Conversations.AppendIfAbsent | client/src/hooks/useConversations.ts:60-68 | the cache update after creation: append unless the id is cached, and throw on a missing list |
| Conversations.AppendIfAbsentProperties | client/src/hooks/useConversations.ts:60-68 | with a list cached, old entries keep their order; the new one is appended iff its id is absent, and the list is unchanged iff present; appending twice changes nothing more |
| Conversations.IsSelfConversation | client/src/hooks/useConversations.ts:69-71 | `conversationWithSelf`: exactly one participant, and that one is the current user |
| Conversations.Others | client/src/hooks/useConversations.ts:74-76 | the filter keeps exactly the participants with another id |
| Conversations.OthersHead | client/src/hooks/useConversations.ts:74-76 | the first filtered participant is the first one, in list order, with another id |
| Conversations.ChooseRecipient | client/src/hooks/useConversations.ts:69-76 | the recipient: the only participant of a self-conversation, otherwise the first one with another id |
| Conversations.ChooseRecipientSpec | client/src/hooks/useConversations.ts:69-76 | a self-conversation yields its participant; otherwise the first participant with another id, present iff one exists |
| Conversations.NavigationFor | client/src/hooks/useConversations.ts:69-84 | the navigation after creation: to the conversation, with the recipient and the self flag, or none without a recipient |
| Conversations.NavigationSelfFlag | client/src/hooks/useConversations.ts:77-84 | `conversationWithSelf` in the navigation state holds iff the conversation is with oneself; the route is the conversation's id |
| Conversations.OnConversationCreated | client/src/hooks/useConversations.ts:59-85 | the handler applies the append, then navigates, unless spreading a missing list throws first |
| Conversations.OnRequestAccepted | client/src/hooks/useConversations.ts:165-168 | accepting invalidates the conversations and the requests keys, and no data changes |
| Conversations.OnRequestDenied | client/src/hooks/useConversations.ts:188-190 | denying invalidates only the requests key |
| Messages.NextPageParam | client/src/hooks/useMessages.ts:118-121 | `getNextPageParam`: one past the number of pages while the last page brought messages |
| Messages.NextPageKeepsNumbering | client/src/hooks/useMessages.ts:118-121 | a next page is asked for iff the last page is non-empty, with parameter one past the last; pages stay numbered 1, 2, … |
| Messages.EncryptOutgoing | client/src/hooks/useMessages.ts:136-144 | the mutation of `useNewMessage`: hex of CBC(key, 16 zero bytes, PKCS#7(UTF-8(text))) with the conversation id |
| Messages.EncryptOutgoingShape | client/src/hooks/useMessages.ts:136-144 | under aes-js's contract a message is always posted: hex of CBC(key, 16-byte zero IV, PKCS#7(UTF-8(text))), a positive multiple of 32 digits that parses back to the ciphertext, with the hook's conversation id |
| Messages.EncryptOutgoingSendsNoPlaintext | client/src/hooks/useMessages.ts:136-144 | the body depends on the text only through its ciphertext |
| Messages.InsertFirst | client/src/hooks/useMessages.ts:153-155 | the pages updater after sending: the message put first on page 0, throwing when no page is cached |
| Messages.InsertFirstSpec | client/src/hooks/useMessages.ts:153-155 | the insert succeeds iff a page is cached; the new message is then first, the other pages and the page parameters are unchanged, the page count is kept, and all messages follow in their old order |
| Messages.SetLastSent | client/src/hooks/useMessages.ts:160-178 | the conversations updater after sending: the sent message as the matching conversation's last message |
| Messages.SetLastSentSpec | client/src/hooks/useMessages.ts:160-178 | only the first conversation with the id changes, and only in its last message, which becomes the sent one; without a match the list is unchanged |
| Messages.OnMessageSent | client/src/hooks/useMessages.ts:148-189 | pages are updated, then conversations, and the socket payload is emitted only when both updaters ran |
| Messages.RemoveIdMembers | client/src/hooks/useMessages.ts:214 | the filter keeps exactly the messages with another id |
| Messages.RemoveIdAppend | client/src/hooks/useMessages.ts:213-215 | filtering a concatenation is concatenating the filtered parts, so survivors keep their order |
| Messages.RemoveIdAbsent | client/src/hooks/useMessages.ts:214 | a page without the id is unchanged |
| Messages.DeletePages | client/src/hooks/useMessages.ts:213-216 | the pages updater after a delete: each page filtered on its own |
| Messages.DeletePagesSpec | client/src/hooks/useMessages.ts:213-216 | the page count is kept; deleting page by page equals deleting from all messages at once; no page keeps the id; deleting again changes nothing |
| Messages.DeleteUpdate | client/src/hooks/useMessages.ts:211-219 | the `if (prevData)` wrapper of the delete updater: nothing cached stays nothing cached |
| Messages.ReplacementFor | client/src/hooks/useMessages.ts:232-239 | `newLastMessageSent`: null without cached pages, otherwise the first page's first element, undefined for an empty page |
| Messages.LastAfterDelete | client/src/hooks/useMessages.ts:228-260 | the conversations updater after a delete: a replacement last message from the cached pages, with its throw paths |
| Messages.LastAfterDeleteSpec | client/src/hooks/useMessages.ts:228-260 | a deleted last message is replaced by the first message of the remaining first page, or removed when that page is empty; another last message leaves the list; the new last message is never the deleted one |
| Messages.OnMessageDeleted | client/src/hooks/useMessages.ts:207-263 | the pages updater runs, then the conversations updater, which reads the pages it left |
| Messages.EditPages | client/src/hooks/useMessages.ts:286-297 | the pages updater after an edit: the messages with the id get the new text and the edited mark |
| Messages.EditUpdate | client/src/hooks/useMessages.ts:286-297 | the `if (prevData)` wrapper of the pages edit updater |
| Messages.EditPagesSpec | client/src/hooks/useMessages.ts:286-297 | exactly the messages with the id get the new text and the edited mark; every other field, message and page shape is kept; editing per page equals editing all at once; editing is idempotent |
| Messages.EditConversations | client/src/hooks/useMessages.ts:311-324 | the conversations updater after an edit: the matching conversation shows the new text as its last message |
| Messages.EditConversationsUpdate | client/src/hooks/useMessages.ts:311-324 | the `if (prevConversations)` wrapper of the conversations edit updater |
| Messages.EditConversationsSpec | client/src/hooks/useMessages.ts:311-324 | every conversation with the id shows the new text as its last message, whichever message was edited, keeping that message's id and time; other conversations are unchanged; editing is idempotent |
| Messages.OnMessageEdited | client/src/hooks/useMessages.ts:280-330 | the handler applies both edit updaters, and neither changes a missing entry |
| Messages.MarkRead | client/src/hooks/useMessages.ts:96-107 | the conversations updater after a page fetch: the matching conversation becomes read |
| Messages.MarkReadUpdate | client/src/hooks/useMessages.ts:96-107 | the wrapper of the mark-read updater: nothing cached stays nothing cached |
| Messages.MarkReadSpec | client/src/hooks/useMessages.ts:96-107 | only the first conversation with the id changes, and only to read; without a match the list is unchanged; marking is idempotent |
| Messages.OnPageFetched | client/src/hooks/useMessages.ts:94-108 | a page fetch marks the conversation read and changes nothing else |
| ConversationServer.RequestsFor | server/src/controllers/conversationsController.ts:83-89 | a request is listed iff the user is its sender or its recipient |
| ConversationServer.FindRequest | server/src/controllers/conversationsController.ts:29-31 | the request with the id, or -1 exactly when there is none |
| ConversationServer.ParticipantList | server/src/controllers/conversationsController.ts:125 | `[creatorIdParsed, ...participantIds]` |
| ConversationServer.IsSelfConversation | server/src/controllers/conversationsController.ts:126-127 | `conversationWithSelf`: exactly one requested id, equal to the creator |
| ConversationServer.NewMemberIds | server/src/controllers/conversationsController.ts:181-188 | a new conversation's rows are the creator followed by the requested ids, in order; a self-conversation has the creator alone |
| ConversationServer.QueryMatches | server/src/controllers/conversationsController.ts:131-150 | the two `where` filters: `every` participant in the list for a self lookup, `some` row for each listed id otherwise |
| ConversationServer.QueryMeaning | server/src/controllers/conversationsController.ts:131-150 | the self lookup finds conversations whose every participant is the creator, including one with no rows; the other lookup finds those containing the creator and every requested id |
| ConversationServer.NewRowsMatch | server/src/controllers/conversationsController.ts:131-188 | a new conversation's rows answer the lookup that created it |
| ConversationServer.FirstMatch | server/src/controllers/conversationsController.ts:152-179 | the first conversation the lookup finds, or -1 exactly when it finds none |
| ConversationServer.ViewOf | server/src/controllers/conversationsController.ts:170-177 | the answer for a found or created conversation: its id, title and its rows' users |
| ConversationServer.CreatedIsFoundFirst | server/src/controllers/conversationsController.ts:180-212 | after a creation the same lookup finds the new conversation first, so a repeated request finds it rather than creating again |
| ConversationServer.LatestMessage | server/src/controllers/conversationsController.ts:243-253 | the newest message of the conversation, present iff it has one |
| ConversationServer.MemberProjectionDefined | server/src/controllers/conversationsController.ts:273-276 | for a participant, reading `participants[1]` stays within the rows |
| ConversationServer.ReportedIsRead | server/src/controllers/conversationsController.ts:273-276 | the `isRead` projection: row 0's flag if that is the user's row, otherwise row 1's |
| ConversationServer.ReportedIsReadSpec | server/src/controllers/conversationsController.ts:273-276 | with at most two rows the reported flag is the user's own; a user who is not first gets the second row's flag |
| ConversationServer.Listed | server/src/controllers/conversationsController.ts:232-239 | the listing filter: the user has a row and the conversation has some message |
| ConversationServer.ListingOf | server/src/controllers/conversationsController.ts:272-285 | one listed entry: id, title, newest message, participants' users and the projected `isRead` |
| ConversationServer.Listing | server/src/controllers/conversationsController.ts:231-286 | `getAllConversations`' answer: one projected entry per conversation of the user that has messages |
| ConversationServer.ListingSpec | server/src/controllers/conversationsController.ts:231-286 | an entry is listed iff it projects a conversation with a row for the user and at least one message; each entry lists the user, and its last message is the newest |
| ConversationServer.MarkMembersRead | server/src/controllers/conversationsController.ts:300-308 | the `updateMany`: the rows of that conversation and user marked read, all others kept |
| ConversationServer.MembersOfMarked | server/src/controllers/conversationsController.ts:300-308 | marking read turns a conversation's rows into those rows marked |
| ConversationServer.MembersOfMarkedOther | server/src/controllers/conversationsController.ts:300-308 | marking read leaves every other conversation's rows unchanged |
| ConversationServer.ReadIsReported | server/src/controllers/conversationsController.ts:273-308 | once a user among the first two rows reads a conversation, the listing reports it read to them |
| ConversationServer.GroupReadQuirk | server/src/controllers/conversationsController.ts:273-276 | the third member of a group who has read is still shown the second member's unread flag |
| ConversationServer.ConversationStore.CreateConversation | server/src/controllers/conversationsController.ts:39-48 | creation adds an untitled conversation under the next id, with one row per user, and keeps the store invariant |
| ConversationServer.ConversationStore.SendRequest | server/src/controllers/conversationsController.ts:5-17 | a new request is PENDING, from the sender to the recipient, under the next id, answered 201 |
| ConversationServer.ConversationStore.AcceptRequest | server/src/controllers/conversationsController.ts:25-50 | whatever its status, the request becomes ACCEPTED, and a conversation with exactly the sender and the recipient is created; answered 404 when absent |
| ConversationServer.ConversationStore.DenyRequest | server/src/controllers/conversationsController.ts:58-71 | whatever its status, the request becomes DENIED, and nothing is created |
| ConversationServer.ConversationStore.GetConversationRequests | server/src/controllers/conversationsController.ts:79-109 | the answer holds exactly the user's sent and received requests |
| ConversationServer.ConversationStore.NewConversation | server/src/controllers/conversationsController.ts:116-220 | an empty list gives 400 with no change; the first match gives 200 with no change; otherwise a conversation is created (creator alone for a self-conversation) and answered 201, and afterwards the lookup finds it first |
| ConversationServer.ConversationStore.GetAllConversations | server/src/controllers/conversationsController.ts:227-287 | the listing holds exactly the user's conversations that have messages |
| ConversationServer.ConversationStore.ReadConversation | server/src/controllers/conversationsController.ts:294-311 | exactly the rows of that conversation and user become read; answered 200 even when there is none |

## Left out

- The cryptographic primitives are function-valued fields of `Library`, never implemented:
  - scrypt;
  - Kyber768 key generation, `encap` and `decap`;
  - AES-CBC;
  - `TextEncoder` and aes-js `utf8.toBytes`.
  Nothing is assumed about them beyond the named hypotheses.
- KEM correctness between initiator and accepter is not stated: the code encapsulates against its own fresh key.
- The decryption path of incoming messages, and the whole of `useGetMessages`, are not modelled (`client/src/hooks/useMessages.ts:14-56, 79-89`). That path reads the stored hex as UTF-8, unpads before decrypting, and uses an IV as long as the ciphertext. No encrypt/decrypt round trip is claimed.
- `getDecryptionKey` is not defined in `useMessages.ts`. The decryption key is a parameter of the message functions.
- The aes-js calls in `client/src/utils/aes.ts` are not modelled: CTR and CBC encrypt/decrypt, `btoa`/`atob`, `convertStringToBytes`, and `convertBytesToString`. Line 5 does not parse, and the `aesjs.util` calls name an API other than the `aesjs.utils` used elsewhere. Only the hex, padding, stripping and counter-block logic is modelled.
- AesUtils.HexStringToByteArray: a `string` here is a sequence of Unicode code points, while JavaScript's `length` and `substr` count UTF-16 code units. The two agree on the hex text the client itself produces, which is ASCII. For text with characters outside the Basic Multilingual Plane they differ, and so do `AesUtils.HexToNums` and `AesUtils.Chunk`: for "a😀" JavaScript splits the surrogate pair and yields [10, NaN], the model yields one chunk and [10].
- Messages.NumberedPages: React Query stores `undefined` as the first page parameter. The predicate speaks of the numbers the query function was called with, the first being its default 1, not of the stored `pageParams` entry.
- AesUtils.StripZeros: the buffer is modelled as a growable array. A typed array returned by the cipher has no `pop`, and that is not modelled.
- `client/src/utils/cryptoUtils.ts` is not part of this model.
- These files are not part of this model: `server/src/controllers/authController.ts`, `server/src/routes/conversations.ts`, and the UI components.
- The query hooks `useGetConversations` and `useConversationRequests` are not modelled: they fetch and hand back what the server sends. The mutation `useReadConversation` is not modelled either: it only sends a PUT.
- Transport is modelled by its payloads only:
  - HTTP calls by their URL and body;
  - router navigation by the `Navigation` value;
  - `socket.emit` by the `SocketMessage` payload.
  React Query's own fetching and storage is outside the model. The cache class keeps only what the handlers read and write.
- Concurrency and async suspension are not modelled: each hook and each handler is one sequential step.
- ConversationServer.ConversationStore.AcceptRequest: answers 404 for an unknown id, as its own branch says. The store library would throw on such an update, and the handler would then answer 500.
- ConversationServer.ConversationStore.DenyRequest: the same 404 reading as AcceptRequest.
- Failures in the server store are not modelled: constraint violations, unknown users, `parseInt` giving `NaN`, and the 500 answers of the `catch` blocks.
- The server's user records are not modelled. Participants are user ids, and requests are listed without their sender and recipient records.
- ConversationServer.Listing: lists in store order. The source orders by `dateLastMessage`, a column the messages controller maintains.
- The order of participant rows, and of `findMany` results, is taken as store order.
- The message table is written by the messages controller, which is not part of this model. The store takes it as given at construction.
- New participant rows start unread (`NewRowIsRead`). The database schema that sets this default is not part of this model.
- ConversationServer.ConversationStore.NewConversation: an empty participant list is an explicit 400 branch that changes nothing. The source's missing `return` after that response, and an absent `participants` field, are not modelled.
- The server never stores the `symkeyforme` and `ct` that the client sends, so the store holds no key material.
- The group `isRead` projection is modelled as written; `ConversationServer.GroupReadQuirk` shows its effect on a third member.


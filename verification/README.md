# Verification of the Clarity messenger's protocols

Clarity is an end-to-end encrypted messenger. Two accounts agree on a root key with a PQXDH
handshake, talk over a Double Ratchet, and exchange their messages through an untrusted relay or
over a store-carry-forward mesh. This project models the code that decides those things and proves
what it guarantees.

`dafny verify dfyconfig.toml` checks everything.

## How the model is built

Cryptographic values are terms. A key records how it was derived, a Diffie-Hellman output is the
unordered pair of the secrets behind it, a public key carries the number of its secret, and a
ciphertext records key material, plaintext and associated data. Opening succeeds exactly if those
match. Nothing is assumed about the primitives beyond this; there are no axioms. Secrets, message
ids, clocks and the coins of ML-KEM, which the code draws or reads, are parameters.

Code that changes state in place is a class or a method with the same fields, branches and loops:
`DoubleRatchet`, `Session`, `Account`, `MeshNode`, `Store`, `Cursor`, `Poller`, and the readers and
writers of the framing code. Each is proved equal to a function on values, and the theorems about
whole runs are about those functions. Lemmas carry `{:induction false}` throughout: every induction
is written out.

- `Results`, `KeySchedule`: shared values; the key schedule as a term algebra.
- `Ratchet`: the Double Ratchet, and the object that implements it in place.
- `Conversation`: two ratchet ends over a network that reorders, drops and repeats. A message that has
  been decrypted is not delivered again. The invariant links both ends' roots, chains, counters and
  caches to a history of alternating ratchet keys and to everything ever sent.
- `CacheLimit`: the exact condition, on state and header, under which a call to `decrypt` runs the
  cache full part-way through a skip.
- `KeyUse`: how often a message key is used when headers and ciphertexts are hostile.
- `Torn`, `TornRun`: what such a torn skip does, and runs, hostile and honest, that lead to one.
- `Lag`, `Replay`: the two consequences, in every state that can follow: which messages of a chain that
  lags behind its counter decrypt, and which states accept some packet twice.
- `Authenticity`: what an end accepts when the network delivers arbitrary headers with the ends' own
  ciphertexts.
- `Identity`, `Handshake`, `Session`, `Contact`: account and prekeys, the key agreement, sessions, and
  a whole contact from the first prekey message on, shown to be a conversation of `Conversation`.
- `Prekeys`: one-time prekeys from minting to the handshake, through the relay's directory.
- `Mesh`, `MeshNetwork`, `MeshDelivery`, `MeshRounds`: one node, any number of nodes meeting in any
  order, reachability, and synchronous gossip.
- `RelayStore`, `RelayMailbox`, `RelayFlush`: the relay's operations, what a mailbox returns as a
  function of its history, and the two-lock persistence protocol as interleaved atomic steps.
- `Framing`, `Envelope`, `PollWindow`: length-prefixed encodings, sealed envelopes and padding, and
  the rotating-inbox window.

## Where the code does less than its comments say

- `core/src/session.rs:24-26` gives as the reason for attaching the handshake header to every message
  that a lost first copy must not matter. Among the initiator's messages that holds exactly if the
  first arrival is numbered at most `MAX_SKIP` (`Contact.FirstMessageExactly`). In general `respond`
  accepts a packet with the header exactly if its number is within that bound and its ciphertext was
  sealed for it, and it spends the one-time prekey, if there is one, either way
  (`Contact.FirstPacketExactly`); every other message carrying the header then fails
  (`Contact.LateFirstMessageIsFatal`). `MAX_SKIP + 2` writes are enough for a first arrival too late
  (`Contact.LateFirstMessageHappens`).
- `skip_message_keys` advances `n_recv` inside its loop and writes `chain_recv` only after it. A cache
  that fills up part-way therefore leaves the chain behind its counter. Header and state decide
  beforehand whether a call does that (`CacheLimit.TearsExactly`). Five unauthenticated packets do it
  to a responder (`Torn.TearIsReachable`), and so do two honest ends whose network loses long stretches
  of messages (`TornRun.HonestTear`). Two things follow.
  - The chain's uncached messages are met with the lagging chain's keys: each decrypts exactly when its
    number is the one the chain has come to (`Lag.LaggingOpensExactly`), for as long as the end stays in
    the chain (`Lag.TornRunOpensExactly`). Those from the counter on fail at first
    (`Lag.TornRunLosesMessages`); delivered again after others, one can still decrypt, as the run of
    `TornRun.HonestTear` shows.
  - A packet can be accepted twice exactly in the states where a cached key of the current chain is
    still ahead of it (`Replay.ReplayableExactly`), and only tears lead to such states
    (`Replay.OnlyTearsMakeAhead`).
  A call that follows the peer to a new chain and gets as far as trying a key repairs both
  (`Replay.NewChainHeals`).
- `relay/src/store.rs:338` says `flush` forces a write. It backdates the last write by two seconds, and
  where the clock cannot express that reading it falls back to now. It then writes only if a second
  passes before it reads the clock again (`RelayStore.Store.Flush`). Whether a clock has such readings
  is up to the platform.
- `app/lib/src/state/app_state.dart:49-51` calls the window 30 days' worth; it asks for 31 inboxes
  exactly if the epoch is at least 29 and the last successful poll 28 or more epochs back
  (`PollWindow.WindowsAreSmall`).
- Length prefixes are written with `as u32`, so a payload of 2^32 bytes or more is cut on opening
  (`Envelope.OpenInvertsSeal`), and a client state whose identity, public key or encoded key store is
  that long is not restored (`Framing.ImportInvertsExport`).

## Model

| member | source | states |
|---|---|---|
| Conversation.EveryDeliveryDecrypts | core/src/ratchet.rs:90-189 | In every run of two ends over a network that reorders and drops, a message not yet decrypted yields exactly its sender's plaintext if its gaps are within MAX_SKIP and the cache has room, and the decryption error otherwise; within the limits the delivery never tears a skip |
| Conversation.EndsOneStepApart | core/src/ratchet.rs:50-86 | In every such run the ends' root-step counts differ by exactly one; the end ahead holds the root, and at index 0 the chain, that the other will derive next from its current secret |
| Conversation.ReachedIsDecryptedOrCached | core/src/ratchet.rs:116-168 | In every such run each message numbered below the point its receiver has reached in its chain is decrypted or cached, never both, nothing beyond that point is either, and a cached key opens its message |
| Conversation.RunKeepsInv | core/src/ratchet.rs:90-189 | Every step of every run keeps the invariant that ties roots, chains, counters and caches of both ends to all traffic |
| Conversation.StartOk | core/src/ratchet.rs:50-86 | The two freshly initialised ends satisfy that invariant |
| Conversation.WriteKeepsInv | core/src/ratchet.rs:90-105 | Encrypting at either end keeps the invariant; an end without a sending chain changes nothing |
| Conversation.DeliverKeepsInv | core/src/ratchet.rs:108-140 | Delivering any undecrypted message keeps the invariant, unless the delivery meets the tearing condition |
| Conversation.DeliverTo | core/src/ratchet.rs:108-140 | One delivery at one end: result decided by the limits alone, position moved by two only for a message of the peer's next chain, the slot recorded exactly on success, and the end in order unless the skip tore |
| Conversation.SkipInChain | core/src/ratchet.rs:143-169 | A skip to a number the sender has reached completes exactly when gap and cache allow it and then leaves the end in order; a refused skip changes nothing |
| Conversation.RatchetInStep | core/src/ratchet.rs:172-189 | Having finished its current chain, an end that ratchets to the peer's next key derives the root and chain the peer already sends on |
| Conversation.AlignCurrent | core/src/ratchet.rs:129-135 | For a message of the chain being received, alignment succeeds exactly within the limits and yields that message's key |
| Conversation.AlignNext | core/src/ratchet.rs:123-135 | For the first arrival from the peer's next chain, finishing the old chain, ratcheting and skipping succeed exactly within the limits and yield that message's key |
| Ratchet.SkipLoopWithRoom | core/src/ratchet.rs:155-168 | With room and free slots the skip caches exactly the keys of the numbers passed over, each in its slot, and moves the chain to the target |
| Ratchet.SkipLoopWithoutRoom | core/src/ratchet.rs:157-161 | Without room the loop stops early, before its first insertion exactly when the cache was full to begin with |
| Ratchet.DoubleRatchet.Initiator | core/src/ratchet.rs:50-66 | The initiator's object starts in the specified state |
| Ratchet.DoubleRatchet.Responder | core/src/ratchet.rs:72-86 | The responder's object starts in the specified state |
| Ratchet.DoubleRatchet.EncryptMessage | core/src/ratchet.rs:90-105 | The in-place method has exactly the specified result and new state, the error included |
| Ratchet.EncryptsExactly | core/src/ratchet.rs:90-105 | Encrypting fails exactly for want of a sending chain, with the unexpected-message error, and then changes nothing |
| Ratchet.DoubleRatchet.DecryptMessage | core/src/ratchet.rs:108-140 | The in-place method has exactly the specified result and new state on all three paths and every early return |
| Ratchet.DoubleRatchet.SkipTo | core/src/ratchet.rs:143-169 | The loop that inserts and counts in place ends in the specified state, also on the cache-full return |
| Ratchet.DoubleRatchet.RatchetTo | core/src/ratchet.rs:172-189 | The sequence of field updates amounts to the specified double root step |
| KeySchedule.AeadOpen | core/src/kdf.rs:117-135 | Opening succeeds only on what was sealed with the same key and associated data, and its only error is the decryption error |
| KeyUse.NoKeyOrNonceRepeats | core/src/ratchet.rs:90-105 | Over a whole session with hostile input to decrypt, no AEAD key and no nonce is used for two ciphertexts, by one end or across the ends |
| KeyUse.DecryptAndSending | core/src/ratchet.rs:108-189 | On any input, decrypt leaves the sending chain alone or replaces it by the start of a chain two root steps deeper |
| KeyUse.NoKeyTriedTwice | core/src/ratchet.rs:108-189 | Under any inputs none of which meets the tearing condition, no message key is handed to aead_open twice and no ciphertext is accepted twice |
| CacheLimit.LoopEnds | core/src/ratchet.rs:155-168 | For any cache, old keys of the same number included, the loop finishes exactly if room is left for all free numbers but the last, adds one key per free number, and otherwise stops before its first turn exactly if the cache was full |
| CacheLimit.TearsExactly | core/src/ratchet.rs:108-169 | For every state and header, decrypt takes the cache-full return part-way if and only if a condition on cache, counters and header holds before the call |
| Torn.TornSkip | core/src/ratchet.rs:157-167 | A torn skip leaves the chain's next key in the cache under a number the counter has passed, and caches nothing from the counter on |
| Torn.TearIsReachable | core/src/ratchet.rs:143-169 | From a fresh responder four unauthenticated packets tear nothing and a fifth tears |
| Replay.ReplayableExactly | core/src/ratchet.rs:108-189 | In every state reached by any inputs, torn or not, some packet can be accepted now and once more later if and only if the cache holds a key of the current chain that the chain has not yet passed |
| Replay.OnlyTearsMakeAhead | core/src/ratchet.rs:143-169 | From any reachable state without such a key, one more input leads to one if and only if it meets the tearing condition |
| Replay.NewChainHeals | core/src/ratchet.rs:123-139 | From any reachable state, torn or not and whatever was received since, a call that follows the peer to a new chain and tries a key leaves no such key, and counter and chain in agreement |
| Authenticity.AcceptedIsAuthentic | core/src/ratchet.rs:90-189 | With arbitrary headers and prefixes on the ends' own ciphertexts or junk, every accepted text is one the peer encrypted under exactly that header and prefix; and if no call tears, no ciphertext is accepted twice at either end |
| Lag.LaggingOpensExactly | core/src/ratchet.rs:116-139 | In a chain that lags behind its counter, a genuine message decrypts if and only if its own key is cached or, uncached, its number is the one the chain has come to |
| Lag.LagStays | core/src/ratchet.rs:116-169 | Whatever arrives under the chain's ratchet key, the chain stays behind its counter and never goes back |
| Lag.TornRunOpensExactly | core/src/ratchet.rs:129-167 | In every run of two honest ends, from a torn delivery on and for as long as nothing arrives under another ratchet key, every uncached message of the torn chain decrypts if and only if its number is the one the chain has come to |
| Lag.TornRunLosesMessages | core/src/ratchet.rs:129-167 | In every run of two honest ends, right after a torn delivery every message sent in the torn chain and numbered from the counter on fails to decrypt |
| TornRun.HonestTear | core/src/ratchet.rs:129-167 | Some run of two honest ends, losing messages but forging none, leads to a delivery that tears; the message delivered fails, fails again after its predecessor was delivered and failed, and decrypts on the third delivery |
| Handshake.HandshakeAgrees | core/src/handshake.rs:26-93 | From any bundle of his, the responder derives the initiator's root, with or without a one-time prekey, spends that prekey, and refuses if it is gone |
| Handshake.RootBindsHeader | core/src/handshake.rs:63-93 | A header that leads the responder to that root carries the same identity key, ephemeral key, one-time secret and ML-KEM ciphertext |
| Handshake.RootBindsBundle | core/src/handshake.rs:33-46 | Every key of the bundle enters the root: equal roots from one account and ephemeral come from equal identity, signed, one-time and ML-KEM keys |
| Handshake.RespondsExactly | core/src/handshake.rs:63-93 | A header is answered exactly if both prekey ids are the account's, its one-time prekey, if any, is pooled, and its ciphertext is well-formed; each refusal has its error, and the one-time prekey is spent exactly if the first two conditions hold |
| Handshake.RespondToHandshake | core/src/handshake.rs:63-93 | The method on the account object has exactly the specified result and pool, including the prekey spent before a failing decapsulation |
| Identity.PublicsArePool | core/src/identity.rs:160-165 | The upload list is the pool: ascending ids, each with its key, none missing |
| Identity.OwnBundleIsLowest | core/src/identity.rs:85-108 | The account's own bundle offers the lowest pooled one-time prekey, and none only from an empty pool |
| Identity.VerifiesExactly | core/src/identity.rs:243-260 | A bundle passes exactly if each of its three keys carries the identity's signature for that key and purpose; otherwise a bad signature is reported |
| Identity.NoKeyIsSubstituted | core/src/identity.rs:243-260 | If the account's only signatures are those in its own bundles, whatever passes under its identity has its identity, signed and ML-KEM keys |
| Identity.ReplenishMints | core/src/identity.rs:168-178 | Replenishing adds exactly the next ids and no id ever minted before |
| Identity.Account.Generate | core/src/identity.rs:47-68 | A new account holds one-time prekeys 0 to count-1 and will mint count next |
| Identity.Account.TakeOneTimePrekey | core/src/identity.rs:146-150 | Taking removes exactly the prekey it returns, or changes nothing and fails |
| Identity.Account.ReplenishOneTimePrekeys | core/src/identity.rs:168-178 | The loop mints one prekey per draw and returns the new ids in order |
| Identity.Account.OneTimePrekeyPublics | core/src/identity.rs:160-165 | The iteration yields the upload list |
| Session.Session.InitiateWith | core/src/session.rs:35-45 | A session object as specified, or the bundle's verification error |
| Session.InitiatesExactly | core/src/session.rs:35-45 | A session opens exactly if all three keys of the bundle carry the identity's signature for that key and purpose, and then over the root and prefix of that bundle with the header pending; otherwise a bad signature is reported |
| Session.OnlyOwnKeysOpen | core/src/session.rs:35-45 | Whatever a relay serves under an account's identity, with no other signatures of it and the ids and one-time prekey of its pool, a session that opens has the root the account derives |
| Session.Session.RespondTo | core/src/session.rs:49-73 | Session, first plaintext and account as specified, the account's change on failing paths included |
| Session.OnlyPreKeyStarts | core/src/session.rs:49-59 | A normal message is refused as unexpected without touching the account, and a session starts only from an answered handshake |
| Session.Session.EncryptText | core/src/session.rs:76-86 | Encrypts in place and attaches the pending handshake header exactly while there is one |
| Session.Session.DecryptText | core/src/session.rs:89-101 | Decrypts in place and drops the pending header exactly on success |
| Contact.EveryMessageArrives | core/src/session.rs:35-101 | From the first prekey message on, a message not yet decrypted yields its sender's text if its gaps are within the limits and the decryption error otherwise: handshake, session set-up and ratchet together; within the limits the contact may go on with it |
| Contact.HandshakeRidesAlong | core/src/session.rs:76-101 | Until the responder has a session every message is the initiator's and carries the one original header; the initiator attaches it exactly until its first successful decrypt; the responder never does |
| Contact.FirstMessageExactly | core/src/session.rs:49-73 | A responder without a session accepts the message that reaches it first exactly if its number is within MAX_SKIP; otherwise nothing changes if there is no one-time prekey, and with one no message sent so far opens any more |
| Contact.FirstPacketExactly | core/src/session.rs:49-73 | For any packet carrying the initiator's header, forged or not: respond accepts it exactly if its number is within MAX_SKIP and its ciphertext was sealed for that header and the two identities; either way the one-time prekey is spent |
| Contact.LateFirstMessageIsFatal | core/src/handshake.rs:72-76 | A first arrival numbered beyond MAX_SKIP fails; it leaves the account alone without a one-time prekey and otherwise spends it, after which every message with that header is refused |
| Contact.LateFirstMessageHappens | core/src/session.rs:49-73 | MAX_SKIP + 2 writes lead to a contact with such a message, and to the loss of all of them if it arrives first with a one-time prekey in use |
| Contact.OpeningLinked | core/src/session.rs:35-45 | A freshly opened contact is a freshly started conversation over the handshake's root |
| Contact.WriteStep | core/src/session.rs:76-86 | Encrypting in a session is a step of the ratchet conversation and keeps the pending-header discipline |
| Contact.DeliverStep | core/src/session.rs:49-101 | Receiving, by respond or by decrypt, is a step of the ratchet conversation with the same result |
| Prekeys.OneTimePrekeysAreUsedOnce | core/src/identity.rs:146-178 | For every interleaving of publishes, fetches, replenishments and handshakes, hostile headers included: no one-time prekey completes two handshakes, no id is minted twice, and dispensed followed by remaining is the published list |
| Prekeys.FetchedBundlesWork | relay/src/store.rs:185-219 | After every interleaving, if the account's own publish is the current one, the relay hands out a bundle that verifies and gives its user the account's root key, unless its one-time prekey has been spent and the account refuses |
| Mesh.MeshNode.WithTtl | mesh/src/lib.rs:89-99 | A new node is empty |
| Mesh.MeshNode.OriginateMessage | mesh/src/lib.rs:104-116 | Marks, stores and returns the frame as specified |
| Mesh.MeshNode.HandleIncoming | mesh/src/lib.rs:121-141 | Dedup, delivery and onward copy as specified, with the reception reported |
| Mesh.MeshNode.OutboundFrames | mesh/src/lib.rs:144-155 | Yields the stored frames in order of first storing |
| Mesh.MeshNode.TakeInbox | mesh/src/lib.rs:158-160 | Returns the inbox and empties it |
| Mesh.MeshNode.Mark | mesh/src/lib.rs:167-176 | Bounded first-in-first-out insertion into the seen set |
| Mesh.MeshNode.Keep | mesh/src/lib.rs:178-188 | Bounded first-in-first-out insertion into the store; a known id is overwritten in place |
| Mesh.HandleKeeps | mesh/src/lib.rs:121-141 | Handling any frame keeps both memories equal to their duplicate-free, bounded queues |
| Mesh.HandlesExactly | mesh/src/lib.rs:121-141 | A seen id is reported as duplicate and changes nothing; any other frame is marked, delivered exactly at its recipient, kept with one hop less exactly if that leaves any, and reported so |
| Mesh.OriginatesExactly | mesh/src/lib.rs:104-116 | The frame returned carries the node's ttl and is marked, stored as returned and delivered to nobody |
| Mesh.KeepsExactly | mesh/src/lib.rs:178-188 | A stored frame is always kept, as the newest if its id is new; at STORE_CAP the oldest id and no other gives way |
| Mesh.CarriesTheLatest | mesh/src/lib.rs:144-188 | After any inputs a node carries exactly the last STORE_CAP ids it came to carry anew, and offers them oldest first |
| Mesh.OffersAreStore | mesh/src/lib.rs:144-149 | A node offers each frame of its store exactly once and nothing else |
| Mesh.MarkedAgainOnlyAfterWindow | mesh/src/lib.rs:167-176 | If a node marks the same id twice, at least SEEN_CAP other distinct ids were marked in between |
| MeshNetwork.ReachesHasPath | mesh/src/lib.rs:151-155 | A node reached by the contacts in h hops has a time-respecting path of h contacts from the origin |
| MeshNetwork.PathReaches | mesh/src/lib.rs:151-155 | Conversely a time-respecting path of contacts reaches its end in as many hops |
| MeshNetwork.BudgetPlusHopsIsConstant | mesh/src/lib.rs:121-148 | In every run, evictions included, a carried copy's ttl plus the contacts it travelled is the origin's ttl, and nobody more than max(ttl, 1) contacts away has seen it |
| MeshDelivery.SeenExactlyWhereReachable | mesh/src/lib.rs:104-155 | With a ttl of at least the number of nodes and at most STORE_CAP ids, the nodes that have seen a frame are exactly those a time-respecting path leads to, and each such recipient other than the origin gets the payload exactly once |
| MeshDelivery.LettersAreInbox | mesh/src/lib.rs:127-130 | What a site is said to have received is what its inbox held, drained and undrained, in order |
| MeshRounds.RoundsReachTheBall | mesh/src/tests.rs:13-30 | After r synchronous rounds without eviction the nodes that have seen a frame are exactly the graph ball of radius min(r, max(ttl, 1)), and recipients in it have it once |
| MeshRounds.ServeTotals | mesh/src/tests.rs:13-30 | A round's count of acceptances is the growth of the seen sets, and a round that counts none leaves every node as it was |
| MeshRounds.GossipComesToRest | mesh/src/tests.rs:33-39 | With at most SEEN_CAP ids some round among the first N*M+1 accepts nothing, and nothing changes from then on |
| MeshRounds.AcceptancesBounded | mesh/src/lib.rs:121-126 | However N nodes meet, with M ids, at most SEEN_CAP, there are at most N*M acceptances |
| RelayMailbox.QueueIsLongestSuffix | relay/src/store.rs:235-264 | For all limits and any clock, a mailbox that is not swept holds the longest suffix within both caps of the messages accepted since its last poll |
| RelayMailbox.PollReturnsHistory | relay/src/store.rs:272-286 | With a clock that never runs back, and sweeps anywhere, a poll returns the unexpired part of that suffix, in order, and empties the mailbox |
| RelayMailbox.PollReturnsYoung | relay/src/store.rs:272-286 | Message by message: the poll's answer is the last part of that suffix, namely the mail whose arrival plus the time to live is not before now |
| RelayMailbox.SweepingIsInvisible | relay/src/store.rs:250-309 | Two stores given the same enqueues and polls, one swept at arbitrary points, answer every poll alike |
| RelayStore.LongestIsLongest | relay/src/store.rs:250-260 | The longest fitting suffix is a suffix, fits both caps, and no longer suffix does |
| RelayStore.TrimIsLongest | relay/src/store.rs:250-260 | The two trimming loops together compute it |
| RelayStore.LongestAgain | relay/src/store.rs:245-260 | Trimming after every arrival gives what trimming the whole history at the end would |
| RelayStore.TotalIsLength | relay/src/store.rs:254 | The running total of a queue is the length of its messages joined |
| RelayStore.PublishThenFetch | relay/src/store.rs:185-219 | After a publish the k-th fetch hands out the bundle with the k-th uploaded one-time prekey, then with none; other identities and mail are untouched |
| RelayStore.UnknownIdentity | relay/src/store.rs:205-207 | A fetch is answered exactly for identities that published, and otherwise changes nothing |
| RelayStore.Store.PublishKeys | relay/src/store.rs:185-201 | Replaces the identity's keys, strips the base bundle's one-time prekey, marks dirty |
| RelayStore.Store.FetchBundle | relay/src/store.rs:205-219 | Hands out the next one-time prekey and removes it, marking dirty exactly if one was consumed |
| RelayStore.Store.EnqueueAt | relay/src/store.rs:235-264 | Refuses oversize messages; otherwise appends, runs both trimming loops as specified and marks dirty |
| RelayStore.Store.PollAt | relay/src/store.rs:272-286 | Drains the mailbox and returns its unexpired messages, marking dirty exactly if there was a mailbox |
| RelayStore.PollExactly | relay/src/store.rs:272-286 | For any mailbox and clock, a poll returns in order exactly the messages whose arrival plus the time to live is not before now, removes the mailbox and touches no other |
| RelayStore.Store.SweepExpiredAt | relay/src/store.rs:294-309 | Leaves the specified mailboxes and returns exactly the number of queued messages older than the time to live, marking dirty exactly if there were any |
| RelayStore.SweepExactly | relay/src/store.rs:294-309 | After a sweep each mailbox holds, in order, exactly its mail whose arrival plus the time to live is not before now, and is present exactly if there is any |
| RelayStore.Store.MaybeFlush | relay/src/store.rs:314-336 | Saves and cleans exactly if persistent, dirty and a second has passed since the last write |
| RelayStore.Store.Flush | relay/src/store.rs:339-350 | Saves, dirty or not, exactly if the clock can express a reading two seconds back or a second passes between its two readings; otherwise writes nothing and stays dirty |
| RelayStore.Store.MarkDirty | relay/src/store.rs:352-361 | Marks only a file-backed store |
| RelayStore.Store.Open | relay/src/store.rs:152-178 | Opens exactly on a missing file, as the empty store, or a snapshot of the known version, as its contents, and is then clean; fails with the respective error on any other version, a corrupt or an unreadable file |
| RelayFlush.CleanMeansSaved | relay/src/store.rs:314-361 | In every interleaving, a clean store with no thread between its two locks has all keys and mail in the file; at all times the file is the store as it was at some moment |
| RelayFlush.FileMovesForward | relay/src/store.rs:322-334 | The file never goes back to an earlier moment |
| RelayFlush.FlushSaves | relay/src/store.rs:314-336 | An undisturbed flush of a dirty store leaves the file up to date and the store clean |
| RelayFlush.ForcedFlushSaves | relay/src/store.rs:339-350 | A forced flush leaves the file up to date and the store clean, marked before or not |
| RelayFlush.EarlyFlushDoesNothing | relay/src/store.rs:314-321 | A flush does nothing exactly if the store is clean or it is not due |
| RelayFlush.UnmarkedIsInvisible | relay/src/store.rs:185-309 | An operation that does not mark the store dirty changes at most empty mailboxes |
| Framing.UnframeInvertsFrame | group/src/lib.rs:350-367 | unframe yields fields exactly for the frame of those fields, given their count, with every length below 2^32 |
| Framing.Cursor.constructor | group/src/lib.rs:376-378 | A new cursor has everything before it |
| Framing.Cursor.ReadU32 | group/src/lib.rs:380-385 | Reads a little-endian word and moves on, or stays where it is |
| Framing.Cursor.ReadBytes | group/src/lib.rs:387-393 | Reads one field and moves behind it; if the field is cut short only its length is consumed |
| Framing.Cursor.IsDone | group/src/lib.rs:395-397 | Exactly if nothing is left |
| Framing.WriteFrame | group/src/lib.rs:350-357 | The appending loop writes the frame |
| Framing.ReadFrame | group/src/lib.rs:360-367 | The cursor loop is unframe |
| Framing.WriteState | group/src/lib.rs:172-189 | The nested appending loop writes the state's encoding |
| Framing.ReadStore | group/src/lib.rs:203-212 | The cursor loop inserts the entries in order and rejects trailing bytes |
| Framing.StoreReadsExactly | group/src/lib.rs:203-212 | A key store is read exactly from encodings of entry lists, nothing missing and nothing behind, and yields what inserting the entries in order does |
| Framing.ReadState | group/src/lib.rs:194-213 | Identity, public key and key store as specified, or nothing |
| Framing.StateReadsExactly | group/src/lib.rs:194-213 | A client state is read exactly from the frame of an identity, a public key and a readable key store |
| Framing.LastEntryWins | group/src/lib.rs:205-209 | Of entries with the same key the last one counts |
| Framing.ImportInvertsExport | group/src/lib.rs:172-213 | In whatever order the map yields its entries, importing the export restores identity, public key and map if and only if identity, public key and encoded key store are each shorter than 2^32 bytes |
| Framing.WriteByteList | ffi/src/lib.rs:55-63 | The appending loop writes the count and the items |
| Framing.ReadByteList | app/lib/src/ffi/clarity.dart:326-339 | The offset loop reads the list, its range error included |
| Framing.DecodeInvertsEncode | app/lib/src/ffi/clarity.dart:326-339 | The reader returns items exactly for bytes that start with their encoding, and the empty list below four bytes |
| Framing.WriteThenRead | group/src/lib.rs:353-382 | Writing a length and reading it back keeps it modulo 2^32 |
| Framing.ReadThenWrite | group/src/lib.rs:353-382 | Every four bytes are the word they spell |
| Framing.LowByteFirst | group/src/lib.rs:353 | A length's low byte comes first, followed by the bytes of the rest of the number |
| Envelope.BucketIsLeastSize | core/src/envelope.rs:80-89 | The bucket is the least of 512, 1024, 2048, 4096 and the multiples of 8192 that holds payload and prefix, and above 512 is less than twice what is needed |
| Envelope.SealEnvelope | core/src/envelope.rs:104-134 | The buffers assembled in place are the specified envelope |
| Envelope.PaddedWithZeros | core/src/envelope.rs:117-123 | What is sealed is both identity keys, the length, the payload and zeros, 64 bytes longer than the bucket |
| Envelope.OneKeyPerEnvelope | core/src/envelope.rs:188-198 | Ephemeral and recipient determine the sealing key and it determines them, from either side |
| Envelope.OpenInvertsSeal | core/src/envelope.rs:104-186 | The recipient gets sender keys and payload back if and only if the payload's length fits 32 bits; no one else can open the envelope |
| Envelope.OpensExactly | core/src/envelope.rs:140-186 | An envelope opens to given contents exactly if it has this version, was sealed for the recipient under the ephemeral key it shows, and holds those contents with any padding |
| Envelope.LengthRevealsOnlyTheBucket | core/src/envelope.rs:117-133 | An envelope is 113 bytes longer than its bucket on the wire, so two have equal length exactly if their payloads share a bucket |
| PollWindow.Poller.PollOnce | app/lib/src/state/app_state.dart:302-322 | The loop asks for the specified window, and only an answered poll is remembered |
| PollWindow.AsksExactly | app/lib/src/state/app_state.dart:302-311 | A poll asks, in order and once each, for exactly the epochs from one before the last successful poll, or before the current one on a first run, to one after the current, none more than 29 epochs back |
| PollWindow.FirstPollFindsMail | app/lib/src/state/app_state.dart:302-311 | A first poll finds mail filed by a clock at most a day off the poll's |
| PollWindow.EpochIsDay | core/src/inbox.rs:36-41 | An epoch contains exactly the seconds of one day |
| PollWindow.WindowsAreSmall | app/lib/src/state/app_state.dart:305-311 | No window exceeds 31 inboxes; it has 31 exactly from epoch 29 on with the last successful poll at least 28 epochs back, and is empty exactly if the clock has run back more than two epochs |
| PollWindow.NextPollCoversExactly | app/lib/src/state/app_state.dart:302-322 | Between consecutive successful polls, every sender epoch within one of the receiver's is covered exactly if the epochs are not too far apart; 28 always suffices |
| PollWindow.MailIsPolled | core/src/inbox.rs:39-63 | In clock time: mail sent between two successful polls at most 28 epochs apart, by a clock at most a day off, lies in the second poll's window |

## Left out

- Inside the primitives: X25519, Ed25519, ML-KEM, HKDF, HMAC, SHA-256 and XChaCha20-Poly1305 are terms; malformed public keys and low-order points do not occur.
- Secrecy against an observer: nothing is claimed about what an attacker can compute.
- Counter wrap-around at 2^32: message numbers and prekey ids are unbounded; `u64` epochs and times too.
- Rollback: `decrypt` commits its state before the ciphertext is opened, so honest runs deliver no message again once it was decrypted.
- Contact.EveryMessageArrives: runs exclude deliveries that would tear a skip and a first arrival numbered beyond `MAX_SKIP`; Lag, Replay and Contact.FirstMessageExactly say what happens then. The account's pool is touched by this contact only; Handshake.HandshakeAgrees covers other changes to it.
- Conversation.EveryDeliveryDecrypts: runs exclude deliveries that meet the tearing condition, after which it is false (Lag.TornRunOpensExactly and TornRun.HonestTear say what then holds).
- MeshDelivery.SeenExactlyWhereReachable: needs a budget of at least the number of nodes and no eviction; MeshNetwork.BudgetPlusHopsIsConstant holds without either.
- RelayMailbox.SweepingIsInvisible: needs a clock that never runs back.
- RelayStore.Store: methods run one after another; interleavings are the subject of RelayFlush, on values.
- RelayStore.Store.Open: how a file's bytes decode; a read yields a snapshot or one of three failures. The file is one cell that is replaced atomically.
- RelayStore.Store.Flush: which readings the clock can express is a parameter; the standard library's clock is not part of this model. Other threads between its two locks are the subject of RelayFlush.
- Poisoned mutexes, the temporary file, and the encoding of snapshots, messages and headers, which are treated as values.
- Serialization of accounts, sessions and ratchets; `core/src/enclave.rs`; `core/src/safety.rs`.
- OpenMLS operations, and the signer lookup at the end of `import_state`.
- Framing: offsets that overflow the machine's address width.
- Both contacts initiating at once, and overlapping polls in the app.
- `MeshTransport`, the encoding of mesh frames and the radio; HTTP, Tor, FFI pointers, the user interface and secure storage.

# SipWitchQt: messages, registrations and presence

SipWitchQt is a SIP registrar and messaging server with a desktop client. This project models the parts
of it whose behaviour is decided by its own code, and proves what those parts promise.

- **Offline delivery.** The server files one outbox row per endpoint and message (status 0, 100, 200).
  `Outbox.dfy` says what each database handler does to the tables, `Database.dfy` is the database thread's
  handlers row by row, and `Delivery.dfy` is the protocol: handlers, a network that loses, repeats and
  delays, deletions with their cascades, and clients that ask, take and acknowledge. `Draining.dfy` says what
  one request achieves, `LateAcks.dfy` which acknowledgements come too late, and `Reachable.dfy` helps to show
  that a state can be reached.
- **The client's conversations.** `Ordering.dfy` and `Sessions.dfy` describe lists, stamps, topics and the
  message store; `SessionWindow.dfy` is the conversation object with its scans and in-place insertions;
  `Convergence.dfy` proves what order, repetition and interleaving of arrivals cannot change;
  `EndToEnd.dfy` joins server rows to the client's store.
- **Registrations.** `Registry.dfy` is one registration with its nonces, `Digest.dfy` the digest both sides
  compute, `Lifecycle.dfy` any run of challenges and attempts. `RegistryIndex.dfy` (with `Indexes.dfy` and
  `Bitmap.dfy`) describes the four hashes, the counts and the online bits, `Registrar.dfy` keeps them, and
  `Authorize.dfy` is the directory that hands out what to register.
- **Presence.** `Base64.dfy` and `Xdp.dfy` are the text a server sends with a registration and its parsing,
  `Listener.dfy` and `Phonebook.dfy` the client objects that read it, `Presence.dfy` the whole way.
- **Smaller parts.** `Escape.dfy` and `Uri.dfy` (URIs), `Labels.dfy`, `Devices.dfy` and `Trust.dfy` (device
  verification), `Reconnect.dfy` (reopen and retry), `Threads.dfy` (start and stop order), `Text.dfy` and
  `UString.dfy` (number and string helpers).

Code that changes state is a class whose methods are proved equal to functions on values; the theorems are
about those functions and about runs of them. A class's `Valid()` or `Inv` holds after every method that
starts from it, so it holds in every state such calls can reach; the two operations that can break theirs
(`Registrar.Create` and `SessionItem.FinishInput`) have the exact condition under which they do not. A session's
`Add`, `AddMessage` and `Save` are parts of its operations and keep their own halves only.

## What the proofs assume

- Times are integers. Hash functions are arbitrary functions; so is Qt's reading of an escape whose two
  characters are not hexadecimal digits. Letter case is ASCII.
- The database enforces the keys, references and cascades its schema declares. (The pragmas it sends do not
  turn foreign keys on.) Each handler is atomic, as all of them share one thread.
- An acknowledgement that reaches the server does so before a later pending request of that client is served.
  Otherwise requests, answers and pushes may be lost, repeated, late or out of order; a request is answered at
  most once. `LateAcks.LateAckIsSafeIff` says exactly which later acknowledgements would do harm.
- A session is the active one only when it is loaded, as activating a session loads it.

## What came out false or unexpected

- An acknowledgement that arrives after a later pending request was served marks messages done that were never
  handed over, unless all that was offered since has been.
- One cycle of request, answer and acknowledgement does not always drain an outbox: a late failure of an
  earlier push, taken in between, leaves its row undone.
- A contact that enters the roster after the client walked a bitmap shows offline, though its number is live,
  until the bitmap changes or the client reconnects. A brand-new client starts that way.
- `changeOnline` lets the number 1000 through, one past the end of its array; no caller passes it.
- `finishInput` shows the text it stored without asking whether storing it worked, and whether the session is
  loaded: the list then agrees with the store exactly when the session is loaded and the key is new.
- Two registrations created for one device (two first contacts answered one after the other) strand the
  first: no hash finds it any more and its number stays online.
- The last number of the dialing range is never walked by the client's bitmap decoder.
- The roster's change counter is sent modulo 8192, so a multiple of 8192 changes goes unnoticed.
- "sips:" with its default port 5061 left out reads back as 5060; an address with colons does not read back.
- That the database could not be opened for the first time is not remembered; only a failed reopening after
  a failed query is.
- A number too large for an int reads as 0: a message to it goes to the operators, the members of group 0, or,
  when there are none, to the public lobby, which under the policy "public" is everyone.
- A registration that was released but not yet deleted can register again; it then counts as expired at the next
  tick all the same, as its timeout stays 0.

## Model

| member | source | states |
|---|---|---|
| Outbox.NextMidIsFresh | Database/sqldriver.cpp:138-158 | A new message's id is taken by no message and by no outbox row |
| Outbox.PostedRows | Database/database.cpp:726-736 | A post files exactly one row per recipient, done or pending as told, and leaves the schema's keys and references sound |
| Outbox.CopiedRows | Database/database.cpp:430-441 | After a copy a known target has a row for each of the source's messages, new ones pending; no row there was changes, and nothing else is added |
| DatabaseThread.Database.CopyOutbox | Database/database.cpp:430-441 | The loop over the source's rows has exactly the effect of `CopyOutbox` on the tables |
| Outbox.SyncOwesAll | Database/database.cpp:443-447 | After a synchronization the endpoint is owed every message it has a row for, and no other endpoint is owed anything different |
| Outbox.ResponseSettlesOne | Database/database.cpp:491-501 | After an answer to a push that message is owed unless the answer is 200, and nothing else changes |
| Outbox.AckSettlesOffered | Database/database.cpp:739-746 | An acknowledgement settles exactly what was being tried, and not what came to be owed since |
| Outbox.OfferedThenAcknowledged | Database/database.cpp:739-787 | An answer leaves as much owed as before; acknowledged at once it leaves nothing |
| DatabaseThread.Database.SendPending | Database/database.cpp:748-787 | The answer lists each message of the endpoint not yet done once, and exactly those rows are now being tried |
| DatabaseThread.Database.AdminMessage | Database/database.cpp:503-565 | Posts to the endpoints of the addressed extension, sends to exactly those, and does nothing but report it when the message cannot be stored |
| Outbox.AdminMessageIs | Database/database.cpp:503-565 | An admin message is filed as pending for exactly the endpoints of its extension and carries its numbers, text, subject, stamp and expiry |
| DatabaseThread.Database.OwnOutbox | Database/database.cpp:583-606 | The sender's own endpoints, and which two of them have the message already |
| DatabaseThread.Database.GatherTargets | Database/database.cpp:608-629 | The extensions addressed, each once: for a number whose group table rows are not empty those members but the sender, for any other number itself, for a name the extensions that authorise under it |
| Outbox.TargetsAre | Database/database.cpp:608-629 | Who is addressed, told by the group and extension tables alone, extension by extension |
| DatabaseThread.Database.Deliver | Database/database.cpp:724-736 | Files a row for each endpoint of the list, done for self and NONE, and sends to exactly the others, each once |
| DatabaseThread.Database.LocalMessage | Database/database.cpp:567-737 | The whole handler, its refusals and its answers included, has the effect of `LocalMessage` on the tables |
| Outbox.AnswersAre | Database/database.cpp:567-737 | The answer: 403 to a sender whose extension has no endpoint, none to any other labelled sender, and otherwise 404, 200 or 500 |
| Delivery.FanOut | Database/database.cpp:567-737 | Endpoint by endpoint, told by the tables alone: for whom a message is filed, with which status, who is sent it, that the stored message carries what the event said, its expiry included, and that no other row changes |
| Delivery.FiledIff | Database/database.cpp:584-659 | A message is filed if and only if the sender, if known, has an endpoint and the message is for some endpoint; otherwise nothing is sent |
| Outbox.LobbyIff | Database/database.cpp:608-643 | A dialled number without a group is taken for the public lobby exactly when it is 0 or too large for an int |
| Outbox.HugeNumberGoesToGroupZero | Database/database.cpp:608-651 | A message to a number too large for an int goes to the members of group 0 but the sender or, when there are none, to the lobby: under the policy "public" to every labelled endpoint |
| Delivery.StepKeepsInv | Database/database.cpp:430-787 | Every step keeps the invariant: handlers, deletions, losses, repetitions and delays, requests that overtake each other, and acknowledgements up to the time a later request is served |
| Delivery.EveryRunIsSafe | Database/database.cpp:430-787 | In every reachable state a row is done only if the endpoint is one of the message's labelled sender's own two, by extension and label, or its client was handed the message |
| Delivery.EveryRunFromTheStartIsSafe | Database/database.cpp:430-787 | The same from empty outboxes |
| Delivery.HandedCarries | Database/database.cpp:661-695 | In every reachable state what a client was handed of a text carries what the event of that text said |
| Delivery.AckMarksItsBatch | Database/database.cpp:739-746 | An acknowledgement taken before a later request is served changes only rows of the batch it answers, all handed over, whatever happened in between |
| Draining.ServedTriesAll | Database/database.cpp:748-787 | An answer holds every row not done, those left being tried by a lost answer included, and leaves them being tried |
| Draining.EachRowSettles | Server/manager.cpp:225-249 | Whatever happens between an answer and its acknowledgement, with nothing new filed, synchronized or served for the endpoint, every message not done is handed over and each row ends at the last answer taken for it, and at 200 if there was none |
| Draining.DrainedIff | Database/database.cpp:739-746 | So the endpoint is drained if and only if no row's last answer taken meanwhile was a failure |
| Draining.OneCycleDrains | Server/manager.cpp:302-325 | Undisturbed, one request, answer and, unless nothing was owed, acknowledgement from any reachable state leave every row of the endpoint done |
| Draining.LateFailureUndoesDrain | Database/database.cpp:491-501 | The run in which a late failure of a push, taken before the acknowledgement, leaves its row undone |
| Draining.LateFailureIsReachable | Database/database.cpp:491-501 | From any start, for any endpoint, a run leads to such a state |
| LateAcks.LateAckIsSafeIff | Database/database.cpp:739-746 | From a state in which an answer is the last one given, after any run that ends with its acknowledgement on its way, whenever the client took the answer: taking the acknowledgement is safe if and only if the run offered no message, still being tried, that none of its steps handed over and the client did not have before |
| LateAcks.AckedIsHanded | Desktop/sessions.cpp:1040-1064 | An acknowledgement on its way means that everything in its answer has been handed over, however late the answer was taken |
| LateAcks.OvertakenAckLosesMessage | Server/manager.cpp:302-325 | An acknowledgement overtaken by the next request marks a message done that nobody was handed |
| LateAcks.OvertakingHappens | Desktop/sessions.cpp:1056-1064 | From any start, for any endpoint, a run leads to such a state |
| EndToEnd.DoneMeansStored | Desktop/sessions.cpp:1040-1064 | In every reachable state, after any run of a client's session in which it was handed what the protocol handed it, a message done on the server and not the sender's own is stored under its (posted, sequence), for a text those its event carried |
| Ordering.InsertAddsOne | Desktop/messages.cpp:594-653 | An insertion adds exactly one copy of the item |
| Ordering.InsertAscending | Desktop/messages.cpp:594-653 | Inserting an item with a new stamp keeps the list strictly ascending by (posted, sequence) |
| Ordering.AscendingByTime | Desktop/messages.cpp:615-637 | Ascending means by time and, at one time, by sequence, each pair once |
| Ordering.InsertSplit | Desktop/messages.cpp:630-637 | The scan from the end finds the place the item belongs |
| Ordering.InsertCommutes | Desktop/messages.cpp:594-653 | Two insertions with different stamps give one list in either order |
| Ordering.InsertWithin | Desktop/messages.cpp:594-653 | Inserting into both lists keeps the shown list a subsequence of the whole |
| Ordering.ListIsUnique | Desktop/messages.cpp:594-653 | There is one ascending list of a set of items |
| Sessions.SecondSetTopicChangesNothing | Desktop/sessions.cpp:131-184 | The second topic call for an admin message changes nothing |
| Sessions.SetTopicTakesLatest | Desktop/sessions.cpp:162-184 | A topic replaces the one there exactly when it is later by time or, at one time, by sequence; a contact's stamp is left alone |
| Sessions.ReceiveKeepsInv | Desktop/sessions.cpp:1107-1149 | A received message keeps list and store in agreement, new or repeated, session loaded or not |
| Sessions.LoadKeepsInv | Desktop/sessions.cpp:202-247 | A load keeps the agreement, and lists a row exactly when it is unexpired and its contacts are known |
| Sessions.LoadTakesLatestTopic | Desktop/sessions.cpp:202-247 | After a load the topic is that of the latest admin message with a subject among the rows listed, unless the one before is later |
| Sessions.ClearKeepsInv | Desktop/sessions.cpp:93-108 | So does clearing |
| Sessions.SearchKeepsInv | Desktop/sessions.cpp:761-803 | A search shows every match and nothing else, in the order of the list |
| Sessions.FinishInputKeepsInvIff | Desktop/sessions.cpp:1194-1227 | Showing a sent text keeps the agreement if and only if the session is loaded and the key is new |
| SessionWindow.NewestFirst | Desktop/sessions.cpp:202-215 | The query's rows come newest first, each once |
| SessionWindow.SessionItem.RowFor | Desktop/messages.cpp:615-637 | The backward scan ends where the insertion belongs, on both paths |
| SessionWindow.SessionItem.Add | Desktop/messages.cpp:594-653 | Both lists take the item in its place; the fast path is taken exactly when the shown list is empty or all of it is later |
| SessionWindow.SessionItem.SetTopic | Desktop/sessions.cpp:162-184 | Heading as `Sessions.SetTopic`, of which `SetTopicTakesLatest` says that the later one wins |
| SessionWindow.SessionItem.AddMessage | Desktop/sessions.cpp:131-160 | Lists, contact stamps and topic move as `AddMessage` says, of which `InsertAddsOne` and `LatestMessageWins` say what it means |
| SessionWindow.SessionItem.Save | Desktop/messages.cpp:328-360 | A row is written exactly when its key is free, and other sessions' rows stay |
| SessionWindow.SessionItem.ReceiveText | Desktop/sessions.cpp:1107-1149 | A message is shown exactly when its key is new and the session loaded or active |
| SessionWindow.SessionItem.FinishInput | Desktop/sessions.cpp:1194-1227 | Exactly one copy more is listed and the key is stored, by this text unless it was taken; list and store agree afterwards if and only if the session was loaded and the key new |
| Convergence.ReloadShowsSameIff | Desktop/sessions.cpp:93-108 | Cleared and loaded again, a session lists what it listed before if and only if the rows it left out before are those now expired or without a known contact |
| SessionWindow.SessionItem.LoadMessages | Desktop/sessions.cpp:202-247 | The loop over rows newest first leaves the linked unexpired rows in ascending order |
| Convergence.EveryRunAgrees | Desktop/sessions.cpp:93-108 | Under any interleaving of arrivals, sent texts, loads, clears and searches in which no load meets an expired row or an unknown contact, a loaded list is exactly the stored rows in ascending order |
| Convergence.ListedIff | Desktop/sessions.cpp:202-247 | After any run a stored row is listed if and only if it came after the load that filled the list or was unexpired with known contacts at it |
| Convergence.LoadedHasLoad | Desktop/sessions.cpp:202-247 | A session that a run loaded has such a load in the run |
| Convergence.EveryRunStores | Connect/storage.cpp:153 | Over any run rows stay as first stored, and every message received or sent has its key stored |
| Convergence.CacheAgreesIff | Desktop/sessions.cpp:202-247 | A loaded list is exactly the stored rows but those its load passed over |
| Convergence.ClearedBeforeTheAnswerShowsTwice | Desktop/sessions.cpp:1194-1227 | A session cleared before the answer to a sent text shows the text twice after its next load |
| Convergence.EachKeyIsStoredOnce | Connect/storage.cpp:153 | Every key that arrived holds one message that arrived under it, whatever the repetitions, and earlier rows stay |
| Convergence.EachKeyIsListedOnce | Desktop/sessions.cpp:1134-1149 | A loaded session lists each key that arrived exactly once |
| Convergence.ArrivalsCommute | Desktop/sessions.cpp:131-184 | Two arrivals with different keys give the same session in either order |
| Convergence.Absorb | Desktop/sessions.cpp:1134-1149 | A repeated arrival, however late, changes nothing |
| Convergence.Converges | Desktop/sessions.cpp:131-184 | Any two deliveries of the same messages, in any order and with any repetitions, leave the same lists, stamps, topic and rows |
| Convergence.LatestMessageWins | Desktop/sessions.cpp:131-184 | After any delivery the stamps `recent` and `updated` are the greatest of the one before and those of the messages that count, and the topic is that of the latest admin message among them |
| Convergence.FirstUnderAKeyWins | Connect/storage.cpp:153 | Without distinct keys order matters: the first message under a key stays |
| Digest.ReplyReads | Connect/message.cpp:56-83 | The server reads from a client's answer H(H(user:realm:password):nonce:H(verb:uri)), written out with the hash, for the nonce and names of the challenge |
| Digest.AuthorizeTakesIff | Server/registry.cpp:217-243 | The answer to a registration is 200 or 403, and 200 exactly for the stored names, the current nonce and the digest that binds secret, nonce, verb and URI |
| Digest.AuthenticateTakesIff | Server/registry.cpp:184-214 | For other requests 480 exactly when the registration is expired or never succeeded, and 200 exactly for such a digest with the current or the prior nonce |
| Digest.AuthorizeAcceptsIff | Server/registry.cpp:217-243 | The right password's answer is accepted for registration if and only if it is to the current nonce |
| Digest.AuthenticateAcceptsIff | Server/registry.cpp:184-214 | And for other requests if and only if it is to the current or prior nonce, on an unexpired registration that registered |
| Digest.WrongPasswordNeedsCollision | Server/registry.cpp:237-242 | A wrong password is accepted only if two texts have one hash |
| Digest.OneAnswerTwoRequestsCollides | Server/registry.cpp:237-242 | One answer to two requests with different verb or URI needs two texts with one hash |
| Digest.CarriedOverAnswerCollides | Server/registry.cpp:237-242 | So an answer carried over to a request with another verb or URI is refused, but for such a collision |
| Lifecycle.HoldsLastTwo | Server/registry.hpp:113-120 | After any run the current and prior nonces are the last two issued |
| Lifecycle.NonceWindow | Server/context.cpp:592-628 | After any run with distinct nonces, the k-th nonce registers exactly when it is the latest, and lets other requests through exactly when it is one of the latest two |
| Lifecycle.ActiveIff | Server/registry.cpp:217-271 | A registration is active if and only if its most recent attempt succeeded with an expiry of at least one |
| Lifecycle.RunTells | Server/registry.cpp:217-271 | After any run timeout, time, context and address are those of the last successful attempt that asked to stay, or of the creation, and the timeout is 0 if any attempt released the registration |
| Lifecycle.ExpiredIff | Server/registry.hpp:95-97 | A registration is expired exactly when more than its seconds have passed since its device last registered or it was created, and at the next tick once it was released |
| Lifecycle.DeregisteredExpires | Server/registry.cpp:244-249 | A device that deregistered counts as expired from the next tick on |
| Lifecycle.FailedAttemptKeepsSession | Server/registry.cpp:217-243 | A failed attempt makes it inactive but leaves what other requests need |
| Registries.Registry.constructor | Server/registry.cpp:65-87 | A new registration is inactive, without nonces, timed from its record, with its digest in upper case |
| Registries.Registry.Challenge | Server/context.cpp:592-628 | A fresh challenge shifts the nonces, a reused one repeats the current, and the text quotes realm, nonce in hexadecimal and algorithm |
| Registries.Registry.Authorize | Server/registry.cpp:217-271 | 200 exactly for the right names, the current nonce and the digest over secret, nonce, verb and URI, and the whole new state, on every early return |
| Registries.Registry.Authenticate | Server/registry.cpp:184-214 | Result as specified, 200 only for the digest over secret, nonce, verb and URI, and nothing changed |
| Bitmap.SetBitAt | Server/registry.cpp:45-51 | Setting a bit sets that bit and no other |
| Bitmap.ClearBitAt | Server/registry.cpp:53-59 | Clearing a bit clears that bit and no other |
| Indexes.UniqueAddIff | Server/registry.cpp:95-96 | An unguarded insertion keeps a hash exact if and only if the key was free |
| Indexes.UniqueRemove | Server/registry.cpp:114-115 | Removing by key takes out exactly that object |
| RegistryIndex.CreatedIsConsistentIff | Server/registry.cpp:89-96 | The constructor leaves hashes, counts and bits right if and only if neither the device nor the endpoint id was registered |
| RegistryIndex.DestroyedIsConsistent | Server/registry.cpp:109-117 | The destructor of a live object leaves them right |
| RegistryIndex.DestroyUndoesCreate | Server/registry.cpp:89-117 | Deleting an object just created restores hashes, counts and every bit |
| RegistryIndex.DuplicateIsStranded | Server/manager.cpp:618-627 | After a second registration for a device came and went, the first is in no hash that finds it and its number stays online |
| RegistryIndex.EmptyIsConsistent | Server/registry.cpp:68-73 | The empty indexes are right |
| RegistryIndex.EveryRunIsConsistent | Server/registry.cpp:65-118 | After any run of creations under free keys and deletions of live objects, hashes, counts and bits show exactly the objects created and not deleted |
| Registrars.Registrar.Create | Server/registry.cpp:65-98 | The constructor's whole effect, and that the indexes stay right if and only if both keys were free |
| Registrars.Registrar.Destroy | Server/registry.cpp:100-118 | The destructor's whole effect; only a live object can be deleted |
| Registrars.Registrar.FindEndpoint | Server/registry.cpp:144-152 | Returns the live unexpired registration of an endpoint, deletes an expired one, touches nothing else |
| Registrars.Registrar.FindEvent | Server/registry.cpp:155-165 | The same by number and label |
| Registrars.Registrar.FindTarget | Server/registry.cpp:167-181 | All live registrations of a number or, if there are none, of a user name |
| Registrars.Registrar.Cleanup | Server/registry.cpp:120-127 | Deleting while walking a copy removes every expired registration, keeps every other and deletes none twice |
| Registrars.Registrar.DropEndpoint | Server/manager.cpp:166-169 | The endpoint's registration is gone, every other stays |
| Registrars.Registrar.Refresh | Server/manager.cpp:578-616 | A REGISTER is challenged or judged as specified, no other registration changes, and a released one is deleted once the clock moved |
| Registrars.Registrar.Confirm | Server/manager.cpp:225-249 | 403 without a live unexpired registration of the device, without credentials a challenge with its current nonce, and otherwise what that registration says; so a request goes ahead if and only if it authenticates it |
| Registrars.Registrar.Bitmask | Server/registry.cpp:129-136 | The bytes sent show a number online if and only if a live registration has it |
| Registrars.BitMeansLive | Server/registry.cpp:89-111 | A bit is set if and only if some registration with its number is live, active or not |
| Authorization.Authorize.FindEndpoint | Database/authorize.cpp:74-196 | When a registration is created and with which record, which code refuses it otherwise, and which outboxes are copied or synchronized |
| Authorization.OriginOfUri | Database/authorize.cpp:159-164 | The origin recorded is the host part of a URI with a user, and of one without all but the scheme |
| Authorization.GrantedIsLeastIff | Database/authorize.cpp:151-157 | The time granted is never more than was asked for or than the device's own kind may have, and is the lesser of the two for every request if and only if no other limit in its way is lower |
| Authorization.FreshIffUnregistered | Server/manager.cpp:618-627 | What the directory hands over is fresh for the indexes if and only if the device has no live registration when it arrives |
| Base64.RoundTrip | Server/registry.cpp:129-136 | Decoding what was encoded gives the bytes back |
| Base64.GroupIs | Server/registry.cpp:129-136 | Three bytes are printed as one number of 24 bits, six bits at a time, highest first |
| Xdp.SplitJoined | Connect/listener.cpp:489-494 | Splitting the printed text gives the printed lines and one empty piece |
| Xdp.Print | Server/manager.cpp:591-604 | The text sent, line by line as it stands, and empty for an unlabelled phone |
| Xdp.RoundTrip | Connect/listener.cpp:489-533 | The client recovers what was printed and signals exactly the values that differ from those before |
| Xdp.RosterAskedIff | Server/manager.hpp:47-49 | A client process asks for the roster again, reconnected or not, unless it changed a multiple of 8192 times |
| Xdp.FirstRegistrationAsks | Connect/listener.cpp:34 | The first registration of a client process always asks for the roster |
| Listeners.Listener.ParseXdp | Connect/listener.cpp:489-533 | The loop over lines leaves the state, signals and bitmap that `Parse` gives |
| Phonebooks.Phonebook.ChangeOnline | Desktop/phonebook.cpp:448-464 | Only the contact of that number changes; numbers outside the guard and empty slots are passed over |
| Phonebooks.Phonebook.Disconnect | Desktop/phonebook.cpp:1575-1581 | A lost connection shows every contact from 100 to before the highest number offline |
| Phonebooks.Phonebook.ChangeStatus | Desktop/phonebook.cpp:1469-1486 | The walk with position and mask never leaves the bitmap, sets each contact from first to before last by its bit, and touches no other |
| Phonebooks.WalkedBit | Desktop/phonebook.cpp:1475-1484 | The mask the walk holds at a number selects that number's bit |
| Presence.Register | Server/manager.cpp:589-604 | After a registration a known contact from first to before last shows whether a live registration has its number, if and only if the bitmap is a new one or the contact showed it before; no other contact changes |
| Presence.RegisterWithNews | Connect/listener.cpp:524-530 | A first bitmap, or a new one, puts every known contact right |
| Presence.WrongContactStays | Connect/listener.cpp:524-530 | An unchanged bitmap leaves a contact offline though its number is live |
| Presence.NewContactIsWrong | Desktop/phonebook.cpp:588-597 | A contact that enters the roster after the bitmap was walked is such a contact |
| Presence.ReconnectRepairs | Desktop/phonebook.cpp:1575-1581 | Coming back with a new listener puts every contact right |
| Presence.TextShowsLive | Server/registry.cpp:129-136 | A client that reads the server's text holds a bitmap that covers the range and shows each number as the live registrations have it |
| Escape.EscapeText | Common/types.cpp:106-129 | The loop escapes as specified |
| Escape.EscapedIs | Common/types.cpp:106-129 | Seven characters are escaped, each as '%' and the two lower-case hexadecimal digits of its code, and no other |
| Escape.UnescapeText | Common/types.cpp:80-104 | The cursor loop ends on every input, truncated escapes included, and reads as specified |
| Escape.PairReads | Common/types.cpp:80-104 | Two hexadecimal digits of either letter case read as the byte they print |
| Escape.ReadsBack | Common/types.cpp:80-129 | Unescaping what was escaped gives the text up to its first NUL |
| Escape.RoundTripIff | Common/types.cpp:80-129 | The text comes back whole if and only if it has no NUL |
| Escape.EscapeIsInjective | Common/types.cpp:106-129 | Different texts escape differently |
| Escape.LeavesNoneReserved | Common/types.cpp:106-129 | No reserved character is left in an escaped text |
| UStrings.UnquoteQuote | Common/types.cpp:131-153 | Unquoting what was quoted gives the text back |
| Uri.NameRoundTrip | Common/types.cpp:176-194 | User and host of a printed URI come back for every host name, the port exactly when it survives |
| Uri.BracketsStay | Common/contact.cpp:66-82 | An address with colons never comes back as the host it was |
| Uri.RoundTripIff | Common/contact.cpp:35-83 | Which addresses survive printing and parsing, exactly |
| Devices.Storage.VerifyDevice | Connect/storage.cpp:318-323 | The device has one row, with this key, verified |
| Devices.LatestIs | Connect/storage.cpp:327-333 | The map gathered holds every listed device and no other, each by its last entry |
| Devices.JudgesTheList | Connect/storage.cpp:335-361 | After a check, told by the list: which rows remain, with which status, and what each device is reported as |
| Devices.Storage.VerifyDevices | Connect/storage.cpp:325-372 | Told by the list: the rows that stay and their status, each device reported once by its last entry with its verdict, in the order of labels |
| Labels.SortedKeys | Connect/storage.cpp:363-365 | The labels sorted without regard to letter case, each once |
| Labels.LexIff | Connect/storage.cpp:363-365 | Of two labels, in one letter case, the first is a beginning of the other or has the smaller character where they first differ |
| Trust.RunExplains | Connect/storage.cpp:318-372 | After any run a device's row says when it was verified, with which key, and whether another key was seen since |
| Trust.ReportedVerifiedIff | Connect/storage.cpp:325-372 | Verified if and only if the key is that of the last verification and no listing since left the device out or showed another key for it |
| Trust.ReportedMismatchedIff | Connect/storage.cpp:353-356 | Mismatched if and only if a device verified and listed ever since shows another key now or did before |
| Trust.MismatchSticks | Connect/storage.cpp:353-356 | A mismatch stays reported through anything but a new verification or a removal |
| Reconnect.Link.RunQuery | Database/database.cpp:129-153 | At most three executions of a statement, one for a file database, and on a server link no fewer than three unless one worked or the reconnection failed; success exactly if the last one worked; the link ends marked failed exactly if the last connection asked for, other than the opening one, was refused; ends despite the mutual recursion |
| Reconnect.Link.RunQueries | Database/database.cpp:113-127 | Statements up to the first that fails, on a server link each executed as often as it was retried, in order; on a link marked failed none |
| Reconnect.Link.Reopen | Database/database.cpp:267-318 | One connection attempt at most, the pragmas after it, and that its failure is not remembered |
| Reconnect.Link.Resume | Database/database.cpp:240-251 | A file database stays as it is, any other is reopened or marked failed |
| Reconnect.Link.OnTimeout | Database/database.cpp:1625-1629 | Only a file database is let go of, so a server's failure mark lasts until reconfiguration |
| Reconnect.Link.RunCalls | Database/database.cpp:240-251 | Over any sequence of queries, batches, events that reopen the link and timeouts, a server's link marked failed sends nothing and asks for no connection, so the refused one is the last until reconfiguration |
| Reconnect.Link.ApplyConfig | Database/database.cpp:1631-1643 | New settings take the failure mark away and nothing else |
| Threads.Server.CreateThread | Server/server.cpp:504-517 | Every order in use stays below the maximum |
| Threads.Server.Startup | Server/server.cpp:530-539 | Starts every created thread once, orders never falling, threads of one order as they were created |
| Threads.Server.Exit | Server/server.cpp:572-583 | Stops every created thread once, orders never rising, threads of one order as they were created |
| Threads.StartsAll | Server/server.cpp:529-539 | Every created thread is started |
| Threads.StartsInOrder | Server/server.cpp:529-539 | Each once, orders never falling |
| Threads.StopsAll | Server/server.cpp:572-583 | Every created thread is stopped |
| Threads.StopsInReverse | Server/server.cpp:572-583 | Each once, orders never rising |
| Text.IntRoundTrip | Connect/listener.cpp:508-523 | A printed int reads back as itself |

## Left out

- Widgets, painting, dialogs, sockets, zeroconf, configuration files and message building in eXosip: no decisions of the program's own.
- SQL text and drivers: tables are maps under their keys; a query's rows come in any order unless it asks for one.
- DatabaseThread.Database.LocalMessage: a failure of the database in the middle of the fan-out is not modelled; only the insertion of the message itself may fail.
- Delivery.EveryRunIsSafe: whether a push is sent at all (inactive endpoints, types an unlabelled phone does not take) is left open, as a push may be lost anyway; only final answers to a push are modelled, and a client that answers 200 has taken the message.
- Digest.WrongPasswordNeedsCollision: that collisions are hard to find is not part of this model.
- Lifecycle.NonceWindow: nonces are taken as distinct and not empty; the program draws eight random bytes and does not look for repetitions.
- Registrars.Registrar.FindTarget: gives a set; the order of a multi-hash's values is not modelled.
- Registries.Registry.Authorize: origin, allowed methods and the calls of a registration are not modelled.
- Presence.Register: the range is the same when the indexes are set up and when it is printed throughout.
- Listeners.Listener.ParseXdp: the roster number a process keeps is handed from one listener to the next; two listeners at once are not modelled.
- Xdp.RoundTrip: values are free of newlines; a NUL in one, which would end the body, is not modelled.
- Uri.RoundTripIff: users without '@' and hosts without '@', brackets and white space; the parser's second argument is part of `Uri.Parse` but not of the theorem.
- Devices.Storage.VerifyDevices: keys are taken as already read from hexadecimal.
- SessionWindow.SessionItem.LoadMessages: expiry that hides messages already listed and the writing of contact stamps to the contacts table are not modelled.
- The second loop of `MessageModel::remove` does not advance and `SessionModel::update` does not re-key its rows: nothing here rests on them.
- Retry in `insert`, `getRecord` and `getRecords` repeats `runQuery`'s and would add only like members.
- Server states (suspend, resume, reload), calls, segments and providers, key encryption and signatures.
- Permission checks of the profile, membership and admin requests: single branches each.

# A verified model of Veramo's stateful core

Veramo is an agent framework for decentralized identifiers (DIDs) and verifiable data. Most of it connects libraries;
the parts modelled here are those with state machines, loops and translations of their own:

- **DIDComm messaging** (`DidCommWire`, `DidCommPacking`, `DidCommRoundTrip`, `DidCommSoundness`, `DidCommRouting`,
  `DidCommSending`, `DidCommServices`, `DidCommOutcome`, `DidCommAcyclic`, `DidCommDelivery`, `DidCommArrival`,
  `DidCommConversion`): packing and unpacking, nested `forward` messages (DIDComm Messaging v2, Routing Protocol 2.0),
  and the sender that goes through a document's services and recurses when an endpoint is itself a DID.
- **The JSON data store** (`JsonStore`, `JsonStoreRuns`, `StoreMeaning`, `JsonQuery`, `CellTests`, `LikePattern`,
  `LikeMeaning`, `ClaimsQuery`) and the part of the SQL data store that compiles the same query language
  (`WhereObject`, `StoreAgreement`).
- **The agent's event queue** (`EventQueue`, `EventBus`).
- **The DID manager over the in-memory store** (`DidRecords`, `DidHistory`, `DidManager`).
- **ION key rotation** (`IonRotation`, `IonMeaning`).
- **Two lookups**: linked-data signature suites (`LdSuites`) and did:ethr networks (`EthrNetwork`, `EthrMeaning`).

`Results` and `Strings` hold optional values, error-carrying results and the string operations used throughout;
`Utf16` and `TextOrder` hold JavaScript's view of a text as UTF-16 units and the two orders of texts.

Cryptography is symbolic. A ciphertext is a term that remembers the key agreement, key wrapping and content encryption
it was made with, the ephemeral key and the keys it is sealed to, and opens for nothing else; a signature is a term over
key, algorithm, header and payload; hashes, key thumbprints and ION commitments are injective constructors. JSON is
abstract data, so a serialized message is the value it parses to. The DID resolver is a finite map from DIDs to
documents; transports, providers, key managers and the settling of promises are parameters or nondeterministic steps,
so that every statement holds whatever they answer.

Imperative code keeps its form: the data store, the message sender, the event agent, the DID manager and its store, the
ION provider and the suite loader are classes whose methods change fields, and the loops of the query builder, the
where-object compiler, the unpacker and the routing-key wrapper are loops. Each of these methods is proved equal to (or
related by) a specification on values, and the properties are proved about the specification. What a specification
computes is also stated in terms of its inputs alone (documents, keys, answers, table rows, calls made), without the
functions that compute it: `DidCommSoundness`, `DidCommServices`, `DidCommOutcome`, `StoreMeaning`, `CellTests`,
`DidHistory`, `IonMeaning` and `EthrMeaning` hold most of these statements.

## Results worth knowing before reading the proofs

Where the code differs from what one would expect, or from its own documentation, the model follows the code, and the
difference is stated exactly:

- `skip` of two or more together with `take` starts the window at `2 * skip - 1` (`JsonQuery.WindowIsPageIff`).
- The sender overwrites the caller's packed message for every service, so a later service gets the wrapping for the
  earlier ones too (`DidCommDelivery.IndependentIffEarlierUnrouted`). It reaches the recipient as the caller's message
  exactly when the recipient's own agent serves the first routing key of each earlier service that has any
  (`DidCommArrival.PayloadArrivesIff`).
- With two or more routing keys and a DID endpoint, the last routing key's mediator gets the layer meant for the first;
  the message reaches the recipient exactly when that mediator's agent serves the first routing key
  (`DidCommDelivery.DidEndpointHop`).
- A signed message verifies exactly when `from` is a DID without path, query or fragment (`DidCommRoundTrip.JwsRoundTrip`).
- Sorting by a date is consistent exactly when every row has a valid date or `null`, or the column tells no two rows
  apart: all valid dates are the same, which is 1970's start if some row has `null` or no date. A date made of an
  unreadable text is stored as an invalid one and ties with everything (`JsonQuery.DateColumnConsistentIff`).
- `Like` matches UTF-16 units where SQL matches characters, and reads `.` and a `*` that follows a character as a regular
  expression does. Of the patterns whose translation consists of characters, dots and starred atoms, those keep their
  SQL meaning on all single-line texts that have neither and in which each run of wildcards has no `_`, or a single one
  beside a `%` (`LikeMeaning.KeepsMeaningIff`). A lone `_` refuses U+1F600 and `__` accepts it
  (`LikeMeaning.TwoUnitCharacter`).
- The SQL where-object keeps only the last condition per column, so a range given as two conditions loses its first
  bound (`WhereObject.RepeatedColumnDiffers`). This makes no difference exactly when some last condition passes no text,
  or each forgotten condition is implied by the last one for its column (`StoreAgreement.ForgettingIff`).
- On a row that lacks the column SQL passes no negated condition, and the JSON store passes it, unless it asks for the
  lack itself or for one of no values; a pattern is matched against the word `undefined`
  (`WhereObject.AbsentCellAgreesIff`).
- JavaScript orders texts by UTF-16 units, a binary collation by characters: the two stores place U+1F600 on different
  sides of U+FF5E (`WhereObject.OrdersOfStoresDiffer`). With each column named once, the stores agree on all rows, or on
  all single-line ones, exactly when both pass none or each bound and pattern is one that both stores read alike
  (`StoreAgreement.DistinctColumnsAgreeIff`).
- A message whose nested presentation holds an undecodable credential is written to the store without any
  notification, and the notification log then no longer replays (`JsonStoreRuns.LogReplaysIff`).
- Authenticated packing converts the sender's managed Ed25519 keys in place, and unpacking an encrypted message those of
  the receiver. With an in-memory store their owner can then no longer sign with them
  (`DidCommConversion.SigningAfterEncrypting`).
- The documentation of `emit` says that awaiting it never throws; it throws exactly when an error listener rejected or
  a rejection's own message starts with `ErrorEventHandlerError` (`EventQueue.DrainOutcome`).
- A provider that answers `create` with a DID that is already stored replaces that record, and its alias is forgotten
  (`DidRecords.ReplacedIsForgotten`). A second `getOrCreate` for an alias finds the first one's identifier exactly when
  whatever deleted or replaced it was made up for by making it again under the alias, and the providers are compatible
  (`DidRecords.SecondGetOrCreate`).
- An ION update key without its commitment can be disclosed in place of the committed one
  (`IonRotation.DisclosesCommittedIff`).
- An ION update that cannot build its request leaves the new key in the key manager (`IonRotation.RestoredIff`), and once
  an update is anchored the next one finds its update key exactly when the new key was an old update key already
  (`IonRotation.AnchoredRotationSticks`).
- A key published under another key type's verification method can be chosen for signing, and the suite lookup then
  throws (`LdSuites.ForeignMethodIsChosen`).
- An unnamed did:ethr network asked for by number is printed as bare hex and not found again
  (`EthrNetwork.UnnamedNumberIsLost`).

## Model

| member | source | states |
|---|---|---|
| DidCommPacking.ChoicesMeet | packages/did-comm/src/didcomm.ts:367-445 | whatever enc and alg texts the packer accepts, the unpacker's case analysis (lines 562-612) over the resulting header picks the decrypter of the same key agreement, wrapping and content cipher, and names the packing that was used |
| DidCommPacking.AlgNames | packages/did-comm/src/didcomm.ts:564-609 | the four alg names are told apart by the suffix and substring tests of the unpacker |
| DidCommPacking.ComputeRecipients | packages/did-comm/src/didcomm.ts:323-364 | the loop over `to` and `bcc` collects each DID's supported key agreement keys in order, restricted to the requested kids, and stops with the first error |
| DidCommPacking.AllRecipientsStops | packages/did-comm/src/didcomm.ts:361-364 | an error for one recipient is the error for every longer list |
| DidCommSoundness.RecipientsMeaning | packages/did-comm/src/didcomm.ts:323-364 | a key is among the recipients exactly when the document of some DID of `to` and `bcc` lists it for key agreement, on a usable curve and, if kids are given, under one of them; there is an error exactly when one of the DIDs offers no such key |
| DidCommSoundness.RecipientsInOrder | packages/did-comm/src/didcomm.ts:361-364 | the recipients of a list of DIDs are those of its parts, one after the other |
| DidCommSoundness.EncrypterForMeaning | packages/did-comm/src/didcomm.ts:367-445 | for which packing, enc and alg there is an encrypter, and the key agreement, wrapping and content cipher it uses |
| DidCommSoundness.NamedAlgorithm | packages/did-comm/src/didcomm.ts:367-445 | the names of the algorithms, and that asking for one by its name gets it |
| DidCommSoundness.HeaderMeaning | packages/did-comm/src/didcomm.ts:267-306 | the header of a packed message: media type, the enc and alg asked for or the defaults, a skid exactly when authenticated; the content is the message, sealed under that header |
| DidCommSoundness.SenderKeyMeaning | packages/did-comm/src/didcomm.ts:279-306 | a sender can pack authenticated exactly when it manages an X25519 or Ed25519 key that its document lists for key agreement, and then does so as such a key |
| DidCommSoundness.PacksIff | packages/did-comm/src/didcomm.ts:263-458 | encrypted packing succeeds exactly when every addressee offers a key, the algorithms are supported and, if authenticated, the sender has a managed key |
| DidCommPacking.UnpackJwe | packages/did-comm/src/didcomm.ts:523-631 | the loop over local keys returns the first message that decrypts, goes on after a failed decryption, and gives up at the first key without a decrypter |
| DidCommRoundTrip.DecryptsExactly | packages/did-comm/src/didcomm.ts:453-457 | a message sealed to a list of recipients opens for a secret exactly when that secret is behind one of their keys |
| DidCommRoundTrip.TriesFoundKeys | packages/did-comm/src/didcomm.ts:557-630 | trying the found local keys in turn yields message and packing exactly when one of them is backed by a recipient's secret, whichever comes first, and the decryption error otherwise |
| DidCommRoundTrip.SkidResolves | packages/did-comm/src/utils.ts:31-52 | the skid that an authenticated packing discloses resolves to the public half of the secret it was made with |
| DidCommRoundTrip.RecipientsAreListed | packages/did-comm/src/didcomm.ts:331-358 | every recipient key is a key agreement key of a resolvable DID, under an id of that DID |
| DidCommRoundTrip.MatchedKeys | packages/utils/src/did-utils.ts:197-248 | keys matched to a document pair a listed method with a managed key of the same public key |
| DidCommConversion.ConvertIdentifierEncryptionKeys | packages/utils/src/did-utils.ts:53-71 | the loop over the key objects turns Ed25519 keys into X25519 keys in place, also when an object is listed twice, and returns the usable ones in order |
| DidCommConversion.EncryptionKeysStay | packages/utils/src/did-utils.ts:53-71 | converting a second time changes nothing |
| DidCommConversion.EncryptingAgainIsSame | packages/utils/src/did-utils.ts:197-238 | an encryption packed after an identifier's keys were converted is the one packed before |
| DidCommConversion.SigningAfterEncrypting | packages/utils/src/did-utils.ts:197-238 | after the keys of an identifier of an in-memory store were converted, by packing as its authenticated sender or by unpacking as a receiver, only those of its keys can sign that are not Ed25519 keys; signing is refused exactly when there is none |
| DidCommRoundTrip.SelectKeyMeaning | packages/did-comm/src/didcomm.ts:218-230 | the key referred to by its kid or its method's id is used if there is one, else the first key, and there is none only when no key matched the document |
| DidCommRoundTrip.KeyForFound | packages/did-comm/src/utils.ts:86-110 | the local key for a recipient kid is the managed key behind the method of that kid |
| DidCommRoundTrip.LocalKeysFound | packages/did-comm/src/utils.ts:54-84 | recipients of unmanaged DIDs are skipped, and the local keys are those of the managed ones, in order |
| DidCommRoundTrip.ChoicesAgree | packages/did-comm/src/didcomm.ts:540-612 | the choice depends only on what the packer wrote, also after the protected header was merged with the recipient's own |
| DidCommRoundTrip.PackedJweShape | packages/did-comm/src/didcomm.ts:263-458 | a successful encrypted packing is the message sealed to all recipients under one suite, with a skid exactly when authenticated |
| DidCommRoundTrip.JweOpensExactly | packages/did-comm/src/didcomm.ts:523-631 | for every message, recipients, packing, enc and alg the packer accepts: an agent that can act as one recipient unpacks exactly that message and packing, every other agent ends in the decryption error |
| DidCommRoundTrip.OpensIffHolds | packages/did-comm/src/utils.ts:54-110 | being able to act as a recipient means managing the recipient's DID and its key |
| DidCommRoundTrip.JweRoundTrip | packages/did-comm/src/didcomm.ts:307-457 | the encryption round trip in those terms: hold one recipient's key, or get the decryption error |
| DidCommSoundness.HoldersRead | packages/did-comm/src/didcomm.ts:307-457 | the same by documents: an agent that holds a key which any DID of `to` or `bcc` offers unpacks the message, and every other agent gets the decryption error |
| DidCommSoundness.CiphertextAccepted | packages/did-comm/src/didcomm.ts:523-631 | for every encrypted message whatsoever: what an agent accepts is the content that was sealed, under the header it was sealed with, its key wrapped by the announced algorithms for a secret the agent holds as the key of one of the recipients; it is reported as authenticated exactly when that key was also wrapped with a sender's, which is then the one that the skid names |
| DidCommSoundness.DecrypterMeaning | packages/did-comm/src/didcomm.ts:557-612 | for which headers there is a decrypter, and its key agreement, wrapping, content cipher and sender; an authenticated one exactly when the sender is known and alg names that agreement |
| DidCommSoundness.TriedIff | packages/did-comm/src/didcomm.ts:557-630 | for every encrypted message: trying the local keys in turn succeeds exactly when one of them opens it before one is met without a decrypter |
| DidCommSoundness.AcceptedKinds | packages/did-comm/src/didcomm.ts:633-666 | every accepted message is plain, signed or encrypted, says so in its media type, and is returned as it stands |
| DidCommRoundTrip.JwsRoundTrip | packages/did-comm/src/didcomm.ts:193-261 | a signed message verifies, for any receiver, exactly when `from` is a bare DID, and is then the message that was signed |
| DidCommSoundness.FlatSignatureIff | packages/did-comm/src/didcomm.ts:489-521 | for every message with one signature: it is accepted exactly when the kid is an authentication method of the sender, whose document lists the key that signed this very message and header with the announced algorithm |
| DidCommSoundness.GeneralSignatureIff | packages/did-comm/src/didcomm.ts:489-521 | of several signatures the first decides, in the same way |
| DidCommSoundness.SigningMeaning | packages/did-comm/src/didcomm.ts:193-261 | what a signed message is: header, algorithm by curve, and a key of the sender that its document lists for authentication |
| DidCommRoundTrip.PlainRoundTrip | packages/did-comm/src/didcomm.ts:172-191 | an unpacked plain message is the packed one with `typ` set, hence the same exactly when it said so already |
| DidCommRoundTrip.MediaTypeNamesPacking | packages/did-comm/src/didcomm.ts:633-666 | the detected media type of a packed message names the packing that was used |
| DidCommRouting.WrapForRoute | packages/did-comm/src/didcomm.ts:806-820 | the reverse loop over routing keys builds one layer per key, the first key outermost, each naming the next mediator, and stops with the first error |
| DidCommRouting.WrapRouteFails | packages/did-comm/src/didcomm.ts:806-820 | an error at an inner layer is the error of the whole wrapping |
| DidCommRouting.PeelsOneLayer | packages/did-comm/src/didcomm.ts:673-717 | one layer opens for an agent that serves the routing key and for nobody else, and yields the announced next hop and exactly what was wrapped |
| DidCommServices.LayerMeaning | packages/did-comm/src/didcomm.ts:680-715 | a layer is sealed to the keys that the routing key's DID offers, and to that key alone when the routing key names one |
| DidCommServices.ForwardMeaning | packages/did-comm/src/didcomm.ts:684-700 | inside is a forward message to the mediator that names the next hop and attaches what was wrapped, under its own media type or the default |
| DidCommRouting.OnionPeels | packages/did-comm/src/didcomm.ts:806-820 | for every routing-key list: if each agent serves its key, n peels announce each following mediator and finally the recipient, and leave the original message; one agent that does not is enough to stop it |
| DidCommRouting.WrapForwardAddsLayer | packages/did-comm/src/didcomm.ts:685-715 | a forward message adds one layer, and its attachment is what was wrapped |
| DidCommRouting.WrapRouteAddsLayers | packages/did-comm/src/didcomm.ts:806-820 | wrapping along a route adds as many layers as there are routing keys |
| DidCommRouting.WrapRouteInjective | packages/did-comm/src/didcomm.ts:806-820 | a wrapped message determines what was wrapped |
| DidCommSending.DidComm.TransmitAll | packages/did-comm/src/didcomm.ts:848-886 | each supporting transport is handed the payload once, in order; attempt k reports how call k was answered, success or error; none at all is an error of its own |
| DidCommSending.DidComm.SendDidCommMessage | packages/did-comm/src/didcomm.ts:720-910 | the service loop, its recursion and its overwriting of the caller's message: response, final message and deliveries are those of the specification; it terminates by any rank of the DIDs, as `RankExistsIff` finds for every network without a cycle of DID endpoints |
| DidCommSending.ConcludeMeaning | packages/did-comm/src/didcomm.ts:889-909 | a send fails exactly when every attempt failed, with all their errors in order; else it answers with the first attempt that brought a message back, or the first that succeeded when none did |
| DidCommSending.DidComm.ServeService | packages/did-comm/src/didcomm.ts:778-887 | one round of the service loop: attempts, final message and deliveries are those of the specification, or an error of wrapping that the loop does not catch |
| DidCommSending.ServiceReports | packages/did-comm/src/didcomm.ts:848-886 | as many attempts as supporting transports; each is a success exactly when its call was answered without an error, with that transport's id and answer, and else an error with the reason given |
| DidCommSending.MatchingMembers | packages/did-comm/src/didcomm.ts:848-850 | the supporting transports, in their own order |
| DidCommServices.ServicesAreEntries | packages/did-comm/src/didcomm.ts:735-766 | the DIDComm services of a document are what its entries of either form are read as, bundles taken apart |
| DidCommServices.DeclaredRead | packages/did-comm/src/didcomm.ts:779-804 | the URL and the routing keys of an endpoint, whether a text, an object or a list |
| DidCommServices.OneServiceSend | packages/did-comm/src/didcomm.ts:720-887 | a document with one URL service: each supporting transport gets the message wrapped along the service's routing keys, and nothing else is sent |
| DidCommServices.OneDidServiceSend | packages/did-comm/src/didcomm.ts:822-887 | with a DID for a URL the message, wrapped once more for it, is sent on to that DID first |
| DidCommOutcome.SendAnswers | packages/did-comm/src/didcomm.ts:720-910 | a send that answers was answered: the transport it names was called, accepted the message, and brought that message back |
| DidCommOutcome.SendSucceedsIff | packages/did-comm/src/didcomm.ts:720-910 | in a network whose routing keys and DID endpoints can be encrypted to, a send answers exactly when some call made, at whatever depth, was answered without an error |
| DidCommOutcome.UrlSendSucceedsIff | packages/did-comm/src/didcomm.ts:720-910 | over URL endpoints the same holds whenever no wrapping throws |
| DidCommAcyclic.RankExistsIff | packages/did-comm/src/didcomm.ts:822-846 | a rank that goes down from every DID to the DIDs its services point to exists exactly when no path of DID endpoints comes back to its start |
| DidCommAcyclic.RankExists | packages/did-comm/src/didcomm.ts:822-846 | the rank is found, so sending ends in every network without such a cycle |
| DidCommAcyclic.SendSame | packages/did-comm/src/didcomm.ts:720-910 | what a send does depends on the network alone and not on the rank by which it is seen to end |
| DidCommDelivery.SendGrows | packages/did-comm/src/didcomm.ts:837-846 | sending only adds deliveries, and those made through DID endpoints are for DIDs of smaller rank |
| DidCommDelivery.EveryServiceTried | packages/did-comm/src/didcomm.ts:778-887 | unless wrapping throws, every supporting transport is called once for every service, in document order |
| DidCommDelivery.PayloadsAccumulate | packages/did-comm/src/didcomm.ts:778-860 | the payload for the k-th service is the original message wrapped for services 1 to k in turn, service k outermost |
| DidCommDelivery.SprayAccumulates | packages/did-comm/src/didcomm.ts:778-860 | the same from any point of the service loop on |
| DidCommDelivery.AccumulatedLayers | packages/did-comm/src/didcomm.ts:806-820 | wrapping for some services leaves the message as it is exactly when none of them has routing keys, and otherwise makes it deeper |
| DidCommDelivery.IndependentIffEarlierUnrouted | packages/did-comm/src/didcomm.ts:819-860 | a service's payload is an independent wrapping of the original for that service exactly when no earlier service has routing keys |
| DidCommDelivery.MediatorKeepsDid | packages/did-comm/src/didcomm.ts:680-682 | the part of a routing key before `#` names the same DID |
| DidCommDelivery.HomeServes | packages/did-comm/src/didcomm.ts:708-715 | a layer is sealed to keys of its routing key's own DID, whose home agent serves it, also when restricted to one kid |
| DidCommDelivery.RouteLeadsToRecipient | packages/did-comm/src/didcomm.ts:806-820 | a wrapped message handed to the first mediator reaches the recipient it was wrapped for |
| DidCommDelivery.DidEndpointHop | packages/did-comm/src/didcomm.ts:824-834 | after a DID endpoint peels its layer the message goes to the last routing key's mediator, and from there through all others to the recipient exactly when that mediator's agent serves the first routing key; otherwise it gets no further |
| DidCommDelivery.SendArrives | packages/did-comm/src/didcomm.ts:720-910 | with acyclic DID endpoints, routing keys at the last DIDComm service of a document only, and first routing keys of DID endpoints served by the agent of the last one, every payload given to a transport for a URL endpoint peels hop by hop back to the caller's recipient and message |
| DidCommDelivery.SendArrivesWithoutCycles | packages/did-comm/src/didcomm.ts:720-910 | the same for every network without a cycle of DID endpoints, with no rank given |
| DidCommArrival.PeelLowers | packages/did-comm/src/didcomm.ts:673-717 | whatever an agent peels, encrypted, signed or plain, lay exactly one layer deeper in what it got |
| DidCommArrival.Unwinds | packages/did-comm/src/didcomm.ts:806-860 | what any services of a recipient wrapped in turn comes off at the recipient, back to the original, exactly when the recipient's agent serves the first routing key of each of them that has any |
| DidCommArrival.PayloadArrivesIff | packages/did-comm/src/didcomm.ts:720-910 | whatever the services of a document and their routing keys, a payload for one of them reaches the recipient as the caller's message exactly when the recipient's agent serves the first routing key of each earlier service that has any |
| JsonStore.DataStoreJson.AddDids | packages/data-store-json/src/data-store-json.ts:121-129 | DIDs that are not known yet get an empty entry; known ones are left alone |
| JsonStore.DataStoreJson.CollectClaims | packages/data-store-json/src/data-store-json.ts:194-215 | the claims of a credential: one per subject entry other than `id`, under its own hash |
| JsonStore.DataStoreJson.SaveVerifiableCredential | packages/data-store-json/src/data-store-json.ts:155-236 | credential, claims and DID tables after a save, and one notification exactly when asked for |
| JsonStore.DataStoreJson.DeleteVerifiableCredential | packages/data-store-json/src/data-store-json.ts:242-259 | the credential and the claims with its hash are gone and nothing else; one notification, or none when it was not there |
| JsonStore.DataStoreJson.Decode | packages/data-store-json/src/data-store-json.ts:297-305 | the credentials of a presentation are decoded in order, or the first that fails is the error |
| JsonStore.DataStoreJson.SaveVerifiablePresentation | packages/data-store-json/src/data-store-json.ts:273-343 | the presentation, its credentials and the DIDs it mentions are stored, with one notification in all; an undecodable credential leaves the tables as they were |
| JsonStore.DataStoreJson.SaveMessageWithContents | packages/data-store-json/src/data-store-json.ts:107-132 | a message with nested presentations that nest credentials: the tables afterwards, and a single notification exactly when all of it could be saved |
| JsonStore.DataStoreJson.DeleteMessage | packages/data-store-json/src/data-store-json.ts:143-153 | a message is deleted with one notification, or nothing happens |
| StoreMeaning.SameCredentialIff | packages/data-store-json/src/data-store-json.ts:155-192 | two credentials are one entry exactly when they are equal or carry the same identifying JWT |
| StoreMeaning.SamePresentationIff | packages/data-store-json/src/data-store-json.ts:273-296 | the same for presentations |
| StoreMeaning.SameMessageIff | packages/data-store-json/src/data-store-json.ts:107-116 | two messages are one entry exactly when they are equal or have the same id, which is not empty |
| StoreMeaning.DidsIntroduced | packages/data-store-json/src/data-store-json.ts:121-129 | the DIDs mentioned that were unknown get an empty entry each, and no others |
| StoreMeaning.CredentialSaved | packages/data-store-json/src/data-store-json.ts:155-236 | field by field what a save puts into the tables: its own entry, one claim per member of the subject but `id`, and the DIDs it mentions; all else stays |
| StoreMeaning.LastCredentialStays | packages/data-store-json/src/data-store-json.ts:118-120 | of several credentials saved in turn the last one for an entry stays |
| StoreMeaning.CredentialDeleted | packages/data-store-json/src/data-store-json.ts:242-259 | a delete takes the credential and the claims that go with it, and nothing else |
| StoreMeaning.DecodedInTurn | packages/data-store-json/src/data-store-json.ts:297-305 | the credentials of a presentation are decoded one for one; it fails exactly when a JWT cannot be decoded |
| StoreMeaning.PresentationSaved | packages/data-store-json/src/data-store-json.ts:273-343 | field by field what saving a presentation puts into the tables |
| StoreMeaning.MessageSaved | packages/data-store-json/src/data-store-json.ts:107-132 | what saving a readable message puts into the tables |
| StoreMeaning.UnreadableMessageLeft | packages/data-store-json/src/data-store-json.ts:107-132 | what a message that cannot be read leaves behind: itself, its credentials, and its presentations up to the unreadable one |
| StoreMeaning.NestedSaved | packages/data-store-json/src/data-store-json.ts:118-120 | the credentials of several presentations are saved as if one after the other |
| StoreMeaning.LastPresentationStays | packages/data-store-json/src/data-store-json.ts:118-120 | of several presentations saved in turn the last one for an entry stays |
| JsonStoreRuns.NoDanglingClaims | packages/data-store-json/src/data-store-json.ts:194-259 | no claim points to a credential that is not there |
| JsonStoreRuns.SaveKeepsIndexIff | packages/data-store-json/src/data-store-json.ts:155-236 | a save keeps the claims table equal to the subject entries of the stored credentials exactly when it loses no claim type of a credential it replaces |
| JsonStoreRuns.DeleteKeepsIndex | packages/data-store-json/src/data-store-json.ts:242-259 | a delete keeps it so |
| JsonStoreRuns.SaveThenDeleteRestores | packages/data-store-json/src/data-store-json.ts:155-259 | saving and then deleting a fresh credential restores the credential and claims tables; only `dids` may have grown |
| JsonStoreRuns.RunKeepsIndex | packages/data-store-json/src/data-store-json.ts:107-343 | every run of message, credential and presentation saves and deletes keeps the claims index in step, when canonical forms determine credentials |
| JsonStoreRuns.RunFromEmpty | packages/data-store-json/src/data-store-json.ts:107-343 | in particular every run from empty tables |
| JsonStoreRuns.StaleClaim | packages/data-store-json/src/data-store-json.ts:155-236 | without that determinacy the index goes stale, by an example |
| JsonStoreRuns.RunExtendsDids | packages/data-store-json/src/data-store-json.ts:121-129 | no run removes or overwrites an entry of `dids` |
| JsonStoreRuns.PresentationsFailIff | packages/data-store-json/src/data-store-json.ts:118-120 | saving a message's presentations fails exactly when one of them has an undecodable credential |
| JsonStoreRuns.NotifiesOrLeaves | packages/data-store-json/src/data-store-json.ts:107-153 | each call notifies once or leaves the tables unchanged, except for a message with an undecodable nested credential |
| JsonStoreRuns.LogReplaysIff | packages/data-store-json/src/data-store-json.ts:107-343 | over every run whose first unreadable message, if any, does not replace an unreadable one, consecutive notifications chain and replaying them yields the current tables exactly when every message of the run is readable |
| JsonStoreRuns.LogReplaysFromReadableIff | packages/data-store-json/src/data-store-json.ts:107-343 | the same for every run whatsoever that starts with readable messages only |
| JsonStoreRuns.LogReplaysFromEmptyIff | packages/data-store-json/src/data-store-json.ts:107-343 | and for every run that starts from empty tables |
| JsonStoreRuns.LogReplaysExactly | packages/data-store-json/src/data-store-json.ts:107-343 | for every run from any tables, the log replays exactly when each longest stretch of calls that notify nobody leaves the tables as it found them |
| JsonStoreRuns.UnnoticedStays | packages/data-store-json/src/data-store-json.ts:107-153 | an unreadable message stored without a notification stays until the next one, whose old state is then not the state notified last |
| JsonStoreRuns.LogReplays | packages/data-store-json/src/data-store-json.ts:107-343 | in particular the log replays over every run of readable messages, each notification starting where the last one ended |
| JsonStoreRuns.UnreadableMessageUnnoticed | packages/data-store-json/src/data-store-json.ts:107-132 | a run of one unreadable message under a new key notifies nothing and does not replay |
| LikePattern.PlainParses | packages/data-store-json/src/data-store-json.ts:529-534 | the translated text of a pattern without regex metacharacters parses, as a regular expression, into the pattern's own literals and wildcards |
| LikePattern.TranslateConcat | packages/data-store-json/src/data-store-json.ts:532-532 | the expression is built character by character |
| LikePattern.TranslateOne | packages/data-store-json/src/data-store-json.ts:532-532 | `_` becomes a dot, `%` a starred dot, and any other character stays |
| LikePattern.PiecesMeanLike | packages/data-store-json/src/data-store-json.ts:529-534 | matching those pieces is a direct LIKE match whose wildcards do not match line terminators |
| LikePattern.PlainTestIsUnitLike | packages/data-store-json/src/data-store-json.ts:529-534 | for every plain pattern and every text the regex test, of any engine that reads the parsed fragment as JavaScript does without the `u` flag, is a LIKE match over UTF-16 units whose wildcards do not match line terminators |
| LikeMeaning.ByRuns | packages/data-store-json/src/data-store-json.ts:529-534 | on single-line text both go by runs of wildcards between fixed characters: LIKE asks each run for its number of characters, the regex test for its number of units |
| LikeMeaning.TranslationPreservesMeaning | packages/data-store-json/src/data-store-json.ts:529-534 | for plain patterns and single-line texts the test accepts exactly what a case-sensitive SQL LIKE accepts, if the text has no character of two units or each run of wildcards has no `_` or a single one beside a `%` |
| LikeMeaning.PlainKeepsIffNarrow | packages/data-store-json/src/data-store-json.ts:529-534 | a plain pattern keeps LIKE's meaning on all single-line texts exactly when its runs of wildcards are such |
| LikeMeaning.KeepsMeaningIff | packages/data-store-json/src/data-store-json.ts:529-534 | of the patterns whose translation is in the fragment, exactly the plain ones with such runs keep LIKE's meaning on all single-line texts |
| LikeMeaning.NotPlainDiffers | packages/data-store-json/src/data-store-json.ts:529-534 | for every pattern of the fragment that is not plain, a text that the regex accepts and LIKE does not |
| LikeMeaning.NeverTooMuchIff | packages/data-store-json/src/data-store-json.ts:529-534 | on texts of any number of lines a plain pattern accepts no more than LIKE exactly when no run of wildcards has two `_` |
| LikeMeaning.KeepsMeaningEverywhereIff | packages/data-store-json/src/data-store-json.ts:529-534 | and accepts the same on all of them exactly when it has no wildcard |
| LikeMeaning.TwoUnitCharacter | packages/data-store-json/src/data-store-json.ts:529-534 | `_` refuses U+1F600, which LIKE accepts, and two of them accept it, which LIKE refuses |
| JsonQuery.BuildFilter | packages/data-store-json/src/data-store-json.ts:496-564 | the loop returns the conjunction of the items' tests, negations included, or the error of the first item that is ill-formed or whose pattern the regex engine refuses, wherever it stands |
| JsonQuery.LikeItemMeans | packages/data-store-json/src/data-store-json.ts:529-534 | on single-line text an item with a plain pattern passes exactly what SQL's LIKE accepts, under that condition on text or pattern |
| CellTests.EqualMeans | packages/data-store-json/src/data-store-json.ts:510-517 | a text equals a value exactly when they are the same; a list, for a value without commas, exactly when the value is part of an element; nothing else does |
| CellTests.AnyMeans | packages/data-store-json/src/data-store-json.ts:543-555 | a text is among the values; a list holds one of them or, for a single value, an element that contains it; nothing else passes |
| CellTests.IsNullMeans | packages/data-store-json/src/data-store-json.ts:518-520 | exactly an absent cell and `null` count as null |
| CellTests.BoundMeans | packages/data-store-json/src/data-store-json.ts:521-542 | bounds on cells that are not texts: a valid date is compared as its time and `null` as 0, with the number the bound is; nothing else passes |
| CellTests.BetweenMeans | packages/data-store-json/src/data-store-json.ts:506-509 | a range is both of its bounds, ends included, on every cell |
| CellTests.ListMeans | packages/data-store-json/src/data-store-json.ts:506-542 | a list is compared and matched as its joined text |
| CellTests.LikeMeans | packages/data-store-json/src/data-store-json.ts:529-534 | what a pattern is matched against, with the words `undefined` and `null` for what is missing |
| CellTests.ThrowsExactly | packages/data-store-json/src/data-store-json.ts:506-547 | exactly which items throw: a wrong number of values, or a pattern that does not compile |
| CellTests.NumberRoundTrip | packages/data-store-json/src/data-store-json.ts:521-542 | a number in decimal is read back as that number, with a sign too, and no other text is a number but the empty one |
| CellTests.ListOrder | packages/data-store-json/src/data-store-json.ts:602-610 | lists are ordered as the numbers their joined texts are, and tie where these are none |
| JsonQuery.Comparator | packages/data-store-json/src/data-store-json.ts:591-613 | the loop over order columns returns the first non-zero comparison |
| JsonQuery.ComparatorConsistent | packages/data-store-json/src/data-store-json.ts:591-613 | with every order column present and holding valid dates only or texts only the comparator is a total preorder |
| JsonQuery.OrderMeaning | packages/data-store-json/src/data-store-json.ts:591-613 | for such columns a row comes first exactly when it precedes the other in some order column, in that column's direction, and all earlier columns leave the two tied |
| JsonQuery.MissingDateInconsistent | packages/data-store-json/src/data-store-json.ts:602-610 | a row without the date compares equal to one dated other than 0, but not the other way round, in either direction; an invalid date compares equal to both, both ways |
| JsonQuery.DateColumnConsistentIff | packages/data-store-json/src/data-store-json.ts:602-610 | over rows with a valid date, an invalid one, null or nothing in the column, the comparator is a total preorder exactly when each row has a valid date or null, or all valid dates are equal, and 0 if a row has null or nothing |
| JsonQuery.TextColumnConsistentIff | packages/data-store-json/src/data-store-json.ts:606-610 | over rows with a text, null or nothing, the comparator is a total preorder exactly when each text collates equal to the word `undefined` if a row has nothing, collates with the word `null` as its number compares with 0 if a row has null, and collates equal to `null` too if there are both |
| JsonQuery.ColumnsConsistentIff | packages/data-store-json/src/data-store-json.ts:591-613 | with several order columns, the first of them consistent, the comparator is a total preorder exactly when the other columns give one on each group of rows that the first one ties |
| JsonQuery.MissingDateMaskedIff | packages/data-store-json/src/data-store-json.ts:591-613 | with an inconsistent first column: a row dated other than 0 and one without the date are ordered consistently exactly when the later columns order them as the date does in the one direction in which it decides |
| JsonQuery.StableSortSorts | packages/data-store-json/src/data-store-json.ts:591-613 | the reference sort is ordered and keeps the order of equal rows, given a consistent comparator |
| JsonQuery.StableSortUnique | packages/data-store-json/src/data-store-json.ts:591-613 | and it is the only such rearrangement, so the runtime's stable sort gives the same |
| JsonQuery.SelectedInTwoSteps | packages/data-store-json/src/data-store-json.ts:579-588 | filtering and then authorizing selects the rows that pass both |
| JsonQuery.EveryoneAuthorized | packages/data-store-json/src/data-store-json.ts:580-588 | without an authorized DID no row is withheld |
| JsonQuery.SelectedExactly | packages/data-store-json/src/data-store-json.ts:579-588 | a row is selected exactly when it is in the table, passes every item and lists the authorized DID |
| JsonQuery.VisibleExactly | packages/data-store-json/src/data-store-json.ts:579-588 | in terms of cells: a row is selected exactly when it passes every item and, with an authorized DID, one of the authorization columns is that DID or a list that holds it |
| JsonQuery.WindowIsSlice | packages/data-store-json/src/data-store-json.ts:617-624 | the two successive slices are one contiguous slice, starting at `skip`, or at `2 * skip - 1` when `skip` is at least two and `take` is given |
| JsonQuery.WindowIsPageIff | packages/data-store-json/src/data-store-json.ts:617-624 | on distinct rows it is the requested page exactly when `take` is absent, `skip` is at most one, or nothing is left to skip to |
| JsonQuery.BuildQuery | packages/data-store-json/src/data-store-json.ts:573-627 | the imperative query returns filter, authorization, stable sort and window, or the filter's error as soon as there is a row |
| CellTests.QueryThrows | packages/data-store-json/src/data-store-json.ts:573-579 | a query throws exactly when an item does and there is a row to notice it on, with the error of the first such item |
| JsonQuery.QueryMeaning | packages/data-store-json/src/data-store-json.ts:573-627 | when the order columns order the selected rows consistently, as the lemmas above decide: that window of any stable sort of exactly the selected rows |
| WhereObject.CreateWhereObject | packages/data-store/src/data-store-orm.ts:356-414 | the loop compiles one operator per column, later items replacing earlier ones, or the error of the first ill-formed item |
| WhereObject.OperatorMeansTest | packages/data-store/src/data-store-orm.ts:362-409 | an item's operator is refused exactly when the JSON store's test throws, a refused pattern aside; on a text, negation included, it selects what that test passes exactly when the two orders of texts place the text alike for the item's bounds, or LIKE and the regex test agree on it |
| WhereObject.AbsentCellAgreesIff | packages/data-store/src/data-store-orm.ts:356-414 | on a row that lacks the column the stores agree exactly about items that are not negated, ask for the lack itself or list no values; a pattern is matched by the JSON store against the word `undefined` |
| WhereObject.PortableIff | packages/data-store/src/data-store-orm.ts:362-409 | both stores read an item alike on all texts exactly when a single bound has no character above the surrogates or of two units, a pair of bounds meets the condition of `SameRangeIff`, and a pattern is plain without wildcards; on all single-line texts, a pattern is plain with narrow runs |
| TextOrder.SameOrderIff | packages/data-store-json/src/data-store-json.ts:519-544 | comparing two texts by units and by characters differs exactly when the first characters to differ are one of two units and one above the surrogates |
| TextOrder.SameRangeIff | packages/data-store-json/src/data-store-json.ts:506-509 | the exact condition on two bounds for the two orders to put the same texts between them |
| WhereObject.CompiledConditions | packages/data-store/src/data-store-orm.ts:358-412 | every column holds the operator of its last item |
| WhereObject.LastPerColumnMembers | packages/data-store/src/data-store-orm.ts:358-412 | the items that survive are the last ones of their columns |
| WhereObject.WhereObjectIsLastItems | packages/data-store/src/data-store-orm.ts:356-414 | the where-object selects the rows that pass the last item of every column, on rows of texts that both stores read alike |
| WhereObject.BackEndsAgree | packages/data-store/src/data-store-orm.ts:356-414 | with pairwise distinct columns both stores refuse the same queries and accept the same such rows |
| WhereObject.RepeatedColumnDiffers | packages/data-store/src/data-store-orm.ts:356-414 | with a repeated column they can differ, by an example |
| WhereObject.OrdersOfStoresDiffer | packages/data-store/src/data-store-orm.ts:356-414 | with a bound above the surrogates they can differ, by an example |
| StoreAgreement.StoresAgreeIff | packages/data-store/src/data-store-orm.ts:356-414 | for every query without an error: both stores pass the same rows of texts, or of single-line texts, exactly when neither passes any, or the one condition of each column selects the texts that pass all items about the column |
| StoreAgreement.ForgettingIff | packages/data-store/src/data-store-orm.ts:358-412 | keeping only the last item of each column makes no difference on any row of texts exactly when some last item passes no text, or each forgotten item is implied by the last one for its column |
| StoreAgreement.PortableAgreeIff | packages/data-store/src/data-store-orm.ts:356-414 | so both stores agree on all such rows for exactly such queries, when they read all bounds and patterns alike |
| StoreAgreement.DistinctColumnsAgreeIff | packages/data-store/src/data-store-orm.ts:356-414 | with pairwise distinct columns they agree on all rows of texts, or on all single-line ones, exactly when neither passes any, or they read all bounds and patterns alike |
| ClaimsQuery.FirstOccurrencesMeaning | packages/data-store-json/src/data-store-json.ts:406-412 | deduplicating through a set keeps the same elements, once each, in the order of their first occurrences |
| ClaimsQuery.GetVerifiableCredentialsByClaims | packages/data-store-json/src/data-store-json.ts:397-424 | the claims query yields the credentials of the filtered claims, each once, or an error when one is missing |
| ClaimsQuery.ReduceByHash | packages/data-store/src/data-store-orm.ts:210-215 | the reduction keeps a credential unless one with its hash was kept before |
| ClaimsQuery.DistinctByHashMeaning | packages/data-store/src/data-store-orm.ts:210-215 | which are the first occurrences of the hashes |
| ClaimsQuery.GetVerifiableCredentialsBySqlClaims | packages/data-store/src/data-store-orm.ts:204-215 | for the same claims over an agreeing index both stores return the same credentials |
| ClaimsQuery.QueryMembers | packages/data-store-json/src/data-store-json.ts:573-627 | returned rows pass the filter, and without `skip` and `take` all passing rows are returned |
| ClaimsQuery.ByClaimsExactly | packages/data-store-json/src/data-store-json.ts:397-424 | hashes are pairwise distinct, every result is stored and has a matching claim, and without `skip` and `take` every credential with a matching claim is found |
| ClaimsQuery.EqualOnClaims | packages/data-store-json/src/data-store-json.ts:496-517 | which claims an equality on any column selects, in terms of the claim's own fields |
| ClaimsQuery.DateOnClaims | packages/data-store-json/src/data-store-json.ts:521-542 | which claims a bound on a date selects: those with a valid date on that side of it |
| ClaimsQuery.ClaimsSeen | packages/data-store-json/src/data-store-json.ts:401-406 | an authorized DID sees exactly the claims it issued or is the subject of |
| EventQueue.NextInv | packages/core/src/agent.ts:91-112 | every step, of the listeners' promises or of the drain loop, keeps the invariant: whatever is no longer queued is settled and handled, and every handled rejection has caused its reaction once |
| EventQueue.MeasureDecreases | packages/core/src/agent.ts:219-231 | every step uses up a weighted count of pending promises and queue entries |
| EventQueue.Progress | packages/core/src/agent.ts:219-231 | while `emit` is in flight some step is possible |
| EventQueue.DrainTerminates | packages/core/src/agent.ts:219-231 | no schedule is longer than a bound given by the numbers of listeners |
| EventQueue.DrainOutcome | packages/core/src/agent.ts:219-231 | under every schedule `emit` throws exactly when an error listener rejected or a rejection pretended to be the crash; otherwise the queue is empty and no promise is left unsettled or unhandled |
| EventQueue.InvocationsExact | packages/core/src/agent.ts:91-112 | under every schedule and at every moment each listener of the type was invoked once, and error listeners exactly once each for every handled rejection of an ordinary listener, for nothing else |
| EventBus.Agent.constructor | packages/core/src/agent.ts:91-112 | the loops over plugins and event types leave, for each type, as many listeners as there are places where a plugin with an `onEvent` names it |
| EventBus.RegisteredCount | packages/core/src/agent.ts:91-112 | the number of listeners of a type is the number of places where a plugin with an `onEvent` names it |
| EventBus.NamedIsInvoked | packages/core/src/agent.ts:91-112 | so a plugin with an `onEvent` that names the type is invoked |
| EventBus.Agent.CallListeners | packages/core/src/agent.ts:93-98 | calling a type's listeners queues their promises in order of registration |
| EventBus.Agent.OnRejection | packages/core/src/agent.ts:99-110 | a rejected listener invokes all error listeners; a rejected error listener queues the crash |
| EventBus.Agent.Await | packages/core/src/agent.ts:223-229 | while one promise is awaited any promises settle in any way; every such stretch is a schedule of the state machine and ends |
| EventBus.Agent.Emit | packages/core/src/agent.ts:219-231 | the drain loop, run against any environment, ends in an outcome of the state machine: each listener that the plugins of the type registered was invoked once, and each error listener once for each handled rejection of one of them |
| DidRecords.FindEntry | packages/did-manager/src/id-manager.ts:69-78 | the first configured provider that passes a test, none earlier passing, or none when no one does |
| DidHistory.ServesFirst | packages/did-manager/src/id-manager.ts:69-78 | the provider found for a name is the first that has the name or, if none has it, the first whose prefix it matches; there is none exactly when no provider does either |
| DidHistory.SameProviderIff | packages/did-manager/src/id-manager.ts:142-145 | two names are compatible exactly when they are equal or served by the same provider object |
| DidHistory.MadeIff | packages/did-manager/src/id-manager.ts:101-150 | an identifier is made exactly when its alias is not taken, the named or default provider is configured, and it delivers; which error it is otherwise |
| DidHistory.DoneIff | packages/did-manager/src/id-manager.ts:209-269 | an operation on a stored identifier is done exactly when it is stored, its provider is configured, and the provider agrees; which error it is otherwise |
| DidHistory.PassedStays | packages/did-manager/src/id-manager.ts:101-269 | a call leaves every identifier that it neither makes, imports nor changes as it was |
| DidHistory.ChangedIs | packages/did-manager/src/id-manager.ts:179-269 | an accepted change field by field: key by key with multiplicity, services in order, alias and provider |
| DidHistory.KeptInOrder | packages/did-manager/src/id-manager.ts:266-266 | what a removal keeps of a list of services is what it keeps of its parts, in order |
| DidHistory.KeptMembers | packages/did-manager/src/id-manager.ts:266-266 | a service is kept exactly when it is there and has another id |
| DidHistory.StoreIsHistory | packages/did-manager/src/id-manager.ts:101-269 | over every run: an identifier is stored, with that provider, alias, key or service, exactly when it was so at first or some call brought it about and no call has ended it since |
| DidRecords.FailureChangesNothing | packages/did-manager/src/id-manager.ts:101-269 | a call that fails, for whatever reason and also in its provider, leaves every record's alias, keys (as a multiset) and services as they were |
| DidRecords.AddThenRemoveKey | packages/did-manager/src/id-manager.ts:219-243 | adding a key under a fresh kid and removing that kid restores the store |
| DidRecords.AddThenRemoveService | packages/did-manager/src/id-manager.ts:245-269 | adding a service under a fresh id and removing that id restores the store, order included |
| DidRecords.StepKeepsUniqueIff | packages/did-manager/src/id-manager.ts:101-269 | a call keeps aliases unique exactly when it fails or its alias, given or supplied by the provider, is not in use by another record |
| DidRecords.RunKeepsUnique | packages/did-manager/src/id-manager.ts:101-269 | over every run of create, getOrCreate, delete and key and service updates whose providers supply no alias, no two stored identifiers share one |
| DidRecords.FoundUnlessMismatch | packages/did-manager/src/id-manager.ts:131-150 | for a known alias getOrCreate returns the stored identifier exactly when no provider or a compatible one is named, calls no provider to create and changes nothing |
| DidRecords.SparedLasts | packages/did-manager/src/id-manager.ts:101-269 | an identifier that no call deletes or replaces keeps its alias and provider |
| DidRecords.SecondGetOrCreate | packages/did-manager/src/id-manager.ts:101-217 | over every routine run: a later getOrCreate for the alias returns the first one's identifier exactly when whatever deleted or replaced it in between was made up for by making it again under the alias, and no provider or a compatible one is named; it then changes nothing |
| DidRecords.SecondGetOrCreateSpared | packages/did-manager/src/id-manager.ts:131-150 | with nothing deleting or replacing it in between, exactly when no provider or one compatible with the first one's is named |
| DidRecords.AliasLastsIff | packages/did-manager/src/id-manager.ts:101-269 | an identifier still has its alias after a run exactly when each call that deleted or replaced it is followed by, or is, one that made it under the alias |
| DidRecords.ReplacedIsForgotten | packages/did-manager/src/id-manager.ts:118-127 | such a replacement exists: a run in which the second getOrCreate makes another identifier |
| DidManager.MemoryDidStore.GetByAlias | packages/did-manager/src/memory-did-store.ts:24-34 | finds a record with the alias exactly when one has it, never for the empty alias |
| DidManager.MemoryDidStore.ListDids | packages/did-manager/src/memory-did-store.ts:52-68 | lists each stored record that matches the given alias and provider once |
| DidManager.MemoryDidStore.DeleteDid | packages/did-manager/src/memory-did-store.ts:36-39 | removes that record and nothing else |
| DidManager.MemoryDidStore.StripKeys | packages/did-manager/src/memory-did-store.ts:43-47 | removes the private halves of the listed key objects in place and exposes none elsewhere |
| DidManager.MemoryDidStore.NoPrivateKeys | packages/did-manager/src/memory-did-store.ts:41-50 | no key of a stored record holds its private half |
| DidManager.MemoryDidStore.ImportDid | packages/did-manager/src/memory-did-store.ts:41-50 | stores a shallow copy that shares its lists and keys: the record is under its own DID, no stored key holds a private half, all other records are as before |
| DidManager.DidManager.CallProvider | packages/did-manager/src/id-manager.ts:226-226 | a provider may reorder the shared key list, whatever it answers |
| DidManager.DidManager.Ask | packages/did-manager/src/id-manager.ts:224-226 | lookup, provider choice and provider call: refused for exactly the stated reasons, contents unchanged |
| DidManager.DidManager.AddKey | packages/did-manager/src/id-manager.ts:219-230 | pushes onto the shared list and imports: a step of the value-level state machine, and the store stays valid |
| DidManager.DidManager.RemoveKey | packages/did-manager/src/id-manager.ts:232-243 | the same for removing all keys of a kid |
| DidManager.DidManager.AddService | packages/did-manager/src/id-manager.ts:245-256 | the same for adding a service |
| DidManager.DidManager.RemoveService | packages/did-manager/src/id-manager.ts:258-269 | the same for removing services by id |
| DidManager.DidManager.Create | packages/did-manager/src/id-manager.ts:101-128 | check for the alias, provider choice, provider answer, import: the stated failure or the stored record, whose value the returned identifier has, with the lists of the provider's answer, the named or default provider, and the given alias or the provider's |
| DidManager.DidManager.Import | packages/did-manager/src/id-manager.ts:189-206 | stores the keys the key manager returned under the given DID, or fails without a change at the first it rejects |
| DidManager.CollectedIs | packages/did-manager/src/id-manager.ts:193-197 | the stored keys are those the key manager answered with, one for each |
| DidManager.DidManager.GetOrCreate | packages/did-manager/src/id-manager.ts:131-150 | the stored identifier itself, a provider mismatch, or a creation; the identifier returned is the one replied, with the stored value, and there is none exactly on failure |
| DidManager.DidManager.Delete | packages/did-manager/src/id-manager.ts:209-217 | the record is removed once its provider agrees |
| DidManager.DidManager.SetAlias | packages/did-manager/src/id-manager.ts:179-186 | the stored record's alias is replaced, whether or not another record has it |
| DidManager.KeepKeysIsWithout | packages/did-manager/src/id-manager.ts:240-240 | the filter drops exactly the keys of the kid |
| IonRotation.SelectedIs | packages/did-provider-ion/src/functions.ts:208-228 | the selection throws exactly when some key has metadata without an ION part, and else keeps exactly the keys of the relation whose commitment is missing or the one asked for |
| IonMeaning.SelectedInOrder | packages/did-provider-ion/src/functions.ts:208-228 | the keys selected are those of the relation whose commitment is left open, missing or the one asked for, in the order of the array |
| IonMeaning.ChosenIs | packages/did-provider-ion/src/functions.ts:164-180 | the key found is the last of the array that fits, or for 'genesis' the first |
| IonMeaning.CommitmentIsPoint | packages/did-provider-ion/src/functions.ts:125-149 | two keys have the same commitment exactly when they are the same curve point, whatever their encodings |
| IonMeaning.TruncatedIs | packages/did-provider-ion/src/functions.ts:231-244 | an id is shortened to its first 50 characters: two ids are told apart exactly when they differ in these |
| IonRotation.DisclosesCommitted | packages/did-provider-ion/src/ion-did-provider.ts:367-398 | when update keys carry their own commitments, the key found by the recomputed commitment hashes to the resolved document's updateCommitment, whatever order the sort leaves |
| IonRotation.DisclosesCommittedIff | packages/did-provider-ion/src/functions.ts:208-228 | when update keys carry their own commitment or none, a rotation can only disclose a key that hashes to the resolved commitment exactly when each update key without a commitment is that key |
| IonRotation.SecondLookupSucceeds | packages/did-provider-ion/src/ion-did-provider.ts:318-398 | both lookups succeed exactly when some update key hashes to the resolved commitment |
| IonRotation.IonDidProvider.ImportProvidedOrGeneratedKey | packages/did-provider-ion/src/ion-did-provider.ts:411-471 | update and recovery keys are imported with the commitment to themselves, although it is computed from a temporary copy; exactly when it fails the key manager is unchanged |
| IonRotation.IonDidProvider.GetVeramoKey | packages/did-provider-ion/src/functions.ts:164-180 | reorders the caller's array and returns the last of the keys selected in that order, or the first for 'genesis'; fails exactly when there is none or a key lacks its ION part |
| IonRotation.IonDidProvider.RotateVeramoKey | packages/did-provider-ion/src/ion-did-provider.ts:318-398 | current key found twice, next key imported with its own commitment; a failure leaves the key manager unchanged, and why it can fail; it succeeds exactly when the resolved commitment belongs to an update key and the import works |
| IonRotation.IonDidProvider.Update | packages/did-provider-ion/src/ion-did-provider.ts:185-207 | what the four update operations share: which outcome it is, and in each the effect on the key manager and the content of the request |
| IonRotation.IonDidProvider.AddKey | packages/did-provider-ion/src/ion-did-provider.ts:178-207 | that effect, or a refusal without options |
| IonRotation.IonDidProvider.AddService | packages/did-provider-ion/src/ion-did-provider.ts:210-236 | that effect |
| IonRotation.IonDidProvider.RemoveKey | packages/did-provider-ion/src/ion-did-provider.ts:239-261 | that effect, with the kid cut to 50 characters |
| IonRotation.IonDidProvider.RemoveService | packages/did-provider-ion/src/ion-did-provider.ts:264-286 | that effect, with the id cut to 50 characters |
| IonRotation.IonDidProvider.DeleteIdentifier | packages/did-provider-ion/src/ion-did-provider.ts:160-175 | a deactivation discloses a recovery key that fits, is held by the key manager and hashes to the resolved recoveryCommitment; why it can fail |
| IonRotation.IonDidProvider.CreateIdentifier | packages/did-provider-ion/src/ion-did-provider.ts:73-150 | exactly when it succeeds; a created identifier has one key per option, of the private key provided or generated; its update and recovery keys carry their own commitments, all have ION metadata and are held by the key manager |
| IonRotation.UpdateReveals | packages/did-provider-ion/src/ion-did-provider.ts:178-286 | every update that completes reveals a key that hashes to the resolved commitment, if no update key without its own commitment is another key, and commits to the imported next key |
| IonMeaning.DisclosesPoint | packages/did-provider-ion/src/ion-did-provider.ts:178-286 | an update that completes on a document committed to a point discloses that point, is signed with a key of the identifier that has it, and commits to the point of the imported next key |
| IonRotation.RestoredIff | packages/did-provider-ion/src/ion-did-provider.ts:199-206 | with a fresh key id the key manager holds what it held before exactly when the operation failed before importing, or anchoring failed and the delete worked |
| IonRotation.AnchoredRotationSticks | packages/did-provider-ion/src/ion-did-provider.ts:367-398 | once the document resolves to the new commitment, the next rotation over the same keys finds its key and imports the next exactly when the import works and the new key is one of the old update keys |
| LdSuites.FilteredMembers | packages/credential-ld/src/ld-suite-loader.ts:22-27 | the filter holds exactly the suites that support key type and verification type |
| LdSuites.FilteredInOrder | packages/credential-ld/src/ld-suite-loader.ts:9-18 | what is filtered out of a list is what is filtered out of its parts, in order |
| LdSuites.FilteredOne | packages/credential-ld/src/ld-suite-loader.ts:9-18 | one suite is kept once for each time it lists the verification type, if it is for the key type |
| LdSuites.IndexAt | packages/credential-ld/src/ld-suite-loader.ts:9-18 | the index holds at every cell what filtering the list in order gives, once per listed occurrence, and no empty cell |
| LdSuites.IndexTotal | packages/credential-ld/src/ld-suite-loader.ts:29-33 | the whole index holds every suite once per type it lists |
| LdSuites.LdSuiteLoader.constructor | packages/credential-ld/src/ld-suite-loader.ts:9-18 | the nested index built by the loops, through an inner record that is changed while it is part of the index, is that index |
| LdSuites.LdSuiteLoader.AddSuite | packages/credential-ld/src/ld-suite-loader.ts:10-17 | one round of the loop adds the suite to each of its types' cells and touches no other key type |
| LdSuites.LdSuiteLoader.GetSignatureSuiteForKeyType | packages/credential-ld/src/ld-suite-loader.ts:22-27 | returns the in-order filter of the suites and throws exactly when it is empty |
| LdSuites.LdSuiteLoader.GetAllSignatureSuites | packages/credential-ld/src/ld-suite-loader.ts:29-33 | every suite once per type it lists |
| LdSuites.LdSuiteLoader.GetAllSignatureSuiteTypes | packages/credential-ld/src/ld-suite-loader.ts:35-39 | the verification types that some suite lists |
| LdSuites.FindSigningKeyWithId | packages/credential-ld/src/action-handler.ts:230-266 | the key asked for if its method's type is supported, else the first key of a supported type; throws exactly when there is none |
| LdSuites.FindKidIsFirst | packages/credential-ld/src/action-handler.ts:245-247 | the key asked for is the first of that kid |
| LdSuites.LookupThrowsIff | packages/credential-ld/src/action-handler.ts:242-265 | for a chosen key the suite lookup throws exactly when all suites listing its method's type are for other key types; never when keys are published under methods of their own type |
| LdSuites.ForeignMethodIsChosen | packages/credential-ld/src/action-handler.ts:242-265 | with any choice of the four shipped suites that includes the one for JSON web signatures, a secp256k1 key under a JSON web key method is the first supported key, although no verification type is shared across key types, and its lookup is empty |
| EthrNetwork.FindNetworkIsFirst | packages/did-provider-ethr/src/ethr-did-provider.ts:241-251 | a text finds the first entry with that chain id text, name or description |
| EthrMeaning.TextFinds | packages/did-provider-ethr/src/ethr-did-provider.ts:238-256 | a text finds the first entry whose name, description or chain id text it is |
| EthrMeaning.NothingFinds | packages/did-provider-ethr/src/ethr-did-provider.ts:238-256 | nothing specified finds the first entry for 'mainnet', or else the only entry |
| EthrMeaning.NumberFinds | packages/did-provider-ethr/src/ethr-did-provider.ts:242-251 | a number finds the first entry with that chain id, as a number or in a text that `BigInt` reads, and throws exactly when a text that it cannot read comes first |
| EthrNetwork.CreateIdentifier | packages/did-provider-ethr/src/ethr-did-provider.ts:182-221 | the network asked for by option or provider name, looked up and printed into the DID, or an error |
| EthrMeaning.RequestedIs | packages/did-provider-ethr/src/ethr-did-provider.ts:189-199 | the option decides which network is asked for; without one, what follows `did:ethr:` in the provider's name |
| EthrMeaning.CreatedByText | packages/did-provider-ethr/src/ethr-did-provider.ts:201-221 | an identifier created on a network asked for by text is on the first entry that goes by it and carries the text, unless it is 'mainnet'; it fails exactly when no entry goes by it |
| EthrMeaning.CreatedByDefault | packages/did-provider-ethr/src/ethr-did-provider.ts:201-221 | with nothing asked for it carries no network |
| EthrMeaning.CreatedByNumber | packages/did-provider-ethr/src/ethr-did-provider.ts:208-214 | asked for by number it carries the entry's name, or else the number in hexadecimal |
| EthrMeaning.HexRoundTrip | packages/did-provider-ethr/src/ethr-did-provider.ts:210-210 | the lower-case digits stand for that number, without leading zeros |
| EthrNetwork.LastEnd | packages/did-provider-ethr/src/ethr-did-provider.ts:272-273 | the matcher's greedy group ends at the last place that leaves a colon, an address and a single line |
| EthrMeaning.ParsedIff | packages/did-provider-ethr/src/ethr-did-provider.ts:272-278 | for every text: the matcher reads it exactly when it can be taken apart into `did:ethr`, an optional group, an address and more on one line, and then with the longest group |
| EthrNetwork.PrintedParses | packages/did-provider-ethr/src/ethr-did-provider.ts:208-214 | the network of a printed DID is read back exactly when it has no line terminator, colons and all; otherwise the DID does not match |
| EthrNetwork.RoundTripIff | packages/did-provider-ethr/src/ethr-did-provider.ts:272-278 | a DID leads back to the configuration it was created with exactly when its printed network stays on one line and that entry is the first to answer to it, or the only entry with nothing printed |
| EthrNetwork.TextRoundTrip | packages/did-provider-ethr/src/ethr-did-provider.ts:189-214 | an absent specifier always comes back, a text specifier exactly when it has no line terminator |
| EthrNetwork.NumberRoundTrip | packages/did-provider-ethr/src/ethr-did-provider.ts:208-211 | a numeric specifier comes back exactly when no earlier entry answers to its network's name, or, without a name, when its entry is the first to answer to the bare hex text |
| EthrNetwork.UnnamedNumberIsLost | packages/did-provider-ethr/src/ethr-did-provider.ts:208-211 | so an unnamed entry with a numeric chain id and no description is never found again |

## Left out

- DidCommRoundTrip.JweRoundTrip: documents list each verification method once per section, under an absolute id of their own DID, identifiers are stored under their own DID, and a key manager holds under an identifier's kid the secret of that key; without these the unpacker can take another key for the recipient's.
- DidCommConversion.ConvertIdentifierEncryptionKeys: the conversion of a key object's private half is not modelled; secrets are with the key manager.
- DidCommDelivery.SendArrives: for documents in which only the last DIDComm service has routing keys; `DidEndpointHop` says exactly what happens at a DID endpoint whose routing keys lead astray, and `PayloadArrivesIff` what happens to the payloads of a recipient's own services in all other documents.
- DidCommPacking.UnpackJwe: the merged recipient header is computed as a value, so that the decoded message object is changed in place is not visible; the ephemeral key is one term per message, and the raw library errors are one error.
- DidCommRoundTrip.MatchedKeys: managed keys are matched by public key only, not by blockchain account id; the round trips are about one packing and unpacking, and `DidCommConversion` says what the conversion of keys in place does to later ones.
- DidCommSending.DidComm.SendDidCommMessage: the `forwarded` and `sent` events, the handling of a returned message by the agent's message handlers, and resolution options are not modelled; random message ids are a counter.
- JsonStoreRuns.LogReplaysIff: a run whose first unreadable message takes the place of a stored unreadable one is left aside, since it may put back what is there; no run that starts from empty tables is, and `LogReplaysExactly` covers all runs by their tables.
- JsonStore.DataStoreJson.SaveMessageWithContents: the getters that only look up a table by key are not modelled.
- JsonStore.DataStoreJson.NotifyUpdate: tables are values here, so the deep copy of the old state that the source makes is that state itself; entries handed out by reference are not modelled.
- JsonQuery.BuildFilter: values are texts, dates, `null` and lists of texts; numbers in text form are decimal integers only, and other coercions of mixed types are not modelled.
- JsonStore.DataStoreJson.SaveVerifiableCredential: the reading of a date's text is the runtime's; a document comes with its dates as read, valid or not.
- JsonQuery.QueryMeaning: what a runtime's sort does with an inconsistent comparator is left open.
- JsonQuery.ColumnsConsistentIff: for an inconsistent first column only the pair of rows of `MissingDateMaskedIff` is characterised.
- WhereObject.BackEndsAgree: the `verifier` column and columns without a text are excluded (`AbsentCellAgreesIff` says where the stores differ on one that is not there); the database's reading of an operator is taken as binary comparison of texts, character by character, and its LIKE as case-sensitive.
- TextOrder.SameOrderIff: texts are sequences of Unicode characters, so those with a lone surrogate are not modelled; nor is the database's handling of them.
- LikeMeaning.KeepsMeaningIff: the regex engine is a parameter that is pinned down on expressions made of characters, dots and starred atoms; what it does with other metacharacters, and whether it accepts them, is left to it. Patterns with line terminators are left aside.
- JsonStoreRuns.RunKeepsIndex: the credentials written in a run are determined by their canonical form; `StaleClaim` shows that this is needed. The order of a JavaScript object's keys is not modelled.
- EventQueue.DrainOutcome: for one `emit` in flight whose listeners neither emit, nor throw synchronously, nor return nothing, and whose promises settle.
- DidRecords.RunKeepsUnique: calls follow one another; a call that runs between another's alias check and its import is not modelled.
- DidManager.MemoryDidStore.GetByAlias: with several records of one alias any of them may be returned, since the order of an object's keys is left open.
- DidManager.DidManager.Create: a provider's answer comes with key and service arrays of its own, not ones of a stored record.
- DidManager.DidManager.CallProvider: apart from reordering the key list a provider does not change the record it is handed; `didManagerUpdate`, which imports whatever a provider returns, is not modelled.
- IonRotation.IonDidProvider.GetVeramoKey: the order that sorting by `operationId` gives is left open, so which of several selectable keys is the latest is not stated.
- IonRotation.IonDidProvider.Update: a private method here, written out four times in the source. Keys other than secp256k1, the checks of the ION library and proof of work are one success or failure.
- LdSuites.LdSuiteLoader.GetAllSignatureSuites: the order of the result is left open.
- EthrNetwork.CreateIdentifier: key creation is a given compressed key, and `BigInt` of a text is a parameter.
- DID URL syntax beyond the part before `#`, `?`, `/` and `;`, relative key ids, conversion between key encodings, and the comparison of keys by blockchain account id are not modelled.
- Transports, HTTP, Ethereum and ION networks appear as success or failure only.
- Agent method merging and authorization, the message handler chain, the deprecated DIDComm alpha 1 packing, JSON-LD processing and W3C credential issuing are left out: they mostly dispatch to external code.
- TypeORM query builders, entities and migrations are left out, apart from the where-object and the claims reduction.

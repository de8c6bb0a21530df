# WireGate agent: the transactional core

WireGate's privileged agent changes a live WireGuard gateway. Every change
touches several stores that have no common transaction: the wg-quick
configuration file, the agent's database, the runtime interface and a journal
of operations. This project models the code that does it and proves what holds
after any mix of failures, crashes and restarts.

The files, from the bottom up:

- `Text`, `ConfigSyntax`: lines, white space, what one line of a wg-quick file
  says, lists of prefixes.
- `ConfigMeaning`: the reference meaning of a file, block by block, with no
  scan state. `ConfigAnalysis` holds the editor's own one-pass analysis and
  proves that it computes this meaning.
- `ConfigPatch`, `ConfigDocument`, `ConfigPeers`: patching, adding, removing and
  restoring peers as functions on text, and what they do to the meaning.
  `DocumentEditor` is the editor in its imperative form, a class whose loops are
  proved against those functions; `ServerRender` renders new documents.
- `ManagedConfig`: documents WireGate wrote itself, under every sequence of
  edits, and the plain list of peers ("registry") such a sequence refines.
- `ConfigOpenPatch`: patches of a block whose last line has no line end, and when
  they work all the same. `ConfigExamples`: documents on which an edit goes wrong.
- `ConfigRedacted`: the inventory's second reader of the same files.
- `EngineProtocol`, `Engine`: the journaled saga engine. The protocol module has
  the durable state, the moves allowed on it and theorems over every run of
  moves; the engine module has the code, each of whose host and journal calls is
  proved to make an allowed move.
- `PeerProtocol`, `PeerControl`: the same split for creating, updating,
  disabling, enabling and revoking a peer. `PeerOperations` joins them with the
  document edits: whole histories of operations. `PeerRecords` adds the database's
  rows of peers, which every history keeps in step with the file, and of addresses;
  `PeerDatabase` has the transactions that write them.
- `FileExchange`: the exchange of the configuration file as a compare-and-swap
  against an outside editor.
- `AdoptionTables`, `AdoptionStore`, `AdoptionService`: taking over an interface
  somebody else configured, and giving it back.
- `Prefixes`, `Ipam`, `PeerAddresses`: prefix sets, the address allocator, what
  create, disable and enable do to the rows of peers and addresses, and the
  allocation rows of a peer update. `AddressRuns` has every history of such
  changes.
- `OperationStore`, `Pagination`, `Envelope`: the operation table, its pages,
  and sealed secrets.

How failures are modelled: a store or host object has a field `alive`. Any call
may find the process dead, after which no call has an effect; any call may fail;
an effect that fails may have done anything to its own cell. A new incarnation
starts on the durable fields alone. `reliable` marks an incarnation in which
nothing fails; the liveness clauses speak of those. A dead branch of the source
that the invariants exclude is kept as `assert false`.

Values whose text form is left abstract (keys, prefixes) come from a `Syntax`
record: which trimmed strings are valid keys, and a canonical printer for
prefixes. Its laws (`Lawful`) are: the empty string is neither; canonical texts
are not empty, hold no white space and no comma, and are their own canonical
text; a string with a blank in it is neither a valid key nor a prefix. Nothing
else is required of keys: values with line breaks in them are excluded by name
(`Unbroken`, `UnbrokenPeer`) where a theorem needs it. Of a preshared key the
meaning of a file keeps only whether there is one.

## What the proofs found

The properties below hold with exactly these exceptions, each of which has a
lemma of its own.

- A step journaled as failed whose effect is nevertheless in place stops
  recovery for good: `failed -> applied` is not an edge
  (`EngineProtocol.StuckIsReachable`; `Engine.Engine.Recover` proves that it is
  the only such state).
- `PatchPeer` appends a missing key without ending an open last line. The lines
  come out as the edit made them if and only if the block is ended, or the patch
  takes its last line away, or it adds none (`ConfigDocument.PatchKeepsLines`).
  The text says what the edit meant in one more case, an open line of white
  space (`ConfigOpenPatch.PatchSays`), and the peers read as requested in one
  more, a keepalive of zero that is lost behind a line nobody reads
  (`ConfigOpenPatch.PatchReadsBack`); everywhere else the patch succeeds and the
  file means something else (`ConfigDocument.PatchLost`, and
  `ConfigExamples.LostEndpoint` for a file and a patch). From a document WireGate
  wrote this never happens (`ManagedConfig.ManagedStaysManaged`).
- `AddPeer` looks for a duplicate under the key as given but writes a key that
  reads back trimmed. A copy of a listed key behind a blank is accepted and
  leaves a document that can no longer be edited
  (`ConfigExamples.PaddedCopyAccepted`, `ConfigExamples.PaddedCopyExample`);
  `ConfigPeers.AddPeerEffect` gives the exact condition.
- Restoring a removed block can be refused for size when fewer than four bytes
  are left below the limit, since a separator may be added
  (`ConfigPeers.RemoveThenRestore`; `ConfigExamples.RemovalRefusedBack` for a
  file).
- After an exchange of the file whose swap back failed, the rollback of the same
  process does not look at the file again and ends `rolled_back` with the
  proposed file in place (`PeerProtocol.StrandedRollback`; `StoresAgree` has the
  exact condition).
- The rollback of a create takes a failed inspection for an absent peer, and
  ends `rolled_back` with the peer still in the runtime
  (`PeerProtocol.BlindRollback`). This is the only way: a rolled back operation
  on a running interface left the runtime as it was if and only if it did not
  happen, and it happens to creates alone (`PeerProtocol.StoresAgree`,
  `PeerControl.Service.RollbackPeerCreate`).
- Enabling a peer makes no overlap check; it keeps peers apart exactly if the
  check of the other operations would have passed
  (`PeerAddresses.EnableKeepsApartIff`). A create, a disable, a create of a second
  peer and an enable, each with all its checks, end with two active peers that
  share a prefix (`PeerAddresses.EnableCanCollide`,
  `PeerAddresses.EnableCollidesFromEmpty`). Over every history of creates, updates,
  disables, enables and revokes, active peers stay apart if and only if every
  enable would have passed (`AddressRuns.RunKeepsApartIff`).
- The completing transaction refuses some operations that the checks and the
  document accepted; they are taken back after the file and the runtime were
  changed (`PeerRecords.RefusedExactly`). A create is refused for the key of a
  disabled or revoked peer, for requested prefixes or client routes that repeat a
  text, to which only a uniqueness constraint objects, and for an address that has
  a row, of which the check beforehand made sure. An update is refused for an
  address in a pool that some row has and the peer does not hold, for a host that
  lies in two pools, and for prefixes that repeat, which are those of the file when
  the update leaves them alone. The overlap check asks the active peers only, so
  the address of a disabled or revoked peer passes it and is refused here
  (`PeerRecords.HeldElsewhere`; `PeerAddresses.UpdateCanBeRefused` for a run that
  ends so). Disabling, enabling and revoking are never refused.
- The two readers of a file differ on keepalive values with a sign and on
  nothing else (`ConfigRedacted.SignsDiffer`, `ConfigRedacted.KeepalivesDiffer`,
  `ConfigRedacted.SignedPeerDiffers`).
- Rolling an adoption back does not restore which revision was last: it is
  looked up again, and found if and only if another operation applied it
  (`AdoptionTables.LastRestoredIff`; `AdoptionTables.LastCanBeLost` has tables at
  which it is lost). The program does not reach such tables: what it observes has
  no revision yet, and then only the drift and the snapshot differ
  (`AdoptionTables.ObservedComesBack`).
- The server refuses page tokens above 512 bytes, and JSON escapes would make one
  of its own that large, for an identifier within the limit on identifiers
  (`Pagination.OwnTokenRefused`). This is out of reach too: operations get their
  identifiers from the store, and those are safe (`Pagination.GeneratedIsNameable`).

Two things hold that the code does not set out to do. The quarantine of an
address never ends, since no transaction reads its end: an address a peer held is
given to no other peer in any such history (`AddressRuns.AddressGivenOnce`). And create
keeps the text of the requested prefixes as given, where the file and every update
have canonical ones; the rows and the file agree on the prefixes all the same
(`PeerRecords.DatabaseIsRegistered`).

## Model

| member | source | states |
|---|---|---|
| EngineProtocol.CrashSafety | src/internal/agent/operation/engine.go:103-317 | in every run of the journal and the effects, with crashes anywhere, `committed` means that every effect is at its proposed fingerprint and `rolled_back` that every effect is at its original one |
| EngineProtocol.StepShape | src/internal/agent/operation/engine.go:288-317 | reachable step lists are Applied*, at most one step in flight, RolledBack*, Pending*; so rollback is last in, first out across crashes |
| EngineProtocol.SingleApplication | src/internal/agent/operation/engine.go:227-255 | Apply of an effect that is not idempotent is called at most once over the whole history |
| EngineProtocol.TerminalEndsRun | src/internal/agent/operation/engine.go:382-392 | no move leaves a terminal operation state |
| EngineProtocol.MoveKeeps | src/internal/agent/operation/engine.go:382-403 | each allowed move of operation, step or effect keeps the joint invariant of operation state, step states and cells |
| EngineProtocol.StuckPosition | src/internal/agent/operation/engine.go:193-196 | in a stuck state the failed step is the first one that is not applied |
| EngineProtocol.StuckIsReachable | src/internal/agent/operation/engine.go:394-403 | the stuck state is reachable from a fresh operation |
| Engine.Engine.Execute | src/internal/agent/operation/engine.go:103-130 | refuses an invalid plan or a wrong state without a durable change; when the journal does not fail it ends committed, rolled back or rollback_failed and reports exactly that; when effects work too it commits |
| Engine.Engine.ExecuteSteps | src/internal/agent/operation/engine.go:113-117 | applies the steps in order; success means all applied |
| Engine.Engine.Recover | src/internal/agent/operation/engine.go:134-171 | with a journal and Inspect that do not fail: ends terminal if and only if the state was not stuck, leaves a stuck state as it is, never ends rollback_failed when rollbacks work, and from `executing` with working effects commits if and only if every step was resumable |
| Engine.Engine.RecoverExecuting | src/internal/agent/operation/engine.go:173-225 | the same for an operation found executing, from its durable steps and cells |
| Engine.Engine.ResumeSteps | src/internal/agent/operation/engine.go:180-213 | halts if and only if stuck, and then changes nothing; settles all steps if and only if all were resumable |
| Engine.Engine.ResolveStep | src/internal/agent/operation/engine.go:187-209 | a step caught in flight is accepted, retried or given up, by fingerprint, journal state and idempotence, and no other step or cell changes |
| Engine.Engine.ApplyStep | src/internal/agent/operation/engine.go:227-255 | only a pending step is applied; success means journaled applied; in recovery a retry needs idempotence or an effect already in place |
| Engine.Engine.VerifyStep | src/internal/agent/operation/engine.go:257-269 | accepts the step if and only if its effect reads back at the proposed fingerprint |
| Engine.Engine.FailAndRollback | src/internal/agent/operation/engine.go:271-286 | from any undoable state ends rolled back or rollback_failed, the former when rollbacks work |
| Engine.Engine.Rollback | src/internal/agent/operation/engine.go:288-317 | undoes the steps from the last one; success means rolled back |
| Engine.Engine.UndoStep | src/internal/agent/operation/engine.go:290-315 | a step that ever left its original fingerprint is put back and journaled rolled back, and no other step changes |
| Engine.Engine.RestoreEffect | src/internal/agent/operation/engine.go:300-312 | success means that the effect reads back at its original fingerprint |
| Engine.Engine.FinishRolledBack | src/internal/agent/operation/engine.go:319-321 | ends the operation rolled back, in journal and record alike |
| Engine.Engine.RecordRollbackFailure | src/internal/agent/operation/engine.go:323-329 | blocks the operation as rollback_failed |
| Engine.Engine.OperationTransition | src/internal/agent/operation/engine.go:331-343 | compare-and-set of the operation state along allowed edges, mirrored in the record |
| Engine.Engine.StepTransition | src/internal/agent/operation/engine.go:345-357 | compare-and-set of a step state along allowed edges, mirrored in the record |
| Engine.Incarnations | src/internal/agent/operation/engine.go:134-171 | any number of agent incarnations, each executing or recovering and dying anywhere, keeps crash safety |
| ConfigSyntax.LineMeaning | src/internal/agent/configdoc/document.go:576-617 | a parsed node says what the trimmed line says, whatever white space surrounds it and whatever section precedes it |
| ConfigSyntax.ItemsJoin | src/internal/agent/configdoc/document.go:689-705 | a list of canonical prefixes that is written reads back the same |
| ConfigMeaning.SummaryAppend | src/internal/agent/configdoc/document.go:422-574 | the meaning of a file is the sum of its parts wherever a part starts a new section |
| ConfigAnalysis.AnalysisIsSummary | src/internal/agent/configdoc/document.go:422-574 | the one-pass analysis finds the peers and interfaces of the block-by-block meaning, and a document is adoption-safe if and only if that meaning is safe |
| ConfigAnalysis.PeersArePlaced | src/internal/agent/configdoc/document.go:422-574 | every peer's block range is its header with exactly the lines its fields were read from, up to the next header |
| ConfigDocument.RefusalIsUnsafe | src/internal/agent/configdoc/document.go:188-206 | a document may be edited if and only if its blocks are safe |
| ConfigDocument.CanonicalsAre | src/internal/agent/configdoc/document.go:689-705 | canonical prefixes without repetition, exactly those of the given values |
| ConfigPatch.SetValueLine | src/internal/agent/configdoc/document.go:642-653 | splicing a value changes what the line assigns and no other byte of it |
| ConfigPatch.PatchOthers | src/internal/agent/configdoc/document.go:243-281 | every line that assigns no requested key survives, in order |
| ConfigPatch.PatchValues | src/internal/agent/configdoc/document.go:243-281 | afterwards each requested key has exactly its new value, or none if that is empty |
| ConfigPatch.OpenPatched | src/internal/agent/configdoc/document.go:268-279 | in a block with an open last line, the lines stay apart if and only if that line is removed or nothing is added |
| ConfigDocument.PatchPeerEffect | src/internal/agent/configdoc/document.go:208-282 | whenever the new lines stay apart: the lines of the found peer's block become those of the patched block and all lines outside it stay; the other peers read the same, and the target has the requested values and its old values elsewhere; the document stays safe |
| ConfigDocument.PatchKeepsLines | src/internal/agent/configdoc/document.go:208-282 | for every patch of several keys the reparsed text has the lines outside the found peer's block and in its place those of the patched block if and only if the block is ended, its last line is taken away, or no line is added |
| ConfigDocument.PatchLost | src/internal/agent/configdoc/document.go:268-279 | behind an open comment line a patch of a missing key succeeds and changes nothing the text means |
| ConfigOpenPatch.PatchSays | src/internal/agent/configdoc/document.go:208-282 | for every document and patch: the reparsed text says what the lines outside the found peer's block and the patched lines in its place say, blank lines aside, if and only if the lines stay apart or the open last line was white space |
| ConfigOpenPatch.PatchReadsBack | src/internal/agent/configdoc/document.go:208-282 | for every document and patch: the peers read as requested and the document stays safe if and only if the lines stay apart, or the open last line was white space, or all that is lost is a keepalive of zero behind a line that does not matter |
| ConfigExamples.LostEndpoint | src/internal/agent/configdoc/document.go:268-279 | for every usable key a safe document and a patch of the endpoint that succeeds and leaves the meaning as it was |
| ConfigPeers.AddPeerEffect | src/internal/agent/configdoc/document.go:284-340 | the text grows at its end and means the old peers followed by the new one; it stays safe if and only if the trimmed key was not listed |
| ConfigExamples.PaddedCopyAccepted | src/internal/agent/configdoc/document.go:284-340 | on every safe document, a copy of any listed key behind a blank is added if its prefixes are canonical and it fits, and the document is refused from then on |
| ConfigExamples.PaddedCopyExample | src/internal/agent/configdoc/document.go:284-340 | for every usable key and canonical prefix a document and a peer for which this happens |
| ConfigPeers.RemovePeerEffect | src/internal/agent/configdoc/document.go:343-356 | the lines of the found peer's block leave the text and are returned; the rest is byte for byte as before and means the other peers |
| ConfigPeers.RestoreEffect | src/internal/agent/configdoc/document.go:361-394 | the text ends with exactly the archived bytes and means the old peers followed by the archived one |
| ConfigPeers.RestoreSucceeds | src/internal/agent/configdoc/document.go:361-394 | an archived block of a peer the document lacks is refused only for size |
| ConfigPeers.RemoveThenRestore | src/internal/agent/configdoc/document.go:343-394 | succeeds if and only if the separators fit; the peer moves last; byte-identical when the block of the removed peer was last behind a blank line |
| ConfigExamples.RemovalRefusedBack | src/internal/agent/configdoc/document.go:343-394 | for every usable key a document of the largest size whose peer is removed and then refused, because of the separator |
| ConfigPeers.SeparatedMeans | src/internal/agent/configdoc/document.go:670-672 | separating a text from a block that follows keeps its meaning |
| DocumentEditor.SplitLines | src/internal/agent/configdoc/document.go:619-634 | the loop computes the lines of the text |
| DocumentEditor.ParseText | src/internal/agent/configdoc/document.go:576-617 | the loop computes the nodes of the lines, with the section carried along |
| DocumentEditor.AnalyzeNodes | src/internal/agent/configdoc/document.go:422-574 | the loop over the nodes with the open peer computes the analysis |
| DocumentEditor.RewriteKey | src/internal/agent/configdoc/document.go:250-267 | overwriting the first assignment and deleting later ones from the back equals the front-to-back rewrite |
| DocumentEditor.PatchNodes | src/internal/agent/configdoc/document.go:243-281 | the loop over the requested keys computes the patched block |
| DocumentEditor.Document.Parse | src/internal/agent/configdoc/document.go:112-123 | parses exactly the texts within the size limit |
| DocumentEditor.Document.CheckAdoption | src/internal/agent/configdoc/document.go:188-206 | the refusal of the whole document, first blocking warning first |
| DocumentEditor.Document.FindPeer | src/internal/agent/configdoc/document.go:396-403 | the first peer with the key, or none |
| DocumentEditor.Document.Reparse | src/internal/agent/configdoc/document.go:413-420 | replaces the whole document state, or leaves all of it |
| DocumentEditor.Document.ReplaceNodeRange | src/internal/agent/configdoc/document.go:405-411 | the text with one range of lines replaced, reparsed |
| DocumentEditor.Document.PatchPeer | src/internal/agent/configdoc/document.go:208-282 | the new state is that of the patched text; an error leaves the state |
| DocumentEditor.Document.AddPeer | src/internal/agent/configdoc/document.go:284-340 | the new state is that of the text with the peer added; an error leaves the state |
| DocumentEditor.Document.RemovePeer | src/internal/agent/configdoc/document.go:343-356 | the new state and the returned block are those of the removal; an error leaves the state |
| DocumentEditor.Document.RestorePeerBlock | src/internal/agent/configdoc/document.go:361-394 | the new state is that of the text with the block restored; an error leaves the state |
| ServerRender.Render | src/internal/agent/profile/server.go:32-81 | the writer with its checks computes the rendered configuration or refuses it |
| ManagedConfig.RenderIsManaged | src/internal/agent/profile/server.go:32-81 | a rendered configuration is safe, ends its last line and means one interface with its private key and no peer |
| ManagedConfig.ManagedStaysManaged | src/internal/agent/configdoc/document.go:188-394 | after every sequence of edits on a rendered configuration: safe, one interface, distinct keys, final newline, every block ended |
| ManagedConfig.EditIsRegistered | src/internal/agent/configdoc/document.go:208-394 | an edit of the text does what the same edit does to a plain list of peers, and one the list permits is refused only for size |
| ManagedConfig.RunIsRegistered | src/internal/agent/configdoc/document.go:208-394 | the same for whole sequences of edits, with removed blocks restored in any order |
| ConfigRedacted.ParseRedacted | src/internal/agent/adapters/configfile/source.go:140-243 | the scanning loop computes the reader's peers |
| ConfigRedacted.TokensAreLines | src/internal/agent/adapters/configfile/source.go:140-165 | within the scanner's limit its lines are the editor's lines without their ends |
| ConfigRedacted.SignsDiffer | src/internal/agent/adapters/configfile/source.go:219-223 | the two keepalive readers differ on a value if and only if it is a signed number one of them accepts |
| ConfigRedacted.ReadersAgree | src/internal/agent/adapters/configfile/source.go:140-243 | on every file within the scanner's limit, safe or not, the reader lists the editor's peers with repeated keys dropped: same keys, AllowedIPs and endpoints, and same keepalives when no value is signed |
| ConfigRedacted.KeepalivesDiffer | src/internal/agent/adapters/configfile/source.go:140-243 | for every peer of every such file the two lists differ in the keepalive if and only if a signed number comes after every other number of its block and is not the last unsigned one, or 0 if there is none |
| ConfigRedacted.SignsDecide | src/internal/agent/adapters/configfile/source.go:219-223 | the same for any list of values |
| ConfigRedacted.SignedPeerDiffers | src/internal/agent/adapters/configfile/source.go:219-223 | a peer whose one keepalive is signed and not 0 has that keepalive in one list and 0 in the other |
| ConfigRedacted.ReadersAgreeOnSafe | src/internal/agent/adapters/configfile/source.go:140-243 | on adoption-safe files the two lists are the same, in order |
| PeerProtocol.StoresAgree | src/internal/agent/control/peer.go:263-348 | in every run: committed means file proposed, its hash stored, the next revision and the runtime following; rolled back means the old revision and hash, the original file if and only if no exchange was left stranded, and the original runtime if and only if no inspection failed on a peer that was there, which only creates can suffer |
| PeerProtocol.NeverStranded | src/internal/agent/control/peer.go:513-557 | without a stranded exchange, rolled back means the original file |
| PeerProtocol.StrandedRollback | src/internal/agent/control/peer.go:278-280 | a stranded exchange can end rolled back with the proposed file |
| PeerProtocol.BlindRollback | src/internal/agent/control/peer.go:513-557 | a create whose rollback cannot inspect the runtime ends rolled back with the peer in the runtime |
| PeerProtocol.RunKeeps | src/internal/agent/repository/control_store.go:230-292 | every state of every run keeps the joint invariant of operation, file, database and runtime |
| PeerControl.Host.ExchangeConfig | src/internal/agent/adapters/filesystem/config.go:107-188 | the exchange as one step: success swaps the expected text, failure leaves the file or strands the new text |
| PeerControl.Host.CompletePeer | src/internal/agent/repository/peer_store.go:246-436 | one transaction: revision, file hash and state together, or none of them |
| PeerControl.Service.ExecuteCreatePeer | src/internal/agent/control/peer.go:182-361 | each step is an allowed move; success means committed; with nothing failing it commits |
| PeerControl.Service.FinishPeerCreate | src/internal/agent/control/peer.go:281-361 | verification, completion and commit once file and runtime are in place |
| PeerControl.Service.ExecutePeerUpdate | src/internal/agent/control/peer_update.go:168-293 | the same, where an unchanged file is not exchanged |
| PeerControl.Service.FinishPeerUpdate | src/internal/agent/control/peer_update.go:264-293 | verification, completion and commit, with a rollback that knows whether the file changed |
| PeerControl.Service.ExecutePeerLifecycle | src/internal/agent/control/peer_lifecycle.go:128-258 | the same for disable, enable and revoke |
| PeerControl.Service.RollbackPeerCreate | src/internal/agent/control/peer.go:513-557 | ends rolled back only if the file is the original where it may have changed; the runtime then is the original one if and only if no inspection failed on a peer that was there; with nothing failing it ends rolled back |
| PeerControl.Service.RemoveIfPresent | src/internal/agent/control/peer.go:530-535 | unless it reports a failure, the peer is gone from the runtime if and only if the inspection worked or it was not there |
| PeerControl.Service.RollbackPeerUpdate | src/internal/agent/control/peer_update.go:436-479 | the same for updates |
| PeerControl.Service.RollbackLifecycle | src/internal/agent/control/peer_lifecycle.go:293-335 | the same for lifecycle changes |
| PeerControl.Service.Recover | src/internal/agent/control/interface.go:479-541 | a recovery that rolls back leaves the original file; with nothing failing it ends, committed if and only if the transaction was made before |
| PeerControl.Service.RecoverVerifying | src/internal/agent/control/interface.go:568-610 | an operation past its transaction is committed: the stores are found to agree |
| PeerControl.Service.RecoverSnapshotted | src/internal/agent/control/interface.go:612-717 | an operation before its transaction is taken back, by its kind |
| PeerControl.Incarnations | src/internal/agent/control/interface.go:479-541 | any number of incarnations that execute or recover and die anywhere keep the agreement of the stores |
| PeerOperations.OneOperation | src/internal/agent/control/peer_lifecycle.go:128-258 | one operation carries out its document edit as a whole or not at all, and counts one revision exactly if committed |
| PeerOperations.HistoryIsRun | src/internal/agent/control/peer.go:130-361 | after any history of operations the file is the run of the committed edits, the database knows its hash, and the revision counts the commits |
| PeerOperations.HistoryIsRegistered | src/internal/agent/control/peer_update.go:107-293 | so the file stays managed and its peers are those the committed operations make of a plain list, with no key twice |
| PeerOperations.DisableThenEnable | src/internal/agent/control/peer_lifecycle.go:128-258 | a committed disable and enable keep every peer, move this one last and end the file with its archived bytes |
| PeerRecords.DatabaseIsRegistered | src/internal/agent/repository/peer_lifecycle_store.go:23-161 | after any history the active rows are exactly the peers of the file, with the same prefixes, endpoint and keepalive, every other row keeps a block that means the peer it describes, and no address has two live rows |
| PeerRecords.OperationMirrored | src/internal/agent/repository/peer_update_store.go:47-194 | one committed operation changes the row of its peer as it changes the file and the archives, whatever text an unchanged prefix was stored as |
| PeerRecords.RefusedExactly | src/internal/agent/repository/peer_update_store.go:257-333 | of what was intended and the document accepted, the transaction refuses exactly a create whose key has a row, whose prefixes or routes repeat a text or whose address is taken, and an update whose prefixes repeat, name a host of two pools or an address that a row has and the peer does not hold |
| PeerRecords.HeldElsewhere | src/internal/agent/repository/peer_update_store.go:304-318 | an address that another peer's live row has, whatever that peer's state, refuses the update |
| PeerDatabase.InsertTexts | src/migrations/agent/001_initial.sql:108-115 | texts of one owner are stored unless one repeats |
| PeerDatabase.Database.CompletePeerCreate | src/internal/agent/repository/peer_store.go:246-436 | succeeds if and only if the key is new, no prefix or route text repeats and the address is free; adds one row of each kind, and nothing if refused |
| PeerDatabase.Database.CompletePeerUpdate | src/internal/agent/repository/peer_update_store.go:47-194 | the row gets the canonical texts and the peer holds exactly its pool addresses, or nothing changes and there is a reason: not active, a repetition, a host of two pools, an address that is not available, an identifier in use |
| PeerDatabase.Database.CompletePeerLifecycle | src/internal/agent/repository/peer_lifecycle_store.go:23-161 | succeeds if and only if there is a kept block exactly for an enable; a revoke quarantines the addresses |
| PeerDatabase.Database.Complete | src/internal/agent/control/peer_lifecycle.go:215-258 | the transaction of every operation does what the histories say of a committed one, or changes nothing because one of its conditions fails |
| FileExchange.Directory.ExchangeConfig | src/internal/agent/adapters/filesystem/config.go:107-188 | with an outside editor active up to the exchange and any primitive failing: success means that the displaced content has the expected hash and the file is the proposed one; an error leaves the file as it was just before, or the swap back failed and the displaced file is kept |
| FileExchange.Directory.Check | src/internal/agent/adapters/filesystem/config.go:157-188 | the displaced content is verified, and swapped back if it is not the expected one |
| FileExchange.Directory.SwapBack | src/internal/agent/adapters/filesystem/config.go:157-186 | the displaced file returns, or stays staged |
| AdoptionTables.ImportUndone | src/internal/agent/repository/adoption_store.go:390-507 | undoing the ledger after one more import is undoing it before |
| AdoptionTables.ImportsUndone | src/internal/agent/repository/adoption_store.go:696-753 | undoing the ledger takes back any sequence of imports and nothing else |
| AdoptionTables.AttachAllDetached | src/internal/agent/repository/adoption_store.go:763-819 | detaching is the inverse of attaching, for any number of peers |
| AdoptionTables.RollbackAfterSnapshot | src/internal/agent/repository/adoption_store.go:547-694 | rollback after the snapshot alone restores every table; only the snapshot envelope stays |
| AdoptionTables.RollbackAfterAdoption | src/internal/agent/repository/adoption_store.go:547-694 | rollback after adoption restores mode, revision, profiles, secrets, pools, allocations, purposes and staged envelopes; what differs is the snapshot envelope, the drift state and the last revision |
| AdoptionTables.LastRestoredIff | src/internal/agent/repository/adoption_store.go:619-645 | the last revision comes back if and only if another operation applied the one at the expected number, or there was none and none is found |
| AdoptionTables.LastCanBeLost | src/internal/agent/repository/adoption_store.go:619-645 | tables at which it is lost |
| AdoptionTables.ObservedComesBack | src/internal/agent/repository/repository.go:436-476 | from an interface as the inventory observes it only the drift and the snapshot differ after a rollback |
| AdoptionTables.RollbackRemovesOwned | src/internal/agent/repository/adoption_store.go:547-753 | from any tables at all, rollback deletes only rows the ledger or the staging owns |
| AdoptionStore.PlanPools | src/internal/agent/repository/adoption_store.go:270-318 | one pool per network; refused if and only if there is no address, an invalid one, or a network with two |
| AdoptionStore.PlanAssignments | src/internal/agent/repository/adoption_store.go:320-388 | plans every row that needs a purpose or an allocation; refused if and only if a host lies in two pools or two peers claim one address of a pool |
| AdoptionStore.ImportMetadata | src/internal/agent/repository/adoption_store.go:390-494 | the loops make exactly the imports of the plan, or none |
| AdoptionStore.ImportedPurpose | src/internal/agent/repository/adoption_store.go:390-494 | after the import every planned row has the purpose its pools give it |
| AdoptionStore.ImportedAllocation | src/internal/agent/repository/adoption_store.go:390-494 | and every host that lies in a pool has its allocation there |
| AdoptionStore.PlanReadsRight | src/internal/agent/repository/adoption_store.go:270-388 | the ledger records the purposes the rows really had |
| AdoptionStore.AttachStaged | src/internal/agent/repository/adoption_store.go:763-819 | the loop attaches every staged secret, or none |
| AdoptionStore.DetachStaged | src/internal/agent/repository/adoption_store.go:565-590 | the loop restores the profiles the staging replaced |
| AdoptionStore.UndoLedger | src/internal/agent/repository/adoption_store.go:696-753 | undoing kind by kind, row by row, computes the undone tables |
| AdoptionStore.RollBack | src/internal/agent/repository/adoption_store.go:547-694 | the rolling back transaction computes the rolled back tables |
| AdoptionService.Database.SnapshotOperation | src/internal/agent/repository/adoption_store.go:83-159 | one transaction: snapshot, staged secrets and state together, or none |
| AdoptionService.Database.ApplyAdoption | src/internal/agent/repository/adoption_store.go:165-268 | one transaction: adopted, next revision, file hash and verifying together, or nothing; with nothing failing it succeeds if and only if the interface is eligible, its addresses and rows can be planned and the tables take every row of the plan |
| AdoptionService.Adopt | src/internal/agent/repository/adoption_store.go:165-268 | makes the planned imports and attaches the staged secrets; gives up only if no plan exists or a key of the tables refuses a row |
| AdoptionService.PlanAdoption | src/internal/agent/repository/adoption_store.go:270-388 | plans if and only if every network has one valid address, no host lies in two pools and no address of a pool is claimed by two peers |
| AdoptionService.Database.FinalizeAdoption | src/internal/agent/repository/adoption_store.go:512-542 | staged ownership is made permanent with the commit |
| AdoptionService.Database.RollbackAdoption | src/internal/agent/repository/adoption_store.go:547-694 | from every state it is called in it gives the tables back; it never refuses |
| AdoptionService.Service.Commit | src/internal/agent/adoption/service.go:181-282 | success means committed; with nothing failing it ends expired, rejected, rolled back or committed |
| AdoptionService.Service.CommitExecuting | src/internal/agent/adoption/service.go:247-282 | with nothing failing it ends committed or rolled back and reports which |
| AdoptionService.Service.RecoverOne | src/internal/agent/adoption/service.go:307-374 | with nothing failing every operation ends, and one past its transaction ends committed |
| AdoptionService.Service.RecoverVerifying | src/internal/agent/adoption/service.go:376-398 | an operation past its transaction is committed |
| AdoptionService.Service.RollbackOrBlock | src/internal/agent/adoption/service.go:400-410 | rolls back or blocks |
| AdoptionService.Incarnations | src/internal/agent/adoption/service.go:288-305 | any number of incarnations that commit or recover and die anywhere end committed with the adopted tables or rolled back with the original ones |
| Prefixes.OverlapsIsShared | src/internal/agent/validation/validation.go:105-123 | two prefixes overlap if and only if some address lies in both |
| Prefixes.ContainsRange | src/internal/agent/ipam/allocator.go:88-91 | membership is the interval from the masked address of the prefix's span |
| Prefixes.CanonicalPrefixes | src/internal/agent/validation/validation.go:59-84 | fails if and only if a value does not parse; otherwise strictly sorted and exactly the masked prefixes |
| Prefixes.CanonicalUnique | src/internal/agent/validation/validation.go:59-84 | two canonical lists are equal if and only if the masked prefix sets are |
| Prefixes.CanonicalAgain | src/internal/agent/validation/validation.go:59-84 | a canonical list is its own canonical list |
| Prefixes.CanonicalOrderless | src/internal/agent/validation/validation.go:59-84 | order and repetition of the input do not matter |
| Prefixes.SamePrefixes | src/internal/agent/control/peer.go:619-623 | true if and only if both lists parse and have the same masked prefixes |
| Prefixes.RejectOverlaps | src/internal/agent/validation/validation.go:105-123 | passes if and only if no candidate shares an address with a prefix of another peer |
| PeerAddresses.CheckedKeepsApart | src/internal/agent/control/peer.go:421-441 | create and update, which make the check, keep active peers pairwise disjoint |
| PeerAddresses.ValidateAddressCandidate | src/internal/agent/repository/peer_store.go:158-209 | finds a slot if and only if the prefix is one host in some pool and the first such pool has no live row for it |
| PeerAddresses.CreateKeepsSound | src/internal/agent/control/peer.go:411-443 | creating a peer with its tunnel address and prefixes checked keeps active peers disjoint and live allocations unique |
| PeerAddresses.EnableKeepsApartIff | src/internal/agent/control/peer_lifecycle.go:260-291 | enable, which does not, keeps them disjoint if and only if the check would have passed |
| PeerAddresses.EnableCanCollide | src/internal/agent/control/peer_lifecycle.go:260-291 | in every sound registry, for every prefix no active peer uses and every two tunnel addresses that are free, there is a run of create, disable, create and enable, with every check made, after which two active peers share the prefix |
| PeerAddresses.EnableCollidesFromEmpty | src/internal/agent/control/peer_lifecycle.go:260-291 | such a run from an empty registry with one pool |
| AddressRuns.RunKeepsApartIff | src/internal/agent/control/peer_lifecycle.go:260-291 | over every history of creates, updates, disables, enables and revokes: active peers were disjoint at all times if and only if every enable found its prefixes used by no active peer |
| AddressRuns.RunKeepsRows | src/internal/agent/repository/peer_update_store.go:257-333 | over every such history no address has two live rows |
| AddressRuns.AddressGivenOnce | src/internal/agent/repository/peer_lifecycle_store.go:120-127 | in no such history is an address held by one peer and later by another |
| PeerAddresses.UpdateCanBeRefused | src/internal/agent/control/peer_update.go:398-414 | in every sound registry, for every tunnel address that is free, a create and a disable lead to where giving it to another peer passes the overlap check and the address is not available |
| PeerAddresses.ClassifyUpdatedAllowedIPs | src/internal/agent/repository/peer_update_store.go:220-255 | refused if and only if a host lies in two pools; otherwise the wanted allocations are exactly the hosts that lie in a pool |
| PeerAddresses.DropAllocations | src/internal/agent/repository/peer_update_store.go:257-303 | allocations no longer wanted become quarantined, the others stay |
| PeerAddresses.InsertPending | src/internal/agent/repository/peer_update_store.go:304-333 | inserts what is missing, or fails because an address is taken or an identifier repeats |
| PeerAddresses.SyncPeerAllocations | src/internal/agent/repository/peer_update_store.go:257-333 | uniqueness per pool and address is kept, the peer holds exactly the wanted addresses, other rows are untouched |
| PeerAddresses.UpdateAllocations | src/internal/agent/repository/peer_update_store.go:47-194 | the two together: the peer holds exactly its host prefixes in a pool, dropped ones are quarantined, other peers' rows are untouched; with the reasons for refusal |
| Ipam.LastAddress | src/internal/agent/ipam/allocator.go:78-86 | setting the host bits one by one gives base + 2^(32 - bits) - 1 |
| Ipam.Usable | src/internal/agent/ipam/allocator.go:65-76 | neither gateway nor network nor IPv4 broadcast address |
| Ipam.Allocate | src/internal/agent/ipam/allocator.go:28-50 | the least free usable address of the pool; exhausted only if there is none; the scan limit only if the first 2^20 addresses all fail and the pool is larger |
| OperationStore.OneLiveOperation | src/internal/agent/repository/operation_store.go:58-195 | in every history at most one live operation per interface, and one intent for every actor, type and key |
| OperationStore.FinalStaysFinal | src/internal/agent/repository/operation_store.go:362-394 | operations are never lost, keep their intent and never leave a final state |
| OperationStore.SupersededNeverValidated | src/internal/agent/repository/operation_store.go:92-105 | a superseded preview stays expired for ever |
| OperationStore.Store.CreateOperation | src/internal/agent/repository/operation_store.go:58-195 | creates if and only if the request is complete, new and the interface free but for previews it supersedes; a refusal changes nothing; a replay has the same intent |
| OperationStore.Store.TransitionOperation | src/internal/agent/repository/operation_store.go:362-394 | compare-and-set of one row's state |
| Pagination.ListOperations | src/internal/agent/repository/operation_store.go:236-298 | refuses exactly bad limits, unknown states and cursors without an identifier; otherwise the newest selected operations behind a cursor, in order, cut at the limit |
| Pagination.ListPage | src/internal/agent/rpc/server.go:664-701 | refuses exactly bad sizes, bad tokens, the latter also for their size, and unknown states; otherwise one page and, if there is more, a token for the rest |
| Pagination.RestAfterPage | src/internal/agent/rpc/server.go:737-756 | what a page's token selects is exactly the rest of the list |
| Pagination.FollowPages | src/internal/agent/rpc/server.go:664-701 | refuses exactly bad sizes and unknown states; otherwise following the tokens ends, and the pages together are the whole list without gap or repetition |
| Pagination.PlainIsNameable | src/internal/agent/rpc/server.go:737-756 | rows with identifiers of at most 128 bytes and no escaped characters get tokens the server reads back |
| Pagination.GeneratedIsNameable | src/internal/shared/ids/ids.go:18-50 | every row with a generated identifier gets a token the server reads back |
| Pagination.OwnTokenRefused | src/internal/agent/rpc/server.go:737-756 | a row with an identifier within the limit, of a form the store does not generate, whose token the server refuses |
| Envelope.EncodeAad | src/internal/agent/secret/envelope.go:243-264 | the loop computes the length-prefixed encoding |
| Envelope.AadInjective | src/internal/agent/secret/envelope.go:243-264 | the encoding determines domain, all context fields and the key version |
| Envelope.OpenSealed | src/internal/agent/secret/envelope.go:52-126 | what was sealed opens to the same plaintext, with the same key and context and with no other |
| Envelope.VersionBound | src/internal/agent/secret/envelope.go:103-126 | an envelope relabelled with another key version does not open |
| Envelope.RotationKeeps | src/internal/agent/secret/envelope.go:130-164 | every chain of key rotations succeeds, keeps the plaintext, and leaves payload ciphertext and nonce as they are |

## Left out

- Interface create and remove, IPv4 forwarding, one-time artifacts, web login, logging and generated code: host commands and plumbing that would add only easy members.
- Text forms of keys, prefixes, cursors and identifiers: base64, netip and JSON parsing are abstract; the model states the laws it needs of them.
- Unicode: text is a sequence of characters with UTF-8 widths for the size limit; lower-casing covers the characters that can produce an ASCII name, and white space the characters `unicode.IsSpace` lists.
- Cryptography: an ideal AEAD and a collision-free hash; wiping of secrets in memory is not modelled.
- Preshared-key fingerprints, interface addresses and `SaveConfig` of the redacted reader: the agreement is about peers.
- Outside edits of the file during a peer operation: excluded there, modelled on their own in `FileExchange`.
- The runtime peer of an operation is one cell (before, after, in between): that an endpoint cannot be cleared, or a preshared key left as it is, by a runtime call is not modelled.
- Locks: one interface's operations are serial; the loop of the recovery over many records is one record here.
- Tables hold the columns the properties speak of; timestamps, audit rows and rows of other interfaces are not modelled, and the order of SQL result sets is arbitrary.
- Rows of addresses in the state `released`: no code writes it. Peers have their public keys for identifiers there, and how a client's routes are stored is modelled for a create, where they can repeat.
- Create's search for a next address when none is requested: the allocator is the harder form of the same.
- Inventory refresh between operations, which rewrites the stored file hash.
- Execution resumed from a snapshot that already has steps under way: unreachable, kept as an assertion.
- PeerAddresses.UpdateAllocations: generated identifiers may repeat in the model and are then a reason for refusal.
- PeerDatabase.Database.CompletePeerUpdate: the same; and the operation's state, hash and revision, which every completing transaction checks as well, are those of `PeerControl.Host.CompletePeer`.
- PeerControl.Service.Recover: a stored hash that differs from the file asks for manual repair in the source; without an outside edit this is proved not to happen.

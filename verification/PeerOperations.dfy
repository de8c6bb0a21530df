/** Peer operations from end to end, over whole histories. */
module PeerOperations {
  // Each operation edits the document, carries the new text through the crash-prone
  // protocol of PeerProtocol.dfy and starts from what the operation before it left.
  // Whatever crashed or was taken back, the file then is the result of the edits
  // whose operations were committed.

  import opened EngineProtocol
  import opened Text
  import opened ConfigSyntax
  import opened ConfigMeaning
  import opened ConfigDocument
  import opened ConfigPeers
  import opened ManagedConfig
  import P = PeerProtocol

  /** One operation: the edit asked for, the plan made from it, and the run of
      durable states up to its end. */
  datatype Episode = Episode(edit: Edit, plan: P.PeerPlan, run: seq<P.Gateway>)

  /** What an operation finds: the file, the hash the database has for it, and
      the interface's revision. */
  datatype Found = Found(file: string, hash: P.Hash, revision: nat)

  /** The editor: what an edit makes of a document and its archives. */
  type Editor = (Store, Edit) -> Result<Store>

  function EditorOf(x: Syntax): Editor {
    (s, edit) => EditText(x, s, edit)
  }

  function Edited(editor: Editor, s: Store, edit: Edit): Store {
    match editor(s, edit) case Ok(next) => next case Err(_) => s
  }

  function RunOf(editor: Editor, s: Store, edits: seq<Edit>): Store {
    if edits == [] then s else Edited(editor, RunOf(editor, s, edits[..|edits| - 1]), edits[|edits| - 1])
  }

  function EditKinds(edit: Edit): set<P.Kind> {
    match edit
    case Add(_) => {P.Create}
    case Patch(_, _) => {P.Update}
    case Remove(_) => {P.Disable, P.Revoke}
    case Restore(_) => {P.Enable}
  }

  /** The plan of an edit on the file found, with the archives kept so far. */
  predicate Plans(editor: Editor, found: Found, archives: seq<Archive>, e: Episode) {
    var result := editor(Store(found.file, archives), e.edit);
    && e.plan.kind in EditKinds(e.edit) && CleanEdit(e.edit)
    && found.hash == P.Hash(found.file)
    && e.plan.original == found.file && e.plan.expected == found.revision
    && result.Ok? && e.plan.proposed == result.value.raw
  }

  /** A run of the plan to a final state, in which a rollback did not leave the
      text of a failed exchange in place; a recovery may well have put it back. */
  ghost predicate Ends(e: Episode) {
    && P.IsRun(e.plan, e.run)
    && e.run[|e.run| - 1].op in {Committed, RolledBack, Rejected, Expired}
    && (e.run[|e.run| - 1].op == RolledBack ==> !e.run[|e.run| - 1].stranded)
  }

  predicate IsCommitted(e: Episode) {
    e.run != [] && e.run[|e.run| - 1].op == Committed
  }

  /** What the last operation left behind. */
  function Left(found: Found, history: seq<Episode>): Found {
    if history == [] then found else
      var e := history[|history| - 1];
      if e.run == [] then found else
        var g := e.run[|e.run| - 1];
        Found(g.file, g.fileHash, g.revision)
  }

  function CommittedEdits(history: seq<Episode>): seq<Edit> {
    if history == [] then [] else
      var n := |history| - 1;
      CommittedEdits(history[..n]) + (if IsCommitted(history[n]) then [history[n].edit] else [])
  }

  /** What a store and a revision look like to the next operation. */
  function Seen(s: Store, revision: nat): Found {
    Found(s.raw, P.Hash(s.raw), revision)
  }

  /** Operations one after the other, each planned on what the last one left and
      on the archives of the removals committed so far. */
  ghost predicate History(editor: Editor, s: Store, revision: nat, history: seq<Episode>) {
    history == [] ||
    var n := |history| - 1;
    && History(editor, s, revision, history[..n])
    && Plans(editor, Left(Seen(s, revision), history[..n]),
             RunOf(editor, s, CommittedEdits(history[..n])).archives, history[n])
    && Ends(history[n])
  }

  lemma RunMore(editor: Editor, s: Store, edits: seq<Edit>, edit: Edit)
    ensures RunOf(editor, s, edits + [edit]) == Edited(editor, RunOf(editor, s, edits), edit)
  {
    assert (edits + [edit])[..|edits|] == edits;
  }

  /** One operation: the edit is carried out as a whole or not at all. */
  lemma OneOperation(editor: Editor, before: Store, revision: nat, e: Episode)
    requires Plans(editor, Seen(before, revision), before.archives, e) && Ends(e)
    ensures Left(Seen(before, revision), [e]) ==
            if IsCommitted(e) then Seen(Edited(editor, before, e.edit), revision + 1) else Seen(before, revision)
  {
    var last := |e.run| - 1;
    P.StoresAgree(e.plan, e.run, last);
    P.RunKeeps(e.plan, e.run, last);
    assert Store(before.raw, before.archives) == before;
  }

  lemma LeftLast(found: Found, other: Found, history: seq<Episode>)
    requires history != [] && history[|history| - 1].run != []
    ensures Left(found, history) == Left(other, [history[|history| - 1]])
  {
  }

  lemma LastOperation(editor: Editor, s: Store, revision: nat, history: seq<Episode>, before: Store, count: nat)
    requires history != [] && History(editor, s, revision, history)
    requires before == RunOf(editor, s, CommittedEdits(history[..|history| - 1]))
    requires Left(Seen(s, revision), history[..|history| - 1]) == Seen(before, revision + count)
    ensures var e := history[|history| - 1];
            Left(Seen(s, revision), history) ==
            if IsCommitted(e) then Seen(Edited(editor, before, e.edit), revision + count + 1) else Seen(before, revision + count)
  {
    var e := history[|history| - 1];
    OneOperation(editor, before, revision + count, e);
    LeftLast(Seen(s, revision), Seen(before, revision + count), history);
  }

  lemma HistoryFront(editor: Editor, s: Store, revision: nat, history: seq<Episode>)
    requires history != [] && History(editor, s, revision, history)
    ensures History(editor, s, revision, history[..|history| - 1])
    ensures var n := |history| - 1;
            var edits := CommittedEdits(history[..n]);
            CommittedEdits(history) == if IsCommitted(history[n]) then edits + [history[n].edit] else edits
  {
    hide Plans, Ends, RunOf, Left;
    NothingAround(CommittedEdits(history[..|history| - 1]));
  }

  lemma NothingDone(editor: Editor, s: Store, revision: nat)
    ensures Left(Seen(s, revision), []) == Seen(RunOf(editor, s, CommittedEdits([])), revision + |CommittedEdits([])|)
  {
  }

  /** The file after any history is the run of the committed edits, the database
      knows its hash, and the revision counts the commits. */
  lemma {:induction false} HistoryIsRun(editor: Editor, s: Store, revision: nat, history: seq<Episode>)
    requires History(editor, s, revision, history)
    ensures var edits := CommittedEdits(history);
            Left(Seen(s, revision), history) == Seen(RunOf(editor, s, edits), revision + |edits|)
  {
    hide *;
    if history == [] {
      NothingDone(editor, s, revision);
    } else {
      var n := |history| - 1;
      var edits := CommittedEdits(history[..n]);
      HistoryFront(editor, s, revision, history);
      HistoryIsRun(editor, s, revision, history[..n]);
      LastOperation(editor, s, revision, history, RunOf(editor, s, edits), |edits|);
      RunMore(editor, s, edits, history[n].edit);
    }
  }

  lemma {:induction false} CommittedClean(editor: Editor, s: Store, revision: nat, history: seq<Episode>)
    requires History(editor, s, revision, history)
    ensures forall i :: 0 <= i < |CommittedEdits(history)| ==> CleanEdit(CommittedEdits(history)[i])
  {
    if history != [] {
      CommittedClean(editor, s, revision, history[..|history| - 1]);
    }
  }

  lemma {:induction false} RunOfEditor(x: Syntax, s: Store, edits: seq<Edit>)
    ensures RunOf(EditorOf(x), s, edits) == Run(x, s, edits)
  {
    if edits != [] {
      RunOfEditor(x, s, edits[..|edits| - 1]);
    }
  }

  lemma HistoryLeft(editor: Editor, s: Store, revision: nat, history: seq<Episode>, edits: seq<Edit>)
    requires History(editor, s, revision, history) && edits == CommittedEdits(history)
    ensures Left(Seen(s, revision), history) == Seen(RunOf(editor, s, edits), revision + |edits|)
    ensures forall i :: 0 <= i < |edits| ==> CleanEdit(edits[i])
  {
    HistoryIsRun(editor, s, revision, history);
    CommittedClean(editor, s, revision, history);
  }

  /** So every history that starts from a managed document leaves one, whose peers
      are those the committed operations made, with no key twice. */
  lemma HistoryIsRegistered(x: Syntax, s: Store, r: Registry, revision: nat, history: seq<Episode>)
    returns (left: Found, registry: Registry)
    requires x.Lawful() && GoodStore(x, s) && Reflects(x, s, r) && History(EditorOf(x), s, revision, history)
    ensures left == Left(Seen(s, revision), history)
    ensures left.hash == P.Hash(left.file) && left.revision == revision + |CommittedEdits(history)|
    ensures Registered(x, s, r, CommittedEdits(history)) == Some(registry)
    ensures Managed(x, left.file) && Meant(x, left.file).peers == registry.peers && Distinct(registry.peers)
  {
    var edits := CommittedEdits(history);
    var last := Run(x, s, edits);
    left := Left(Seen(s, revision), history);
    HistoryLeft(EditorOf(x), s, revision, history, edits);
    RunOfEditor(x, s, edits);
    RunIsRegistered(x, s, r, edits);
    ManagedConfig.RunKeeps(x, s, edits);
    registry := Registered(x, s, r, edits).value;
  }

  /** The same peers, with the one of this key moved to the end. */
  predicate MovedLast(peers: seq<PeerView>, publicKey: string, next: seq<PeerView>) {
    Listed(peers, publicKey) &&
    var k := Position(peers, publicKey);
    next == peers[..k] + peers[k + 1..] + [peers[k]]
  }

  /** Disabling a peer and enabling it again, when both are committed, keeps every
      peer as it was and moves this one to the end, with its archived bytes. */
  lemma DisableThenEnable(x: Syntax, s: Store, revision: nat, disable: Episode, enable: Episode, publicKey: string)
    returns (removed: Removed)
    requires s.archives == []
    requires History(EditorOf(x), s, revision, [disable, enable]) && IsCommitted(disable) && IsCommitted(enable)
    requires disable.edit == Remove(publicKey) && enable.edit == Restore(0)
    ensures var left := Left(Seen(s, revision), [disable, enable]);
            && MovedLast(Meant(x, s.raw).peers, publicKey, Meant(x, left.file).peers)
            && left.revision == revision + 2 && left.hash == P.Hash(left.file)
            && RemoveText(x, s.raw, publicKey) == Ok(removed) && EndsWith(left.file, removed.archived)
  {
    hide MovedLast, Meant, RemoveText, EndsWith, EditText, RestoreText;
    var editor, history := EditorOf(x), [disable, enable];
    assert history[..1] == [disable] && [disable][..0] == [];
    HistoryIsRun(editor, s, revision, history);
    HistoryIsRun(editor, s, revision, [disable]);
    RunMore(editor, s, [], disable.edit);
    RunMore(editor, s, [disable.edit], enable.edit);
    assert [] + [disable.edit] == [disable.edit];
    assert CommittedEdits([disable]) == [disable.edit] && CommittedEdits(history) == [disable.edit] + [enable.edit];
    removed := TwoEdits(x, s, publicKey);
  }

  lemma TwoEdits(x: Syntax, s: Store, publicKey: string) returns (removed: Removed)
    requires s.archives == []
    requires EditText(x, s, Remove(publicKey)).Ok?
    requires EditText(x, EditText(x, s, Remove(publicKey)).value, Restore(0)).Ok?
    ensures RemoveText(x, s.raw, publicKey) == Ok(removed)
    ensures var next := EditText(x, EditText(x, s, Remove(publicKey)).value, Restore(0)).value.raw;
            MovedLast(Meant(x, s.raw).peers, publicKey, Meant(x, next).peers) && EndsWith(next, removed.archived)
  {
    hide MovedLast, Meant, EndsWith, RemoveText, RestoreText;
    removed := RemoveText(x, s.raw, publicKey).value;
    var next := RestoreText(x, removed.text, publicKey, removed.archived).value;
    RemovedRestored(x, s.raw, publicKey, removed, next);
  }

  lemma RemovedRestored(x: Syntax, raw: string, publicKey: string, removed: Removed, next: string)
    requires RemoveText(x, raw, publicKey) == Ok(removed)
    requires RestoreText(x, removed.text, publicKey, removed.archived) == Ok(next)
    ensures MovedLast(Meant(x, raw).peers, publicKey, Meant(x, next).peers) && EndsWith(next, removed.archived)
  {
    hide RemoveText, RestoreText, Meant, Safe, EndsBlank, EndsWith, Separated, Newline;
    var _, _, _, k := RemoveThenRestore(x, raw, publicKey, removed);
    SafeTarget(x, raw, publicKey);
    PositionIs(Meant(x, raw).peers, k);
  }

  lemma SafeTarget(x: Syntax, raw: string, publicKey: string)
    requires RemoveText(x, raw, publicKey).Ok?
    ensures Distinct(Meant(x, raw).peers)
  {
    RefusalIsUnsafe(x, raw);
  }
}

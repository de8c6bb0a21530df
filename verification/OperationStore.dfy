/** The table of operations: creation with replay and supersession, and the state
    transitions the services issue. */
module OperationStore {
  import opened EngineProtocol
  import opened Text

  type Id = string

  /** A row; `interface` is "" when the operation has none. */
  datatype Row = Row(interface: Id, actor: string, kind: string, key: string, intent: string, state: State)

  datatype StepInput = StepInput(name: string, kind: string, original: string, proposed: string)

  datatype Input = Input(interface: Id, actor: string, role: string, request: string, kind: string, key: string,
                         intent: string, steps: seq<StepInput>)

  type Rows = map<Id, Row>

  datatype Outcome = Created(id: Id) | Replayed(id: Id) | DifferentIntent | InProgress | Invalid

  /** States in which an operation holds its interface. */
  predicate Live(state: State) {
    state in {Pending, Validated, Snapshotted, Executing, Verifying, RollingBack, RollbackFailed}
  }

  predicate Complete(input: Input) {
    input.kind != "" && input.intent != "" && input.key != "" && input.actor != "" && input.role != "" && input.request != ""
  }

  predicate CompleteSteps(steps: seq<StepInput>) {
    forall i :: 0 <= i < |steps| ==>
      steps[i].kind != "" && steps[i].name != "" && steps[i].original != "" && steps[i].proposed != ""
  }

  predicate Matches(row: Row, input: Input) {
    row.actor == input.actor && row.kind == input.kind && row.key == input.key
  }

  predicate Superseded(row: Row, input: Input) {
    row.interface == input.interface && row.actor == input.actor && row.kind == input.kind && row.state == Pending
  }

  /** Older previews of the same action expire. */
  function Supersede(rows: Rows, input: Input): Rows {
    map id | id in rows :: if Superseded(rows[id], input) then rows[id].(state := Expired) else rows[id]
  }

  predicate Busy(rows: Rows, interface: Id) {
    exists id :: id in rows && rows[id].interface == interface && Live(rows[id].state)
  }

  function NewRow(input: Input): Row {
    Row(input.interface, input.actor, input.kind, input.key, input.intent, Pending)
  }

  /** The table after an operation is inserted. */
  function Inserted(rows: Rows, input: Input, id: Id): Rows {
    (if input.interface != "" then Supersede(rows, input) else rows)[id := NewRow(input)]
  }

  /** Insertion is possible: nothing to replay, and no live operation on the
      interface once older previews have expired. */
  predicate Insertable(rows: Rows, input: Input, id: Id) {
    && Complete(input) && CompleteSteps(input.steps) && id !in rows
    && (forall other :: other in rows ==> !Matches(rows[other], input))
    && (input.interface != "" ==> !Busy(Supersede(rows, input), input.interface))
  }

  // ---- Moves ----

  /** `Reserve` gives a validated operation the identity of a new interface, which
      no row can refer to yet; `Release` takes it away again. */
  datatype Move =
    | Create(input: Input, id: Id)
    | Transition(id: Id, to: State)
    | Reserve(id: Id, interface: Id)
    | Release(id: Id)

  predicate May(rows: Rows, m: Move) {
    match m
    case Create(input, id) => Insertable(rows, input, id)
    case Transition(id, to) => id in rows && ValidOperationTransition(rows[id].state, to)
    case Reserve(id, interface) =>
      && id in rows && rows[id].interface == "" && rows[id].state == Validated && interface != ""
      && forall other :: other in rows ==> rows[other].interface != interface
    case Release(id) => id in rows
  }

  function Done(rows: Rows, m: Move): Rows
    requires May(rows, m)
  {
    match m
    case Create(input, id) => Inserted(rows, input, id)
    case Transition(id, to) => rows[id := rows[id].(state := to)]
    case Reserve(id, interface) => rows[id := rows[id].(interface := interface)]
    case Release(id) => rows[id := rows[id].(interface := "")]
  }

  ghost predicate Steps(rows: Rows, rows': Rows) {
    exists m :: May(rows, m) && rows' == Done(rows, m)
  }

  ghost predicate IsHistory(run: seq<Rows>) {
    run != [] && run[0] == map[] && forall k :: 0 <= k < |run| - 1 ==> Steps(run[k], run[k + 1])
  }

  // ---- What every run keeps ----

  ghost predicate OneLive(rows: Rows) {
    forall a, b :: (
      a in rows && b in rows && a != b && Live(rows[a].state) && Live(rows[b].state) && rows[a].interface == rows[b].interface
      ==> rows[a].interface == "")
  }

  ghost predicate KeysUnique(rows: Rows) {
    forall a, b :: (
      a in rows && b in rows && rows[a].actor == rows[b].actor && rows[a].kind == rows[b].kind && rows[a].key == rows[b].key
      ==> a == b)
  }

  lemma StaysLive(from: State, to: State)
    requires ValidOperationTransition(from, to)
    ensures Live(from) && !IsTerminal(from)
  {
  }

  lemma MoveKeepsOneLive(rows: Rows, m: Move)
    requires OneLive(rows) && May(rows, m)
    ensures OneLive(Done(rows, m))
  {
    if m.Transition? {
      StaysLive(rows[m.id].state, m.to);
    }
    var next := Done(rows, m);
    forall a, b | a in next && b in next && a != b && Live(next[a].state) && Live(next[b].state)
                  && next[a].interface == next[b].interface
      ensures next[a].interface == ""
    {
      if m.Create? && (a == m.id || b == m.id) {
        var other := if a == m.id then b else a;
        assert other in rows;
      }
    }
  }

  lemma MoveKeepsKeys(rows: Rows, m: Move)
    requires KeysUnique(rows) && May(rows, m)
    ensures KeysUnique(Done(rows, m))
  {
  }

  /** A row stays, with its actor, type, key and intent, and once it is final it
      stays final. */
  ghost predicate Persists(rows: Rows, rows': Rows) {
    forall id :: id in rows ==>
      && id in rows'
      && rows'[id].(state := rows[id].state, interface := rows[id].interface) == rows[id]
      && (IsTerminal(rows[id].state) ==> rows'[id].state == rows[id].state)
  }

  lemma MovePersists(rows: Rows, m: Move)
    requires May(rows, m)
    ensures Persists(rows, Done(rows, m))
  {
    if m.Transition? {
      StaysLive(rows[m.id].state, m.to);
    }
  }

  lemma StepPersists(rows: Rows, rows': Rows)
    requires Steps(rows, rows')
    ensures Persists(rows, rows')
  {
    var m :| May(rows, m) && rows' == Done(rows, m);
    MovePersists(rows, m);
  }

  /** Over every sequence of creations and transitions an interface has at most
      one live operation, and an actor, type and key name one operation at most. */
  lemma {:induction false} OneLiveOperation(run: seq<Rows>, k: nat)
    requires IsHistory(run) && k < |run|
    ensures OneLive(run[k]) && KeysUnique(run[k])
  {
    if k > 0 {
      OneLiveOperation(run, k - 1);
      assert Steps(run[k - 1], run[k - 1 + 1]);
      var m :| May(run[k - 1], m) && run[k] == Done(run[k - 1], m);
      MoveKeepsOneLive(run[k - 1], m);
      MoveKeepsKeys(run[k - 1], m);
    }
  }

  /** A final operation, a superseded preview among them, stays as it ended for
      the rest of the run, and its intent never changes. */
  lemma {:induction false} FinalStaysFinal(run: seq<Rows>, j: nat, k: nat, id: Id)
    requires IsHistory(run) && j <= k < |run| && id in run[j]
    ensures id in run[k] && run[k][id].intent == run[j][id].intent
    ensures IsTerminal(run[j][id].state) ==> run[k][id].state == run[j][id].state
  {
    hide Steps;
    if j < k {
      FinalStaysFinal(run, j, k - 1, id);
      assert Steps(run[k - 1], run[k - 1 + 1]);
      StepPersists(run[k - 1], run[k]);
    }
  }

  /** Creating supersedes: the older pending preview of the same actor, action and
      interface is expired in the same transaction, and never validated later. */
  lemma SupersededNeverValidated(run: seq<Rows>, j: nat, k: nat, input: Input, id: Id, older: Id)
    requires IsHistory(run) && j + 1 <= k < |run|
    requires May(run[j], Create(input, id)) && run[j + 1] == Done(run[j], Create(input, id))
    requires input.interface != "" && older in run[j] && Superseded(run[j][older], input)
    ensures older in run[k] && run[k][older].state == Expired
  {
    assert run[j + 1][older].state == Expired;
    FinalStaysFinal(run, j + 1, k, older);
  }

  // ---- The store ----

  class Store {
    var rows: Rows
    ghost var run: seq<Rows>

    ghost predicate Valid()
      reads this
    {
      IsHistory(run) && run[|run| - 1] == rows && OneLive(rows) && KeysUnique(rows)
    }

    constructor ()
      ensures Valid() && rows == map[]
    {
      rows := map[];
      run := [map[]];
    }

    ghost method Extend(m: Move)
      requires IsHistory(run) && OneLive(run[|run| - 1]) && KeysUnique(run[|run| - 1])
      requires May(run[|run| - 1], m) && rows == Done(run[|run| - 1], m)
      modifies this`run
      ensures Valid()
    {
      MoveKeepsOneLive(run[|run| - 1], m);
      MoveKeepsKeys(run[|run| - 1], m);
      assert Steps(run[|run| - 1], rows);
      run := run + [rows];
    }

    /** Looks for the operation a request repeats. */
    method FindReplay(input: Input) returns (found: Option<Id>)
      ensures found.Some? ==> found.value in rows && Matches(rows[found.value], input)
      ensures found.None? ==> forall id :: id in rows ==> !Matches(rows[id], input)
    {
      var left := rows.Keys;
      while left != {}
        invariant left <= rows.Keys
        invariant forall id :: id in rows && id !in left ==> !Matches(rows[id], input)
        decreases |left|
      {
        var id :| id in left;
        left := left - {id};
        if Matches(rows[id], input) {
          return Some(id);
        }
      }
      return None;
    }

    method FindLive(candidates: Rows, interface: Id) returns (busy: bool)
      ensures busy <==> Busy(candidates, interface)
    {
      var left := candidates.Keys;
      while left != {}
        invariant left <= candidates.Keys
        invariant forall id :: id in candidates && id !in left ==>
                    !(candidates[id].interface == interface && Live(candidates[id].state))
        decreases |left|
      {
        var id :| id in left;
        left := left - {id};
        if candidates[id].interface == interface && Live(candidates[id].state) {
          return true;
        }
      }
      return false;
    }

    /** Creates an operation, or returns the one a request repeats.  A repeated
        key with another intent is refused, and so is an interface that has a
        live operation other than previews this one supersedes; a refusal leaves
        even those previews alone. */
    method CreateOperation(input: Input, newId: Id) returns (outcome: Outcome)
      requires Valid() && newId !in rows
      modifies this
      ensures Valid()
      ensures outcome.Created? <==> old(Insertable(rows, input, newId))
      ensures outcome.Created? ==> outcome.id == newId && rows == old(Inserted(rows, input, newId))
      ensures !outcome.Created? ==> rows == old(rows)
      ensures outcome.Replayed? ==>
                outcome.id in rows && Matches(rows[outcome.id], input) && rows[outcome.id].intent == input.intent
      ensures outcome == DifferentIntent ==>
                exists id :: id in rows && Matches(rows[id], input) && rows[id].intent != input.intent
      ensures outcome == InProgress ==> input.interface != "" && Busy(Supersede(rows, input), input.interface)
    {
      if !Complete(input) {
        return Invalid;
      }
      var replay := FindReplay(input);
      if replay.Some? {
        return if rows[replay.value].intent != input.intent then DifferentIntent else Replayed(replay.value);
      }
      var next := rows;
      if input.interface != "" {
        next := Supersede(rows, input);
        var busy := FindLive(next, input.interface);
        if busy {
          return InProgress;
        }
      }
      for i := 0 to |input.steps|
        invariant CompleteSteps(input.steps[..i])
      {
        var step := input.steps[i];
        if step.kind == "" || step.name == "" || step.original == "" || step.proposed == "" {
          return Invalid;
        }
      }
      assert input.steps[..|input.steps|] == input.steps;
      rows := next[newId := NewRow(input)];
      Extend(Create(input, newId));
      return Created(newId);
    }

    method TransitionOperation(id: Id, from: State, to: State) returns (ok: bool)
      requires Valid() && ValidOperationTransition(from, to)
      modifies this
      ensures Valid()
      ensures ok <==> id in old(rows) && old(rows)[id].state == from
      ensures rows == if ok then old(rows)[id := old(rows)[id].(state := to)] else old(rows)
    {
      ok := id in rows && rows[id].state == from;
      if ok {
        rows := rows[id := rows[id].(state := to)];
        Extend(Transition(id, to));
      }
    }
  }
}

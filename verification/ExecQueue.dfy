/** Commands queued for nodes to run (internal/platform/exec/repository.go and service.go). */
module ExecQueue {
  import opened Basics
  import opened Newest

  const MAX_WAITING_PER_PROJECT := 16
  const KEEP_PER_INSTANCE := 20
  const ABANDONED := 15 * 60 * 1_000_000_000
  const MAX_OUTPUT_BYTES := 256 * 1024

  datatype State = Waiting | Running | Done | Lost

  /** `created` is the stored stamp, an abstract ordered key. */
  datatype Row = Row(id: string, project: string, inst: string, node: string, state: State, created: int, output: Bytes)

  /** Where an instance lives and whose it is. */
  datatype Home = Home(project: string, node: string)

  // ----- the statements, on the rows in (created_at, id) order -----

  function WaitingIn(project: string): Row -> bool {
    (r: Row) => r.project == project && r.state == Waiting
  }

  function RunsOf(inst: string): Row -> bool {
    (r: Row) => r.inst == inst
  }

  /** Of one instance's rows only the newest `keep` stay. */
  function Trim(rows: seq<Row>, inst: string, keep: nat): seq<Row> {
    KeepNewest(rows, RunsOf(inst), keep)
  }

  /** The place of the oldest row waiting on the node, or the length if none is. */
  function NextWaiting(rows: seq<Row>, node: string): (i: nat)
    ensures i <= |rows| && (i < |rows| ==> rows[i].node == node && rows[i].state == Waiting)
    ensures forall k | 0 <= k < i :: !(rows[k].node == node && rows[k].state == Waiting)
  {
    FirstWhere(rows, (r: Row) => r.node == node && r.state == Waiting, 0)
  }

  function IdOf(r: Row): string {
    r.id
  }

  function GivenUp(r: Row, before: int): Row {
    if r.state in {Waiting, Running} && r.created < before then r.(state := Lost) else r
  }

  /** Still waiting or running although it was created before. */
  function Late(before: int): Row -> bool {
    (r: Row) => r.state in {Waiting, Running} && r.created < before
  }

  function LoseAbandoned(rows: seq<Row>, before: int): (now: seq<Row>)
    ensures |now| == |rows| && forall i | 0 <= i < |rows| :: now[i] == GivenUp(rows[i], before)
  {
    seq(|rows|, i requires 0 <= i < |rows| => GivenUp(rows[i], before))
  }

  // ----- the calls -----

  datatype Answer = Accepted | TooManyWaiting | NoSuchCommand | NotHere | Handed(row: Row) | Nothing

  /** A trim that fails is only logged. */
  function Started(rows: seq<Row>, row: Row, trims: bool): (seq<Row>, Answer) {
    if CountOf(rows, WaitingIn(row.project)) >= MAX_WAITING_PER_PROJECT then (rows, TooManyWaiting)
    else (if trims then Trim(rows + [row], row.inst, KEEP_PER_INSTANCE) else rows + [row], Accepted)
  }

  function Took(rows: seq<Row>, node: string): (seq<Row>, Answer) {
    var i := NextWaiting(rows, node);
    if i == |rows| then (rows, Nothing)
    else (rows[i := rows[i].(state := Running)], Handed(rows[i].(state := Running)))
  }

  function Finished(rows: seq<Row>, node: string, id: string, output: Bytes): (seq<Row>, Answer) {
    var i := PlaceOf(rows, IdOf, id);
    if i == |rows| then (rows, NoSuchCommand)
    else if rows[i].node != node then (rows, NotHere)
    else if rows[i].state == Done then (rows, Accepted)
    else (rows[i := rows[i].(state := Done, output := output)], Accepted)
  }

  // ----- what every call keeps -----

  ghost predicate Ordered(rows: seq<Row>) {
    && (forall i, j | 0 <= i < j < |rows| :: rows[i].created < rows[j].created)
    && (forall i, j | 0 <= i < j < |rows| :: rows[i].id != rows[j].id)
  }

  /** On each node, everything newer than a waiting command is waiting too. */
  ghost predicate Fifo(rows: seq<Row>) {
    forall i, j | 0 <= i < j < |rows| && rows[i].node == rows[j].node && rows[i].state == Waiting ::
      rows[j].state == Waiting
  }

  /** Every instance stays where it is. */
  ghost predicate Settled(rows: seq<Row>, home: string -> Home) {
    forall i | 0 <= i < |rows| :: Home(rows[i].project, rows[i].node) == home(rows[i].inst)
  }

  ghost predicate WithinLimit(rows: seq<Row>) {
    forall project {:trigger WaitingIn(project)} :: CountOf(rows, WaitingIn(project)) <= MAX_WAITING_PER_PROJECT
  }

  ghost predicate Inv(rows: seq<Row>, home: string -> Home) {
    Ordered(rows) && Fifo(rows) && Settled(rows, home) && WithinLimit(rows)
  }

  // ----- the invariant -----

  /** Rows may settle, but nothing starts waiting, and only in a way that keeps each node's order. */
  lemma UpdateKeepsInv(rows: seq<Row>, now: seq<Row>, home: string -> Home)
    requires Inv(rows, home) && |now| == |rows| && Fifo(now)
    requires forall i | 0 <= i < |rows| ::
      now[i] == rows[i].(state := now[i].state, output := now[i].output)
        && (now[i].state == Waiting ==> rows[i].state == Waiting)
    ensures Inv(now, home)
  {
    forall project ensures CountOf(now, WaitingIn(project)) <= MAX_WAITING_PER_PROJECT {
      CountPointwise(rows, now, WaitingIn(project));
    }
  }

  lemma AppendKeepsOrder(rows: seq<Row>, row: Row, home: string -> Home)
    requires Ordered(rows) && Fifo(rows) && Settled(rows, home)
    requires Fresh(rows, row) && row.state == Waiting && Home(row.project, row.node) == home(row.inst)
    ensures Ordered(rows + [row]) && Fifo(rows + [row]) && Settled(rows + [row], home)
  {
    var now := rows + [row];
    assert forall i | 0 <= i < |rows| :: now[i] == rows[i];
    assert now[|rows|] == row;
  }

  lemma AppendKeepsLimit(rows: seq<Row>, row: Row)
    requires WithinLimit(rows) && CountOf(rows, WaitingIn(row.project)) < MAX_WAITING_PER_PROJECT
    ensures WithinLimit(rows + [row])
  {
    forall project ensures CountOf(rows + [row], WaitingIn(project)) <= MAX_WAITING_PER_PROJECT {
      CountOneMore(rows, row, WaitingIn(project));
    }
  }

  lemma AppendKeepsInv(rows: seq<Row>, row: Row, home: string -> Home)
    requires Inv(rows, home) && Fresh(rows, row) && row.state == Waiting
      && Home(row.project, row.node) == home(row.inst)
    requires CountOf(rows, WaitingIn(row.project)) < MAX_WAITING_PER_PROJECT
    ensures Inv(rows + [row], home)
  {
    AppendKeepsOrder(rows, row, home);
    AppendKeepsLimit(rows, row);
  }

  lemma TrimKeepsInv(rows: seq<Row>, inst: string, keep: nat, home: string -> Home)
    requires Inv(rows, home)
    ensures Inv(Trim(rows, inst, keep), home)
  {
    var at := IsSubsequence(rows, RunsOf(inst), keep);
    forall project ensures CountOf(Trim(rows, inst, keep), WaitingIn(project)) <= MAX_WAITING_PER_PROJECT {
      CountAfterwards(rows, RunsOf(inst), keep, WaitingIn(project));
    }
  }

  /** Newer than everything stored, under an id of its own. */
  ghost predicate Fresh(rows: seq<Row>, row: Row) {
    forall i | 0 <= i < |rows| :: rows[i].created < row.created && rows[i].id != row.id
  }

  /** What is newer than a waiting command of the instance waits too, so there are few of them. */
  lemma WaitingStays(rows: seq<Row>, inst: string, i: nat, home: string -> Home)
    requires Inv(rows, home) && i < |rows| && rows[i].state == Waiting
    ensures Stays(rows, RunsOf(inst), KEEP_PER_INSTANCE, i)
  {
    if rows[i].inst == inst {
      var project := rows[i].project;
      var newer := rows[i + 1..];
      forall k | 0 <= k < |newer| && RunsOf(inst)(newer[k]) ensures WaitingIn(project)(newer[k]) {
        assert newer[k] == rows[i + 1 + k];
      }
      CountMonotone(newer, RunsOf(inst), WaitingIn(project));
      CountSuffix(rows, WaitingIn(project), i + 1);
    }
  }

  // ----- runs of whole calls -----

  datatype Call = Start(row: Row, trims: bool) | Take(node: string) | Finish(node: string, id: string, output: Bytes)
    | Sweep(before: int)

  datatype Queue = Queue(rows: seq<Row>, taken: set<string>)

  function Called(q: Queue, c: Call): (Queue, Answer) {
    match c
    case Start(row, trims) => var (rows, answer) := Started(q.rows, row, trims); (q.(rows := rows), answer)
    case Take(node) =>
      var (rows, answer) := Took(q.rows, node);
      (Queue(rows, if answer.Handed? then q.taken + {answer.row.id} else q.taken), answer)
    case Finish(node, id, output) =>
      var (rows, answer) := Finished(q.rows, node, id, output); (q.(rows := rows), answer)
    case Sweep(before) => (q.(rows := LoseAbandoned(q.rows, before)), Accepted)
  }

  /** New commands are stamped in order for an instance that stays put; nodes finish what they took. */
  ghost predicate Permitted(q: Queue, c: Call, home: string -> Home) {
    match c
    case Start(row, _) =>
      && Fresh(q.rows, row) && row.id !in q.taken && row.state == Waiting
      && Home(row.project, row.node) == home(row.inst)
    case Finish(_, id, _) => id in q.taken
    case _ => true
  }

  ghost predicate TakenAreNotWaiting(q: Queue) {
    forall i | 0 <= i < |q.rows| :: q.rows[i].id in q.taken ==> q.rows[i].state != Waiting
  }

  ghost predicate QueueInv(q: Queue, home: string -> Home) {
    Inv(q.rows, home) && TakenAreNotWaiting(q)
  }

  lemma StartKeepsInv(q: Queue, row: Row, trims: bool, home: string -> Home)
    requires QueueInv(q, home) && Permitted(q, Start(row, trims), home)
    ensures QueueInv(Called(q, Start(row, trims)).0, home)
  {
    var rows := Started(q.rows, row, trims).0;
    assert Inv(rows, home) by {
      if CountOf(q.rows, WaitingIn(row.project)) < MAX_WAITING_PER_PROJECT {
        AppendKeepsInv(q.rows, row, home);
        TrimKeepsInv(q.rows + [row], row.inst, KEEP_PER_INSTANCE, home);
      }
    }
    assert TakenAreNotWaiting(q.(rows := rows)) by {
      StartKeepsTaken(q, row, trims);
    }
  }

  lemma StartKeepsTaken(q: Queue, row: Row, trims: bool)
    requires TakenAreNotWaiting(q) && row.id !in q.taken
    ensures TakenAreNotWaiting(q.(rows := Started(q.rows, row, trims).0))
  {
    var rows := Started(q.rows, row, trims).0;
    StartKeepsRows(q.rows, row, trims);
    forall i | 0 <= i < |rows| && rows[i].id in q.taken ensures rows[i].state != Waiting {
      assert rows[i] in rows;
    }
  }

  lemma TakeKeepsInv(q: Queue, node: string, home: string -> Home)
    requires QueueInv(q, home)
    ensures QueueInv(Called(q, Take(node)).0, home)
  {
    UpdateKeepsInv(q.rows, Called(q, Take(node)).0.rows, home);
  }

  lemma FinishKeepsInv(q: Queue, node: string, id: string, output: Bytes, home: string -> Home)
    requires QueueInv(q, home) && id in q.taken
    ensures QueueInv(Called(q, Finish(node, id, output)).0, home)
  {
    UpdateKeepsInv(q.rows, Called(q, Finish(node, id, output)).0.rows, home);
  }

  lemma SweepKeepsInv(q: Queue, before: int, home: string -> Home)
    requires QueueInv(q, home)
    ensures QueueInv(Called(q, Sweep(before)).0, home)
  {
    UpdateKeepsInv(q.rows, Called(q, Sweep(before)).0.rows, home);
  }

  lemma CallKeepsInv(q: Queue, c: Call, home: string -> Home)
    requires QueueInv(q, home) && Permitted(q, c, home)
    ensures QueueInv(Called(q, c).0, home)
  {
    match c
    case Start(row, trims) => StartKeepsInv(q, row, trims, home);
    case Take(node) => TakeKeepsInv(q, node, home);
    case Finish(node, id, output) => FinishKeepsInv(q, node, id, output, home);
    case Sweep(before) => SweepKeepsInv(q, before, home);
  }

  function RunCalls(q: Queue, calls: seq<Call>): Queue
    decreases |calls|
  {
    if calls == [] then q else Called(RunCalls(q, calls[..|calls| - 1]), calls[|calls| - 1]).0
  }

  ghost predicate AllPermitted(q: Queue, calls: seq<Call>, home: string -> Home)
    decreases |calls|
  {
    calls == [] || (
      && AllPermitted(q, calls[..|calls| - 1], home)
      && Permitted(RunCalls(q, calls[..|calls| - 1]), calls[|calls| - 1], home))
  }

  lemma {:induction false} RunKeepsInv(calls: seq<Call>, home: string -> Home)
    requires AllPermitted(Queue([], {}), calls, home)
    ensures QueueInv(RunCalls(Queue([], {}), calls), home)
    decreases |calls|
  {
    if calls != [] {
      RunKeepsInv(calls[..|calls| - 1], home);
      CallKeepsInv(RunCalls(Queue([], {}), calls[..|calls| - 1]), calls[|calls| - 1], home);
    }
  }

  /** Why a command that waited may no longer wait after one call. */
  ghost predicate LeavesQueue(q: Queue, c: Call, i: nat)
    requires i < |q.rows|
  {
    match c
    case Take(node) => i == NextWaiting(q.rows, node)
    case Sweep(before) => q.rows[i].created < before
    case _ => false
  }

  /**
   After any run, whatever the next call is: a waiting command goes on waiting exactly unless it is
   the oldest on the node that takes or too old for the sweep. No start ever trims it away.
   */
  lemma WaitingIsNeverTrimmed(calls: seq<Call>, c: Call, home: string -> Home, i: nat)
    requires AllPermitted(Queue([], {}), calls, home) && Permitted(RunCalls(Queue([], {}), calls), c, home)
    requires i < |RunCalls(Queue([], {}), calls).rows| && RunCalls(Queue([], {}), calls).rows[i].state == Waiting
    ensures
      var q := RunCalls(Queue([], {}), calls);
      q.rows[i] in Called(q, c).0.rows <==> !LeavesQueue(q, c, i)
  {
    RunKeepsInv(calls, home);
    WaitingStaysIff(RunCalls(Queue([], {}), calls), c, home, i);
  }

  lemma WaitingStaysIff(q: Queue, c: Call, home: string -> Home, i: nat)
    requires QueueInv(q, home) && Permitted(q, c, home) && i < |q.rows| && q.rows[i].state == Waiting
    ensures q.rows[i] in Called(q, c).0.rows <==> !LeavesQueue(q, c, i)
  {
    var now := Called(q, c).0.rows;
    match c
    case Start(row, _) =>
      if CountOf(q.rows, WaitingIn(row.project)) < MAX_WAITING_PER_PROJECT {
        var rows := q.rows + [row];
        AppendKeepsInv(q.rows, row, home);
        assert rows[i] == q.rows[i];
        WaitingStays(rows, row.inst, i, home);
        KeepsIff(rows, RunsOf(row.inst), KEEP_PER_INSTANCE, i);
      }
    case _ =>
      assert now[i] == q.rows[i] ==> q.rows[i] in now;
      assert forall k | 0 <= k < |now| :: now[k].id == q.rows[k].id;
  }

  /** A command is stored exactly if there was room for it. */
  lemma AcceptedIsStored(q: Queue, row: Row, trims: bool, home: string -> Home)
    requires QueueInv(q, home) && Permitted(q, Start(row, trims), home)
    ensures
      row in Called(q, Start(row, trims)).0.rows
      <==> CountOf(q.rows, WaitingIn(row.project)) < MAX_WAITING_PER_PROJECT
  {
    if CountOf(q.rows, WaitingIn(row.project)) < MAX_WAITING_PER_PROJECT {
      AppendKeepsInv(q.rows, row, home);
      NewestStays(q.rows, row, home);
    } else {
      assert Called(q, Start(row, trims)).0.rows == q.rows;
      assert forall i | 0 <= i < |q.rows| :: q.rows[i].id != row.id;
    }
  }

  lemma NewestStays(rows: seq<Row>, row: Row, home: string -> Home)
    requires Inv(rows + [row], home) && row.state == Waiting
    ensures row in Trim(rows + [row], row.inst, KEEP_PER_INSTANCE)
  {
    WaitingStays(rows + [row], row.inst, |rows|, home);
    KeepsIff(rows + [row], RunsOf(row.inst), KEEP_PER_INSTANCE, |rows|);
  }

  lemma StartKeepsRows(rows: seq<Row>, row: Row, trims: bool)
    ensures forall r | r in Started(rows, row, trims).0 :: r == row || r in rows
  {
    if CountOf(rows, WaitingIn(row.project)) < MAX_WAITING_PER_PROJECT {
      var at := IsSubsequence(rows + [row], RunsOf(row.inst), KEEP_PER_INSTANCE);
    }
  }

  lemma StartLeavesDone(rows: seq<Row>, row: Row, trims: bool, i: nat, k: nat)
    requires Ordered(rows) && Fresh(rows, row) && i < |rows|
    requires k < |Started(rows, row, trims).0| && Started(rows, row, trims).0[k].id == rows[i].id
    ensures Started(rows, row, trims).0[k] == rows[i]
  {
    var now := Started(rows, row, trims).0;
    StartKeepsRows(rows, row, trims);
    assert now[k] in now && row.id != rows[i].id;
    var m :| 0 <= m < |rows| && rows[m] == now[k];
  }

  lemma OthersLeaveDone(q: Queue, c: Call, i: nat)
    requires !c.Start? && i < |q.rows| && q.rows[i].state == Done
    ensures
      var now := Called(q, c).0.rows;
      |now| == |q.rows| && now[i] == q.rows[i] && forall k | 0 <= k < |now| :: now[k].id == q.rows[k].id
  {
  }

  /** A result once stored is never overwritten: the row stands as it is, or is trimmed away. */
  lemma FirstResultStands(q: Queue, c: Call, home: string -> Home, i: nat, k: nat)
    requires QueueInv(q, home) && Permitted(q, c, home) && i < |q.rows| && q.rows[i].state == Done
    requires k < |Called(q, c).0.rows| && Called(q, c).0.rows[k].id == q.rows[i].id
    ensures Called(q, c).0.rows[k] == q.rows[i]
  {
    if c.Start? {
      StartLeavesDone(q.rows, c.row, c.trims, i, k);
    } else {
      OthersLeaveDone(q, c, i);
    }
  }

  /** A finish is accepted exactly from the node the command is queued for, and changes that row only. */
  lemma FinishTouchesOwnRow(rows: seq<Row>, node: string, id: string, output: Bytes, i: nat)
    requires Ordered(rows) && i < |rows|
    ensures
      var (now, answer) := Finished(rows, node, id, output);
      && |now| == |rows|
      && (rows[i].id != id ==> now[i] == rows[i])
      && (rows[i].id == id ==>
        (answer == Accepted <==> rows[i].node == node) && (answer == NotHere <==> rows[i].node != node))
      && (rows[i].id == id && rows[i].node == node ==>
        now[i] == rows[i].(state := Done, output := if rows[i].state == Done then rows[i].output else output))
      && (answer != Accepted ==> now == rows)
  {
    var k := PlaceOf(rows, IdOf, id);
    assert k < |rows| && rows[i].id == id ==> k == i;
  }

  /** The oldest command waiting on the node. */
  ghost predicate OldestWaiting(rows: seq<Row>, node: string, i: nat) {
    && i < |rows| && rows[i].node == node && rows[i].state == Waiting
    && forall k | 0 <= k < |rows| && rows[k].node == node && rows[k].state == Waiting ::
      rows[i].created <= rows[k].created
  }

  /** A take hands out the oldest command waiting on the node, now running, and touches no other row. */
  lemma TakeHandsOldestIff(rows: seq<Row>, node: string, i: nat)
    requires Ordered(rows)
    ensures
      var (now, answer) := Took(rows, node);
      && (OldestWaiting(rows, node, i) <==>
            i < |rows| && answer == Handed(rows[i].(state := Running)) && rows[i].state == Waiting)
      && (OldestWaiting(rows, node, i) ==> now == rows[i := rows[i].(state := Running)])
      && (answer == Nothing <==> forall r | r in rows :: r.node != node || r.state != Waiting)
      && (answer == Nothing ==> now == rows)
  {
    var k := NextWaiting(rows, node);
    if OldestWaiting(rows, node, i) {
      assert k == i;
    }
    if k < |rows| {
      assert rows[k] in rows;
    }
  }

  /** A start that is accepted keeps exactly the newest 20 commands of its instance, and all of the others'. */
  lemma StartTrimsIff(rows: seq<Row>, row: Row, i: nat)
    requires Ordered(rows) && Fresh(rows, row) && i < |rows|
    requires CountOf(rows, WaitingIn(row.project)) < MAX_WAITING_PER_PROJECT
    ensures
      var now := Started(rows, row, true).0;
      && (rows[i] in now
          <==> rows[i].inst != row.inst || CountOf(rows[i + 1..], RunsOf(row.inst)) < KEEP_PER_INSTANCE - 1)
      && CountOf(now, RunsOf(row.inst)) <= KEEP_PER_INSTANCE && row in now
    ensures Started(rows, row, true).1 == Accepted && Started(rows, row, false) == (rows + [row], Accepted)
  {
    var all, p := rows + [row], RunsOf(row.inst);
    assert Distinct(all) by {
      AllDistinct(rows, row);
    }
    assert all[i] == rows[i] && all[|rows|] == row;
    NewerOneMore(rows, row, i);
    assert rows[i] in Trim(all, row.inst, KEEP_PER_INSTANCE) <==> Stays(all, p, KEEP_PER_INSTANCE, i) by {
      KeepsIff(all, p, KEEP_PER_INSTANCE, i);
    }
    assert row in Trim(all, row.inst, KEEP_PER_INSTANCE) by {
      KeepsIff(all, p, KEEP_PER_INSTANCE, |rows|);
      assert all[|rows| + 1..] == [];
    }
    CountOfKept(all, p, KEEP_PER_INSTANCE);
  }

  lemma AllDistinct(rows: seq<Row>, row: Row)
    requires Ordered(rows) && Fresh(rows, row)
    ensures Distinct(rows + [row])
  {
    var all := rows + [row];
    forall k, l | 0 <= k < l < |all| ensures all[k] != all[l] {
      assert all[k] == rows[k];
    }
  }

  lemma NewerOneMore(rows: seq<Row>, row: Row, i: nat)
    requires i < |rows|
    ensures CountOf((rows + [row])[i + 1..], RunsOf(row.inst)) == CountOf(rows[i + 1..], RunsOf(row.inst)) + 1
  {
    assert (rows + [row])[i + 1..] == rows[i + 1..] + [row];
    CountOneMore(rows[i + 1..], row, RunsOf(row.inst));
  }

  // ----- single statements, interleaved in any way -----

  /** A take call is a select and then a guarded update; other calls may act in between. */
  datatype Statement =
    | Insert(row: Row)
    | Select(call: nat, node: string)
    | SetTaken(call: nat)
    | SetDone(id: string, output: Bytes)
    | Lose(before: int)
    | Delete(inst: string, keep: nat)

  datatype Outcome = HandedOut(call: nat, id: string, node: string) | GaveUp(ids: set<string>)

  datatype Pick = Pick(id: string, node: string)

  /** `issued` remembers every id ever inserted and for which node. */
  datatype Store = Store(rows: seq<Row>, picked: map<nat, Pick>, issued: map<string, string>, log: seq<Outcome>)

  function Executed(s: Store, st: Statement): Store {
    match st
    case Insert(row) => s.(rows := s.rows + [row], issued := s.issued[row.id := row.node])
    case Select(call, node) =>
      var i := NextWaiting(s.rows, node);
      if i == |s.rows| then s.(picked := s.picked - {call})
      else s.(picked := s.picked[call := Pick(s.rows[i].id, node)])
    case SetTaken(call) =>
      if call !in s.picked then s
      else
        var pick := s.picked[call];
        var i := PlaceOf(s.rows, IdOf, pick.id);
        if i == |s.rows| || s.rows[i].state != Waiting then s.(picked := s.picked - {call})
        else
          Store(s.rows[i := s.rows[i].(state := Running)], s.picked - {call}, s.issued,
            s.log + [HandedOut(call, pick.id, pick.node)])
    case SetDone(id, output) =>
      var i := PlaceOf(s.rows, IdOf, id);
      if i == |s.rows| then s else s.(rows := s.rows[i := s.rows[i].(state := Done, output := output)])
    case Lose(before) =>
      s.(rows := LoseAbandoned(s.rows, before), log := s.log + [GaveUp(Abandoned(s.rows, before))])
    case Delete(inst, keep) => s.(rows := Trim(s.rows, inst, keep))
  }

  function Abandoned(rows: seq<Row>, before: int): set<string> {
    set i | 0 <= i < |rows| && rows[i].state in {Waiting, Running} && rows[i].created < before :: rows[i].id
  }

  /** Ids are never reused, and a command is inserted waiting. */
  ghost predicate Possible(s: Store, st: Statement) {
    st.Insert? ==> st.row.id !in s.issued && st.row.state == Waiting
  }

  ghost predicate Names(o: Outcome, id: string) {
    match o
    case HandedOut(_, handed, _) => handed == id
    case GaveUp(ids) => id in ids
  }

  /** No command is handed out after it was handed out or given up. */
  ghost predicate HandedOnce(log: seq<Outcome>) {
    forall i, j | 0 <= i < j < |log| && log[j].HandedOut? :: !Names(log[i], log[j].id)
  }

  ghost predicate RowsKnown(s: Store) {
    && (forall i, j | 0 <= i < j < |s.rows| :: s.rows[i].id != s.rows[j].id)
    && (forall i | 0 <= i < |s.rows| :: Lookup(s.issued, s.rows[i].id) == Some(s.rows[i].node))
  }

  ghost predicate PicksKnown(s: Store) {
    forall call | call in s.picked :: Lookup(s.issued, s.picked[call].id) == Some(s.picked[call].node)
  }

  /** What the log names was issued, to that node, and does not wait any more. */
  ghost predicate LogKnown(s: Store) {
    && (forall i, id | 0 <= i < |s.log| && Names(s.log[i], id) :: id in s.issued)
    && (forall i | 0 <= i < |s.log| && s.log[i].HandedOut? :: Lookup(s.issued, s.log[i].id) == Some(s.log[i].node))
    && (forall i, k | 0 <= i < |s.log| && 0 <= k < |s.rows| && Names(s.log[i], s.rows[k].id) ::
      s.rows[k].state != Waiting)
  }

  ghost predicate StoreInv(s: Store) {
    RowsKnown(s) && PicksKnown(s) && LogKnown(s) && HandedOnce(s.log)
  }

  lemma InsertKeepsInv(s: Store, row: Row)
    requires StoreInv(s) && Possible(s, Insert(row))
    ensures StoreInv(Executed(s, Insert(row)))
  {
  }

  lemma SetTakenKeepsInv(s: Store, call: nat)
    requires StoreInv(s)
    ensures StoreInv(Executed(s, SetTaken(call)))
  {
    var now := Executed(s, SetTaken(call));
    if now.log != s.log {
      assert forall i | 0 <= i < |s.log| :: now.log[i] == s.log[i];
      assert forall k | 0 <= k < |s.rows| :: now.rows[k].id == s.rows[k].id;
    }
  }

  lemma LoseKeepsInv(s: Store, before: int)
    requires StoreInv(s)
    ensures StoreInv(Executed(s, Lose(before)))
  {
    var now := Executed(s, Lose(before));
    assert forall i | 0 <= i < |s.log| :: now.log[i] == s.log[i];
    assert forall k | 0 <= k < |s.rows| :: now.rows[k].id == s.rows[k].id;
    forall k | 0 <= k < |s.rows| && s.rows[k].id in Abandoned(s.rows, before) ensures now.rows[k].state != Waiting {
      assert now.rows[k] == GivenUp(s.rows[k], before);
    }
  }

  lemma DeleteKeepsInv(s: Store, inst: string, keep: nat)
    requires StoreInv(s)
    ensures StoreInv(Executed(s, Delete(inst, keep)))
  {
    var at := IsSubsequence(s.rows, RunsOf(inst), keep);
  }

  lemma StatementKeepsInv(s: Store, st: Statement)
    requires StoreInv(s) && Possible(s, st)
    ensures StoreInv(Executed(s, st))
  {
    match st
    case Insert(row) => InsertKeepsInv(s, row);
    case Select(_, _) =>
    case SetTaken(call) => SetTakenKeepsInv(s, call);
    case SetDone(_, _) =>
    case Lose(before) => LoseKeepsInv(s, before);
    case Delete(inst, keep) => DeleteKeepsInv(s, inst, keep);
  }

  function RunStatements(s: Store, sts: seq<Statement>): Store
    decreases |sts|
  {
    if sts == [] then s else Executed(RunStatements(s, sts[..|sts| - 1]), sts[|sts| - 1])
  }

  ghost predicate AllPossible(s: Store, sts: seq<Statement>)
    decreases |sts|
  {
    sts == [] || (
      && AllPossible(s, sts[..|sts| - 1])
      && Possible(RunStatements(s, sts[..|sts| - 1]), sts[|sts| - 1]))
  }

  /**
   However the statements of any number of calls interleave, every command is handed out at most
   once, to the node it was queued for, and never after it was given up as lost.
   */
  lemma {:induction false} HandedOutAtMostOnce(sts: seq<Statement>)
    requires AllPossible(Store([], map[], map[], []), sts)
    ensures StoreInv(RunStatements(Store([], map[], map[], []), sts))
    ensures HandedOnce(RunStatements(Store([], map[], map[], []), sts).log)
    decreases |sts|
  {
    if sts != [] {
      HandedOutAtMostOnce(sts[..|sts| - 1]);
      StatementKeepsInv(RunStatements(Store([], map[], map[], []), sts[..|sts| - 1]), sts[|sts| - 1]);
    }
  }

  /** The guarded update hands out exactly a command that still waits, and changes no other row. */
  lemma SetTakenHandsIff(s: Store, call: nat, k: nat)
    requires StoreInv(s) && k < |s.rows|
    ensures
      var now := Executed(s, SetTaken(call));
      var handed := call in s.picked && s.picked[call].id == s.rows[k].id && s.rows[k].state == Waiting;
      && call !in now.picked && |now.rows| == |s.rows|
      && now.rows[k] == (if handed then s.rows[k].(state := Running) else s.rows[k])
      && (handed ==> now.log == s.log + [HandedOut(call, s.rows[k].id, s.rows[k].node)])
      && (now.log == s.log
        || (call in s.picked && now.log == s.log + [HandedOut(call, s.picked[call].id, s.picked[call].node)]))
  {
    if call in s.picked {
      var i := PlaceOf(s.rows, IdOf, s.picked[call].id);
      assert s.rows[k].id == s.picked[call].id ==> i == k;
    }
  }

  /** What a call leaves is what its statements leave when nothing comes in between. */
  lemma CallsAreStatements(s: Store, call: nat, node: string, row: Row, before: int)
    requires StoreInv(s) && Ordered(s.rows)
    ensures
      var done := Executed(Executed(s, Select(call, node)), SetTaken(call));
      var (now, answer) := Took(s.rows, node);
      && done.rows == now
      && done.log == if answer.Handed? then s.log + [HandedOut(call, answer.row.id, node)] else s.log
    ensures
      CountOf(s.rows, WaitingIn(row.project)) < MAX_WAITING_PER_PROJECT ==>
        Executed(Executed(s, Insert(row)), Delete(row.inst, KEEP_PER_INSTANCE)).rows == Started(s.rows, row, true).0
    ensures Executed(s, Lose(before)).rows == Called(Queue(s.rows, {}), Sweep(before)).0.rows
  {
    var i := NextWaiting(s.rows, node);
    if i < |s.rows| {
      assert PlaceOf(s.rows, IdOf, s.rows[i].id) == i;
    }
  }

  // ----- what a node reports -----

  function WithoutZeros(b: Bytes): Bytes {
    if b == [] then [] else (if b[0] == 0 then [] else [b[0]]) + WithoutZeros(b[1..])
  }

  lemma {:induction false} ZerosGoInParts(a: Bytes, b: Bytes)
    ensures WithoutZeros(a + b) == WithoutZeros(a) + WithoutZeros(b)
  {
    var s := a + b;
    if a == [] {
      assert s == b;
    } else {
      assert s[0] == a[0] && s[1..] == a[1..] + b;
      ZerosGoInParts(a[1..], b);
      var first := if a[0] == 0 then [] else [a[0]];
      assert WithoutZeros(s) == first + WithoutZeros(s[1..]);
    }
  }

  lemma {:induction false} NoZeroIsLeft(a: Bytes)
    ensures 0 !in WithoutZeros(a)
    ensures 0 !in a ==> WithoutZeros(a) == a
  {
    if a != [] {
      NoZeroIsLeft(a[1..]);
      assert a == [a[0]] + a[1..];
    }
  }

  /** Output loses its zero bytes, wherever they are, and nothing else. */
  lemma OnlyZerosGo(a: Bytes, b: Bytes)
    ensures 0 !in WithoutZeros(a)
    ensures 0 !in a ==> WithoutZeros(a) == a
    ensures WithoutZeros(a + [0] + b) == WithoutZeros(a) + WithoutZeros(b)
  {
    NoZeroIsLeft(a);
    WithZero(a);
    ZerosGoInParts(a + [0], b);
  }

  lemma WithZero(a: Bytes)
    ensures WithoutZeros(a + [0]) == WithoutZeros(a)
  {
    var zero: Bytes := [0];
    assert WithoutZeros(zero) == [] by {
      assert zero[1..] == [];
    }
    ZerosGoInParts(a, zero);
  }

  /** The longest well-formed end of the output that fits; `wellFormed` is UTF-8 validity. */
  method Clip(output: Bytes, wellFormed: Bytes -> bool) returns (cut: Bytes, truncated: bool)
    ensures truncated <==> |WithoutZeros(output)| > MAX_OUTPUT_BYTES
    ensures !truncated ==> cut == WithoutZeros(output)
    ensures |cut| <= MAX_OUTPUT_BYTES && cut == WithoutZeros(output)[|WithoutZeros(output)| - |cut|..]
    ensures truncated ==> cut == [] || wellFormed(cut)
    ensures truncated ==> forall k | |WithoutZeros(output)| - MAX_OUTPUT_BYTES <= k < |WithoutZeros(output)| - |cut| ::
      !wellFormed(WithoutZeros(output)[k..])
  {
    var text := WithoutZeros(output);
    if |text| <= MAX_OUTPUT_BYTES {
      return text, false;
    }
    cut := text[|text| - MAX_OUTPUT_BYTES..];
    while !wellFormed(cut) && |cut| > 0
      invariant |cut| <= MAX_OUTPUT_BYTES && cut == text[|text| - |cut|..]
      invariant forall k | |text| - MAX_OUTPUT_BYTES <= k < |text| - |cut| :: !wellFormed(text[k..])
      decreases |cut|
    {
      assert cut[1..] == text[|text| - |cut| + 1..];
      cut := cut[1..];
    }
    truncated := true;
  }

  // ----- the service -----

  class Service {
    var rows: seq<Row>

    constructor ()
      ensures rows == []
    {
      rows := [];
    }

    method Insert(row: Row)
      modifies this
      ensures rows == old(rows) + [row]
    {
      rows := rows + [row];
    }

    method TrimTo(inst: string, keep: nat)
      modifies this
      ensures rows == Trim(old(rows), inst, keep)
    {
      rows := Trim(rows, inst, keep);
    }

    method SetTaken(id: string) returns (affected: bool)
      modifies this
      ensures
        var i := PlaceOf(old(rows), IdOf, id);
        && (affected <==> i < |old(rows)| && old(rows)[i].state == Waiting)
        && rows == if affected then old(rows)[i := old(rows)[i].(state := Running)] else old(rows)
    {
      var i := PlaceOf(rows, IdOf, id);
      affected := i < |rows| && rows[i].state == Waiting;
      if affected {
        rows := rows[i := rows[i].(state := Running)];
      }
    }

    method SetDone(id: string, output: Bytes)
      modifies this
      ensures
        var i := PlaceOf(old(rows), IdOf, id);
        rows == if i < |old(rows)| then old(rows)[i := old(rows)[i].(state := Done, output := output)] else old(rows)
    {
      var i := PlaceOf(rows, IdOf, id);
      if i < |rows| {
        rows := rows[i := rows[i].(state := Done, output := output)];
      }
    }

    method StartCommand(row: Row, trims: bool) returns (answer: Answer)
      modifies this
      ensures (rows, answer) == Started(old(rows), row, trims)
    {
      if CountOf(rows, WaitingIn(row.project)) >= MAX_WAITING_PER_PROJECT {
        return TooManyWaiting;
      }
      Insert(row);
      if trims {
        TrimTo(row.inst, KEEP_PER_INSTANCE);
      }
      answer := Accepted;
    }

    /** The oldest waiting command of the node, and no other, starts running. */
    method TakeCommand(node: string) returns (answer: Answer)
      requires Ordered(rows)
      modifies this
      ensures (rows, answer) == Took(old(rows), node)
    {
      var i := NextWaiting(rows, node);
      if i == |rows| {
        return Nothing;
      }
      var run := rows[i];
      assert PlaceOf(rows, IdOf, run.id) == i;
      var _ := SetTaken(run.id);
      answer := Handed(run.(state := Running));
    }

    method FinishCommand(node: string, id: string, output: Bytes) returns (answer: Answer)
      modifies this
      ensures (rows, answer) == Finished(old(rows), node, id, output)
    {
      var i := PlaceOf(rows, IdOf, id);
      if i == |rows| {
        return NoSuchCommand;
      }
      if rows[i].node != node {
        return NotHere;
      }
      if rows[i].state != Done {
        SetDone(id, output);
      }
      answer := Accepted;
    }

    /**
     Afterwards nothing older than the limit waits or runs; exactly what did is lost, and counted;
     every other row, and everything else about those, stands.
     */
    method SweepAt(now: int) returns (lost: nat)
      modifies this
      ensures rows == LoseAbandoned(old(rows), now - ABANDONED)
      ensures forall i | 0 <= i < |rows| && rows[i].created < now - ABANDONED ::
        rows[i].state == Done || rows[i].state == Lost
      ensures |rows| == |old(rows)| && forall i | 0 <= i < |rows| ::
        && rows[i] == old(rows)[i].(state := rows[i].state)
        && (rows[i].state != old(rows)[i].state <==> Late(now - ABANDONED)(old(rows)[i]))
        && (rows[i].state != old(rows)[i].state ==> rows[i].state == Lost)
      ensures lost == CountOf(old(rows), Late(now - ABANDONED))
      ensures CountOf(rows, Late(now - ABANDONED)) == 0
    {
      lost := CountOf(rows, Late(now - ABANDONED));
      rows := LoseAbandoned(rows, now - ABANDONED);
      assert forall i | 0 <= i < |rows| :: rows[i] == GivenUp(old(rows)[i], now - ABANDONED);
      CountNone(rows, Late(now - ABANDONED));
    }
  }
}

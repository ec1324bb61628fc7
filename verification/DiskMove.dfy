/**
 Carrying the disk of a drained instance to another node through the control plane.

 The control plane keeps one row and at most one parked file per instance
 (internal/platform/instance/migrate.go, repository.go); every node keeps at most one disk
 (internal/agent/carry.go); the scheduler releases and assigns
 (internal/platform/scheduler/scheduler.go).

 A control-plane call is a short list of writes. Every call takes the number of writes that
 reach the store before the request is lost or the process dies, so a call may be lost before,
 after or half way through taking effect; whether the caller hears the answer is a separate
 choice.
 */
module DiskMove {
  import opened Basics

  const MAX_PARKED_DISK_BYTES := 64 * 1024 * 1024 * 1024

  datatype Desired = DesiredRunning | DesiredStopped

  datatype Observed = ObservedPending | ObservedRunning | ObservedStopped | ObservedFailed

  /** The columns of the instances table the move reads or writes. `node == ""` is unplaced. */
  datatype Row = Row(node: string, desired: Desired, observed: Observed,
                     migrating: bool, diskParked: bool, diskFrom: string)

  /** What the control plane holds for one instance. */
  datatype Held = Held(row: Row, file: Option<Bytes>)

  datatype Outcome = Ok | NotFound | Moved | NotOnNode | NotMigrating | BadName | TooLarge
                   | NoParkedDisk | CameFromHere | Lost

  // ----- the control plane, one instance -----

  predicate SafeName(id: string) {
    id != "" && '/' !in id && '.' !in id
  }

  function ParkedName(id: string): Option<string> {
    if SafeName(id) then Some(id + ".qcow2") else None
  }

  function Begun(row: Row, node: string, writes: nat): (Row, Outcome) {
    if row.node != node then (row, Moved)
    else if row.migrating then (row, Ok)
    else if writes == 0 then (row, Lost)
    else
      var stopping := row.(desired := DesiredStopped);
      if writes == 1 then (stopping, Lost)
      else (stopping.(migrating := true, diskParked := false, diskFrom := ""), Ok)
  }

  function Parked(h: Held, id: string, node: string, content: Bytes, writes: nat): (Held, Outcome) {
    if h.row.node != node then (h, NotOnNode)
    else if !h.row.migrating then (h, NotMigrating)
    else if !SafeName(id) then (h, BadName)
    else if |content| > MAX_PARKED_DISK_BYTES then (h, TooLarge)
    else if writes == 0 then (h, Lost)
    else
      var renamed := h.(file := Some(content));
      if writes == 1 then (renamed, Lost)
      else (renamed.(row := h.row.(migrating := true, diskParked := true, diskFrom := node)), Ok)
  }

  function Fetched(h: Held, id: string, node: string): (Option<Bytes>, Outcome) {
    if h.row.node != node then (None, NotOnNode)
    else if !h.row.migrating || !h.row.diskParked then (None, NoParkedDisk)
    else if node == h.row.diskFrom then (None, CameFromHere)
    else if !SafeName(id) then (None, BadName)
    else if h.file.None? then (None, NoParkedDisk)
    else (h.file, Ok)
  }

  /** The third write, removing the parked file, is best effort: its failure is not reported. */
  function Finished(h: Held, id: string, node: string, writes: nat): (Held, Outcome) {
    if h.row.node != node then (h, NotOnNode)
    else if !h.row.migrating || writes == 0 then (h, if h.row.migrating then Lost else Ok)
    else
      var settled := h.(row := h.row.(migrating := false, diskParked := false, diskFrom := ""));
      if writes == 1 then (settled, Lost)
      else
        var wanted := settled.(row := settled.row.(desired := DesiredRunning));
        (if writes == 2 || !SafeName(id) then wanted else wanted.(file := None), Ok)
  }

  function Assigned(row: Row, node: string): Row {
    if row.node == "" then row.(node := node) else row
  }

  function Released(row: Row, node: string): Row {
    if row.node == node then row.(node := "", observed := ObservedPending) else row
  }

  function Reported(row: Row, node: string, observed: Observed): Row {
    if row.node == node then row.(observed := observed) else row
  }

  // ----- the node, one instance -----

  /** The row as the node read it at the start of its pass; it may be stale by the time it acts. */
  datatype View = View(id: string, migrating: bool, diskParked: bool, observed: Observed)

  /** What the environment does to one instance during one pass of one node. */
  datatype Luck = Luck(carrier: bool, exports: bool, writes: nat, heard: bool,
                       forgets: bool, imports: bool, landWrites: nat)

  /** The control plane's hold and this node's disk. */
  datatype Site = Site(held: Held, disk: Option<Bytes>)

  function HandedOver(s: Site, node: string, view: View, luck: Luck): Site {
    if s.disk.None? || !(view.observed.ObservedStopped? || view.observed.ObservedFailed?) then s
    else if !luck.exports then s
    else
      var (held, outcome) := Parked(s.held, view.id, node, s.disk.value, luck.writes);
      Site(held, if outcome.Ok? && luck.heard && luck.forgets then None else s.disk)
  }

  function Took(s: Site, node: string, view: View, luck: Luck): Site {
    if s.disk.Some? then s.(held := Finished(s.held, view.id, node, luck.landWrites).0)
    else
      var (content, _) := Fetched(s.held, view.id, node);
      if content.None? || !luck.heard || !luck.imports then s
      else Site(Finished(s.held, view.id, node, luck.landWrites).0, content)
  }

  function Carried(s: Site, node: string, view: View, luck: Luck): Site {
    if !view.migrating || !luck.carrier then s
    else if view.diskParked then Took(s, node, view, luck)
    else HandedOver(s, node, view, luck)
  }

  // ----- whole runs -----

  /**
   `truth` is a history variable: the last bytes a running workload wrote. `handed` are the nodes
   that heard their disk was parked and have not yet removed their own copy.
   */
  datatype World = World(held: Held, disks: map<string, Bytes>, running: string,
                         handed: set<string>, truth: Bytes)

  datatype Event =
    | Begin(node: string, writes: nat)
    | Park(node: string, writes: nat, heard: bool)
    | Forget(node: string)
    | KeepCopy(node: string)
    | Take(node: string, imports: bool, writes: nat)
    | Release(node: string)
    | Assign(node: string)
    | Report(node: string, observed: Observed)
    | Ask(desired: Desired)
    | Start(node: string, image: Bytes)
    | Halt(node: string)
    | Write(node: string, bytes: Bytes)
    | Collect(node: string)

  function TakeStep(w: World, id: string, node: string, imports: bool, writes: nat): World {
    if node in w.disks then w.(held := Finished(w.held, id, node, writes).0)
    else
      var (content, _) := Fetched(w.held, id, node);
      if content.None? || !imports then w
      else w.(held := Finished(w.held, id, node, writes).0, disks := w.disks[node := content.value])
  }

  /** What the code does, whether or not the environment behaves. */
  function Step(w: World, id: string, e: Event): World {
    match e
    case Begin(node, writes) => w.(held := w.held.(row := Begun(w.held.row, node, writes).0))
    case Park(node, writes, heard) =>
      if node !in w.disks then w
      else
        var (held, outcome) := Parked(w.held, id, node, w.disks[node], writes);
        w.(held := held, handed := if outcome.Ok? && heard then w.handed + {node} else w.handed)
    case Forget(node) =>
      if node !in w.handed then w else w.(disks := w.disks - {node}, handed := w.handed - {node})
    case KeepCopy(node) => w.(handed := w.handed - {node})
    case Take(node, imports, writes) => TakeStep(w, id, node, imports, writes)
    case Release(node) => w.(held := w.held.(row := Released(w.held.row, node)))
    case Assign(node) => w.(held := w.held.(row := Assigned(w.held.row, node)))
    case Report(node, observed) => w.(held := w.held.(row := Reported(w.held.row, node, observed)))
    case Ask(desired) => w.(held := w.held.(row := w.held.row.(desired := desired)))
    case Start(node, image) =>
      w.(disks := if node in w.disks then w.disks else w.disks[node := image], running := node)
    case Halt(node) => if w.running == node then w.(running := "") else w
    case Write(node, bytes) => w.(disks := w.disks[node := bytes], truth := bytes)
    case Collect(node) =>
      w.(disks := w.disks - {node}, running := if w.running == node then "" else w.running)
  }

  /** No other node has a copy of the disk, or it could not be parked under its name anyway. */
  ghost predicate NoOtherCopy(w: World, id: string, node: string) {
    w.disks.Keys <= {node} || !SafeName(id)
  }

  /**
   What is assumed of the environment. A node works through its pass in order, so while it is
   waiting to remove a handed-over copy it does nothing else. The views on which a node parks or
   takes a disk may be arbitrarily stale. It starts and collects on the list read when its pass
   began: what it starts may have been wanted running only before the move began, and what it
   collects may have been assigned to it since. But the pass in which a node parks a disk has read
   the row as stopped, and so have its later ones.
   */
  ghost predicate Allowed(w: World, id: string, e: Event) {
    match e
    // no copy left by an earlier move anywhere else when a move really begins
    case Begin(node, writes) =>
      w.held.row.node == node && !w.held.row.migrating && writes >= 2 ==> NoOtherCopy(w, id, node)
    // an instance observed stopped or failed is not running
    case Park(node, _, _) => node != "" && node !in w.handed && w.running != node
    case Forget(_) => true
    case KeepCopy(_) => true
    case Take(node, _, _) => node != "" && node !in w.handed
    // the scheduler releases a disk-carrying instance only when its disk is parked
    case Release(_) => w.held.row.diskParked
    case Assign(node) => node != ""
    case Report(_, _) => true
    // nobody starts the instance by hand while it is being moved
    case Ask(desired) => desired.DesiredRunning? ==> Unmoved(w, id)
    case Start(node, _) =>
      && node != "" && node !in w.handed && w.held.row.node == node
      && (w.held.row.desired.DesiredRunning? || (!w.held.row.diskParked && node in w.disks))
    case Halt(_) => true
    case Write(node, _) => node != "" && w.running == node
    // a node removes only what its list does not have
    case Collect(node) => (w.held.row.node != node || w.held.row.diskParked) && node !in w.handed
  }

  /** The instance is not being moved, or its disk could not be parked under its name anyway. */
  ghost predicate Unmoved(w: World, id: string) {
    !w.held.row.migrating || !SafeName(id)
  }

  function After(w: World, id: string, es: seq<Event>): World
    decreases |es|
  {
    if es == [] then w else After(Step(w, id, es[0]), id, es[1..])
  }

  ghost predicate Run(w: World, id: string, es: seq<Event>)
    decreases |es|
  {
    es == [] || (Allowed(w, id, es[0]) && Run(Step(w, id, es[0]), id, es[1..]))
  }

  /** Placed on `node`, not moving, with its disk there. Stale copies elsewhere are not excluded. */
  ghost predicate Settled(w: World, node: string) {
    && node != "" && "" !in w.disks
    && w.held.row.node == node
    && !w.held.row.migrating
    && !w.held.row.diskParked
    && node in w.disks && w.disks[node] == w.truth
    && w.running in {"", node}
    && w.handed == {}
  }

  ghost predicate Inv(w: World, id: string) {
    var row := w.held.row;
    && (forall n | n in w.handed :: n in w.disks && (row.diskParked || row.node != n))
    && "" !in w.disks
    && (row.diskParked ==> row.migrating && SafeName(id))
    && (row.migrating ==> row.desired.DesiredStopped? || !SafeName(id))
    && if row.diskParked then
         && w.held.file == Some(w.truth)
         && w.running == ""
         && (forall n | n in w.disks :: w.disks[n] == w.truth)
       else
         && row.node != ""
         && row.node in w.disks && w.disks[row.node] == w.truth
         && w.running in {"", row.node}
         && (row.migrating ==> NoOtherCopy(w, id, row.node))
  }

  lemma ParkKeepsInv(w: World, id: string, node: string, writes: nat, heard: bool)
    requires Inv(w, id) && Allowed(w, id, Park(node, writes, heard))
    ensures Inv(Step(w, id, Park(node, writes, heard)), id)
  {
  }

  lemma TakeKeepsInv(w: World, id: string, node: string, imports: bool, writes: nat)
    requires Inv(w, id) && Allowed(w, id, Take(node, imports, writes))
    ensures Inv(Step(w, id, Take(node, imports, writes)), id)
  {
  }

  lemma StepKeepsInv(w: World, id: string, e: Event)
    requires Inv(w, id) && Allowed(w, id, e)
    ensures Inv(Step(w, id, e), id)
  {
    match e
    case Park(node, writes, heard) => ParkKeepsInv(w, id, node, writes, heard);
    case Take(node, imports, writes) => TakeKeepsInv(w, id, node, imports, writes);
    case _ =>
  }

  lemma {:induction false} RunKeepsInv(w: World, id: string, es: seq<Event>)
    requires Inv(w, id) && Run(w, id, es)
    ensures Inv(After(w, id, es), id)
    decreases |es|
  {
    if es != [] {
      StepKeepsInv(w, id, es[0]);
      RunKeepsInv(Step(w, id, es[0]), id, es[1..]);
    }
  }

  /** The last written bytes are on the assigned node or in the parked file. */
  ghost predicate Kept(w: World) {
    || w.held.file == Some(w.truth)
    || (w.held.row.node in w.disks && w.disks[w.held.row.node] == w.truth)
  }

  /** Whoever may start the instance finds the last written bytes, and nobody else is running it. */
  ghost predicate StartsRight(w: World, id: string) {
    forall node: string, image: Bytes | Allowed(w, id, Start(node, image)) ::
      node in w.disks && w.disks[node] == w.truth && w.running in {"", node}
  }

  lemma NeverLost(w: World, id: string, es: seq<Event>, source: string)
    requires Settled(w, source) && Run(w, id, es)
    ensures Kept(After(w, id, es)) && StartsRight(After(w, id, es), id)
  {
    RunKeepsInv(w, id, es);
  }

  /** Nothing changes the bytes of an instance that is not running and is not started. */
  lemma {:induction false} StoppedBytesStand(w: World, id: string, es: seq<Event>)
    requires w.running == "" && Run(w, id, es) && forall i | 0 <= i < |es| :: !es[i].Start?
    ensures After(w, id, es).truth == w.truth && After(w, id, es).running == ""
    decreases |es|
  {
    if es != [] {
      StoppedBytesStand(Step(w, id, es[0]), id, es[1..]);
    }
  }

  /**
   However many moves, losses and retries lie between a stop and the next start, the node that
   starts the instance finds exactly the bytes held at the stop, and no other node runs it.
   */
  lemma NextStartIsFaithful(w: World, id: string, before: seq<Event>, stopped: seq<Event>,
                            source: string, node: string, image: Bytes)
    requires Settled(w, source) && Run(w, id, before)
    requires After(w, id, before).running == ""
    requires Run(After(w, id, before), id, stopped)
    requires forall i | 0 <= i < |stopped| :: !stopped[i].Start?
    requires Allowed(After(After(w, id, before), id, stopped), id, Start(node, image))
    ensures
      var atStop := After(w, id, before);
      var atStart := After(atStop, id, stopped);
      && node in atStart.disks && atStart.disks[node] == atStop.truth
      && Step(atStart, id, Start(node, image)).disks == atStart.disks
      && atStart.running == ""
  {
    RunKeepsInv(w, id, before);
    RunKeepsInv(After(w, id, before), id, stopped);
    StoppedBytesStand(After(w, id, before), id, stopped);
  }

  // ----- what the answers mean -----

  /** A begin is accepted exactly by the row of an instance on that node that is, or now is, being moved. */
  lemma BeginAcceptedIff(row: Row, node: string, writes: nat)
    ensures
      var (now, outcome) := Begun(row, node, writes);
      && (outcome == Ok <==> row.node == node && now.migrating)
      && (outcome == Moved <==> row.node != node)
      && (outcome != Ok && now != row ==> now == row.(desired := DesiredStopped))
      && (outcome == Ok && !row.migrating ==> now.desired.DesiredStopped? && !now.diskParked)
  {
  }

  /** A park is accepted exactly if what is then parked is this disk, with the flags that say so. */
  lemma ParkAcceptedIff(h: Held, id: string, node: string, content: Bytes, writes: nat)
    ensures
      var (now, outcome) := Parked(h, id, node, content, writes);
      && (outcome == Ok ==>
            && now.file == Some(content) && now.row.diskParked && now.row.diskFrom == node == h.row.node
              && h.row.migrating)
      && (outcome != Ok ==> now.row == h.row && now.file in {h.file, Some(content)})
      && (outcome == Ok <==>
            h.row.node == node && h.row.migrating && SafeName(id) && |content| <= MAX_PARKED_DISK_BYTES && writes >= 2)
      && (outcome in {NotOnNode, NotMigrating, BadName, TooLarge} ==> now == h)
  {
  }

  /** A landing is accepted exactly if the move is over then, with the instance wanted running if it was one. */
  lemma LandingAcceptedIff(h: Held, id: string, node: string, writes: nat)
    ensures
      var (now, outcome) := Finished(h, id, node, writes);
      && (outcome == Ok <==>
            && h.row.node == node && !now.row.migrating
            && (h.row.migrating ==> now.row.desired.DesiredRunning? && writes != 1))
      && (outcome == NotOnNode <==> h.row.node != node)
      && (outcome == Ok && h.row.migrating ==> !now.row.diskParked && now.row.diskFrom == "" && now.row.node == node)
      && (outcome == Ok && h.row.migrating && writes > 2 && SafeName(id) ==> now.file.None?)
  {
  }

  // ----- where a move ends -----

  /** A disk is handed out exactly to the assigned node of a parked move that it did not come from. */
  lemma FetchesIff(h: Held, id: string, node: string)
    ensures
      Fetched(h, id, node).0 ==
      if h.row.node == node && h.row.migrating && h.row.diskParked && node != h.row.diskFrom && SafeName(id) then h.file
      else None
    ensures Fetched(h, id, node).1 == Ok <==> Fetched(h, id, node).0.Some?
  {
  }

  /** After a park that is accepted, its node gets nothing back, and any other it is given to gets those bytes. */
  lemma ParkedForOthers(h: Held, id: string, node: string, content: Bytes, writes: nat, other: string)
    requires Parked(h, id, node, content, writes).1 == Ok && other !in {"", node}
    ensures
      var parked := Parked(h, id, node, content, writes).0;
      var given := parked.(row := Assigned(Released(parked.row, node), other));
      && Fetched(parked, id, node) == (None, CameFromHere)
      && Fetched(parked.(row := Assigned(Released(parked.row, node), node)), id, node) == (None, CameFromHere)
      && Fetched(given, id, other) == (Some(content), Ok)
  {
    assert node != "" ==> Released(Parked(h, id, node, content, writes).0.row, node).node == "";
  }

  /** The disk is parked, and the node it came from has no copy any more. */
  ghost predicate Away(w: World, id: string, source: string) {
    Inv(w, id) && w.held.row.diskParked && w.held.row.diskFrom == source && source !in w.disks
  }

  lemma NothingToTakeBack(w: World, id: string, source: string, imports: bool, writes: nat)
    requires Away(w, id, source)
    ensures Step(w, id, Take(source, imports, writes)) == w
  {
  }

  lemma AwayStep(w: World, id: string, source: string, e: Event)
    requires Away(w, id, source) && Allowed(w, id, e) && (e.Park? ==> e.node == source)
    ensures
      var next := Step(w, id, e);
      || Away(next, id, source)
      || (!next.held.row.migrating && next.held.row.node !in {"", source})
  {
    StepKeepsInv(w, id, e);
  }

  /** `es` ends where the move is over for the first time. */
  ghost predicate EndsMove(w: World, id: string, es: seq<Event>)
    decreases |es|
  {
    && es != [] && w.held.row.migrating
    && if |es| == 1 then !Step(w, id, es[0]).held.row.migrating else EndsMove(Step(w, id, es[0]), id, es[1..])
  }

  /**
   A move whose source has forgotten its copy ends only on another node, which has the parked bytes;
   that is if no node parks what is already parked, which none does that reads it as parked.
   */
  lemma {:induction false} MoveEndsElsewhere(w: World, id: string, source: string, es: seq<Event>)
    requires Away(w, id, source) && Run(w, id, es) && EndsMove(w, id, es)
    requires forall i | 0 <= i < |es| && es[i].Park? :: es[i].node == source
    ensures
      var end := After(w, id, es);
      end.held.row.node !in {"", source} && end.held.row.node in end.disks && end.disks[end.held.row.node] == end.truth
    decreases |es|
  {
    AwayStep(w, id, source, es[0]);
    if |es| > 1 {
      MoveEndsElsewhere(Step(w, id, es[0]), id, source, es[1..]);
    } else {
      StepKeepsInv(w, id, es[0]);
      assert After(w, id, es) == Step(w, id, es[0]);
    }
  }

  // ----- who changes what is wanted -----

  /** Wanted running again only by asking or by landing a move, and stopped only by asking or beginning one. */
  lemma WantedChangesOnlyIf(w: World, id: string, e: Event)
    requires Step(w, id, e).held.row.desired != w.held.row.desired
    ensures w.held.row.desired.DesiredStopped? ==>
      e.Ask? || (e.Take? && w.held.row.migrating && e.node == w.held.row.node)
    ensures w.held.row.desired.DesiredRunning? ==>
      e.Ask? || (e.Begin? && !w.held.row.migrating && e.node == w.held.row.node)
  {
  }

  /** A landing that went through is not repeated: later ones change nothing. */
  lemma LandedOnce(h: Held, id: string, node: string, writes: nat, again: nat)
    requires Finished(h, id, node, writes).1 == Ok
    ensures Finished(Finished(h, id, node, writes).0, id, node, again) == (Finished(h, id, node, writes).0, Ok)
  {
  }

  /** What a node reports is what is shown, exactly while it is the assigned one; a release shows it pending. */
  lemma ReportShowsIff(row: Row, node: string, observed: Observed)
    requires row.observed != observed
    ensures Reported(row, node, observed).observed == observed <==> row.node == node
    ensures Released(row, row.node).observed == ObservedPending && Released(row, row.node).node == ""
    ensures node != row.node ==> Released(row, node) == row
    ensures Assigned(Released(row, row.node), node).node == node
  {
  }

  // ----- the node's pass is a run of the protocol -----

  /** A run unfolds one event at a time. */
  lemma Unfold(w: World, id: string, e: Event, rest: seq<Event>)
    ensures After(w, id, [e] + rest) == After(Step(w, id, e), id, rest)
    ensures Run(w, id, [e] + rest) <==> Allowed(w, id, e) && Run(Step(w, id, e), id, rest)
  {
    assert ([e] + rest)[1..] == rest;
  }

  function CarryEvents(node: string, view: View, luck: Luck): seq<Event> {
    if !view.migrating || !luck.carrier then []
    else if view.diskParked then [Take(node, luck.heard && luck.imports, luck.landWrites)]
    else if !luck.exports || !(view.observed.ObservedStopped? || view.observed.ObservedFailed?) then []
    else [Park(node, luck.writes, luck.heard && luck.forgets), Forget(node)]
  }

  lemma OneEvent(w: World, id: string, e: Event)
    ensures After(w, id, [e]) == Step(w, id, e) && (Run(w, id, [e]) <==> Allowed(w, id, e))
  {
    assert [e] + [] == [e];
    Unfold(w, id, e, []);
  }

  lemma TwoEvents(w: World, id: string, e: Event, f: Event)
    ensures After(w, id, [e, f]) == Step(Step(w, id, e), id, f)
    ensures Run(w, id, [e, f]) <==> Allowed(w, id, e) && Allowed(Step(w, id, e), id, f)
  {
    assert [e] + [f] == [e, f];
    Unfold(w, id, e, [f]);
    OneEvent(Step(w, id, e), id, f);
  }

  /** What an event does to one node's disk and the control plane is all it does. */
  ghost predicate TouchesOnly(w: World, end: World, node: string, site: Site) {
    && Site(end.held, Lookup(end.disks, node)) == site
    && forall n | n != node :: Lookup(end.disks, n) == Lookup(w.disks, n)
  }

  lemma TakeTouchesOnly(w: World, node: string, view: View, luck: Luck)
    ensures
      TouchesOnly(w, Step(w, view.id, Take(node, luck.heard && luck.imports, luck.landWrites)), node,
        Took(Site(w.held, Lookup(w.disks, node)), node, view, luck))
  {
  }

  lemma HandOverTouchesOnly(w: World, node: string, view: View, luck: Luck)
    requires node !in w.handed && luck.exports && (view.observed.ObservedStopped? || view.observed.ObservedFailed?)
    ensures
      var parked := Step(w, view.id, Park(node, luck.writes, luck.heard && luck.forgets));
      TouchesOnly(w, Step(parked, view.id, Forget(node)), node,
        HandedOver(Site(w.held, Lookup(w.disks, node)), node, view, luck))
  {
  }

  /** Whatever view a node acts on and whatever is lost, its pass is a run of the protocol. */
  lemma CarryIsARun(w: World, node: string, view: View, luck: Luck)
    requires Inv(w, view.id) && node != "" && node !in w.handed
    requires view.observed.ObservedStopped? || view.observed.ObservedFailed? ==> w.running != node
    ensures
      var es := CarryEvents(node, view, luck);
      var end := After(w, view.id, es);
      && Run(w, view.id, es)
      && TouchesOnly(w, end, node, Carried(Site(w.held, Lookup(w.disks, node)), node, view, luck))
      && Inv(end, view.id)
  {
    var es := CarryEvents(node, view, luck);
    if |es| == 1 {
      OneEvent(w, view.id, es[0]);
      TakeTouchesOnly(w, node, view, luck);
    } else if |es| == 2 {
      TwoEvents(w, view.id, es[0], es[1]);
      HandOverTouchesOnly(w, node, view, luck);
    }
    assert Run(w, view.id, es);
    RunKeepsInv(w, view.id, es);
  }

  // ----- the code: rows and files of every instance, changed in place -----

  function FileOf(files: map<string, Bytes>, id: string): Option<Bytes> {
    var name := ParkedName(id);
    if name.None? then None else Lookup(files, name.value)
  }

  lemma NamesDiffer(a: string, b: string)
    requires SafeName(a) && SafeName(b) && a != b
    ensures ParkedName(a).value != ParkedName(b).value
  {
    assert a == (a + ".qcow2")[..|a|] && b == (b + ".qcow2")[..|b|];
  }

  lemma OthersKeepFiles(files: map<string, Bytes>, id: string, content: Bytes)
    requires SafeName(id)
    ensures forall j | j != id ::
      && FileOf(files[ParkedName(id).value := content], j) == FileOf(files, j)
      && FileOf(files - {ParkedName(id).value}, j) == FileOf(files, j)
  {
    forall j | j != id && SafeName(j) ensures ParkedName(id).value != ParkedName(j).value {
      NamesDiffer(id, j);
    }
  }

  class ControlPlane {
    var rows: map<string, Row>
    var files: map<string, Bytes>

    constructor ()
      ensures rows == map[] && files == map[]
    {
      rows, files := map[], map[];
    }

    ghost function HeldOf(id: string): Held
      requires id in rows
      reads this
    {
      Held(rows[id], FileOf(files, id))
    }

    /** Everything of every instance but `id` is as it was. */
    twostate predicate OnlyTouched(id: string)
      reads this
    {
      && rows.Keys == old(rows.Keys)
      && (forall j | j in rows && j != id :: HeldOf(j) == old(HeldOf(j)))
      && (id !in rows ==> files == old(files))
    }

    method BeginMigration(id: string, nodeID: string, writes: nat) returns (out: Outcome)
      modifies this
      ensures OnlyTouched(id) && files == old(files)
      ensures id !in rows ==> out == NotFound
      ensures id in rows ==> (rows[id], out) == Begun(old(rows[id]), nodeID, writes)
    {
      if id !in rows { return NotFound; }
      var row := rows[id];
      if row.node != nodeID { return Moved; }
      if row.migrating { return Ok; }
      if writes == 0 { return Lost; }
      rows := rows[id := rows[id].(desired := DesiredStopped)];
      if writes == 1 { return Lost; }
      SetMigrating(id, true, false, "");
      return Ok;
    }

    method SetMigrating(id: string, migrating: bool, parked: bool, from: string)
      requires id in rows
      modifies this`rows
      ensures rows == old(rows)[id := old(rows)[id].(migrating := migrating, diskParked := parked, diskFrom := from)]
    {
      rows := rows[id := rows[id].(migrating := migrating, diskParked := parked, diskFrom := from)];
    }

    method ParkDisk(nodeID: string, id: string, content: Bytes, writes: nat) returns (out: Outcome)
      modifies this
      ensures OnlyTouched(id)
      ensures id !in rows ==> out == NotFound
      ensures id in rows ==> (HeldOf(id), out) == Parked(old(HeldOf(id)), id, nodeID, content, writes)
    {
      if id !in rows { return NotFound; }
      var row := rows[id];
      if row.node != nodeID { return NotOnNode; }
      if !row.migrating { return NotMigrating; }
      var name := ParkedName(id);
      if name.None? { return BadName; }
      if |content| > MAX_PARKED_DISK_BYTES { return TooLarge; }
      if writes == 0 { return Lost; }
      OthersKeepFiles(files, id, content);
      files := files[name.value := content];
      if writes == 1 { return Lost; }
      SetMigrating(id, true, true, nodeID);
      return Ok;
    }

    method ParkedDisk(nodeID: string, id: string) returns (content: Option<Bytes>, out: Outcome)
      ensures id !in rows ==> (content, out) == (None, NotFound)
      ensures id in rows ==> (content, out) == Fetched(HeldOf(id), id, nodeID)
    {
      if id !in rows { return None, NotFound; }
      var row := rows[id];
      if row.node != nodeID { return None, NotOnNode; }
      if !row.migrating || !row.diskParked { return None, NoParkedDisk; }
      if nodeID == row.diskFrom { return None, CameFromHere; }
      var name := ParkedName(id);
      if name.None? { return None, BadName; }
      if name.value !in files { return None, NoParkedDisk; }
      return Some(files[name.value]), Ok;
    }

    method FinishMigration(nodeID: string, id: string, writes: nat) returns (out: Outcome)
      modifies this
      ensures OnlyTouched(id)
      ensures id !in rows ==> out == NotFound
      ensures id in rows ==> (HeldOf(id), out) == Finished(old(HeldOf(id)), id, nodeID, writes)
    {
      if id !in rows { return NotFound; }
      var row := rows[id];
      if row.node != nodeID { return NotOnNode; }
      if !row.migrating { return Ok; }
      if writes == 0 { return Lost; }
      SetMigrating(id, false, false, "");
      if writes == 1 { return Lost; }
      rows := rows[id := rows[id].(desired := DesiredRunning)];
      if writes >= 3 { ForgetParked(id); }
      return Ok;
    }

    method ForgetParked(id: string)
      modifies this`files
      ensures FileOf(files, id) == None
      ensures forall j | j != id :: FileOf(files, j) == old(FileOf(files, j))
      ensures !SafeName(id) ==> files == old(files)
    {
      var name := ParkedName(id);
      if name.None? { return; }
      OthersKeepFiles(files, id, []);
      files := files - {name.value};
    }

    method AssignTo(id: string, nodeID: string) returns (placed: bool)
      modifies this`rows
      ensures placed == (id in old(rows) && old(rows)[id].node == "")
      ensures rows == if id in old(rows) then old(rows)[id := Assigned(old(rows)[id], nodeID)] else old(rows)
    {
      placed := id in rows && rows[id].node == "";
      if placed { rows := rows[id := rows[id].(node := nodeID)]; }
    }

    method ReleasePlacement(id: string, nodeID: string) returns (released: bool)
      modifies this`rows
      ensures released == (id in old(rows) && old(rows)[id].node == nodeID)
      ensures rows == if id in old(rows) then old(rows)[id := Released(old(rows)[id], nodeID)] else old(rows)
    {
      released := id in rows && rows[id].node == nodeID;
      if released { rows := rows[id := rows[id].(node := "", observed := ObservedPending)]; }
    }
  }

  class Agent {
    var disks: map<string, Bytes>
    const plane: ControlPlane

    constructor (plane: ControlPlane)
      ensures this.plane == plane && disks == map[]
    {
      this.plane := plane;
      disks := map[];
    }

    ghost function SiteOf(id: string): Site
      requires id in plane.rows
      reads this, plane
    {
      Site(plane.HeldOf(id), Lookup(disks, id))
    }

    twostate predicate OnlyCarried(id: string)
      reads this, plane
    {
      && plane.OnlyTouched(id)
      && (forall j | j != id :: Lookup(disks, j) == old(Lookup(disks, j)))
      && (id !in plane.rows ==> disks == old(disks))
    }

    method HandOverDisk(nodeID: string, view: View, luck: Luck)
      modifies this, plane
      ensures OnlyCarried(view.id)
      ensures view.id in plane.rows ==> SiteOf(view.id) == HandedOver(old(SiteOf(view.id)), nodeID, view, luck)
    {
      if view.id !in disks { return; }
      if view.observed != ObservedStopped && view.observed != ObservedFailed { return; }
      if !luck.exports { return; }
      var out := plane.ParkDisk(nodeID, view.id, disks[view.id], luck.writes);
      if out != Ok || !luck.heard { return; }
      if luck.forgets { disks := disks - {view.id}; }
    }

    method TakeDisk(nodeID: string, view: View, luck: Luck)
      modifies this, plane
      ensures OnlyCarried(view.id)
      ensures view.id in plane.rows ==> SiteOf(view.id) == Took(old(SiteOf(view.id)), nodeID, view, luck)
    {
      if view.id in disks {
        var _ := plane.FinishMigration(nodeID, view.id, luck.landWrites);
        return;
      }
      var content, out := plane.ParkedDisk(nodeID, view.id);
      if content.None? || !luck.heard || !luck.imports { return; }
      disks := disks[view.id := content.value];
      var _ := plane.FinishMigration(nodeID, view.id, luck.landWrites);
    }

    /** One pass over the assigned instances carries each of them, and touches nothing else. */
    method CarryDisks(nodeID: string, views: seq<View>, lucks: seq<Luck>)
      requires |lucks| == |views|
      requires forall i, j | 0 <= i < j < |views| :: views[i].id != views[j].id
      modifies this, plane
      ensures plane.rows.Keys == old(plane.rows.Keys)
      ensures forall i | 0 <= i < |views| && views[i].id in plane.rows ::
        SiteOf(views[i].id) == Carried(old(SiteOf(views[i].id)), nodeID, views[i], lucks[i])
      ensures forall id | id in plane.rows && (forall i | 0 <= i < |views| :: views[i].id != id) ::
        SiteOf(id) == old(SiteOf(id))
    {
      for k := 0 to |views|
        invariant plane.rows.Keys == old(plane.rows.Keys)
        invariant forall i | 0 <= i < k && views[i].id in plane.rows ::
          SiteOf(views[i].id) == Carried(old(SiteOf(views[i].id)), nodeID, views[i], lucks[i])
        invariant forall id | id in plane.rows && (forall i | 0 <= i < k :: views[i].id != id) ::
          SiteOf(id) == old(SiteOf(id))
      {
        var view, luck := views[k], lucks[k];
        if !view.migrating { continue; }
        if !luck.carrier { continue; }
        if view.diskParked {
          TakeDisk(nodeID, view, luck);
        } else {
          HandOverDisk(nodeID, view, luck);
        }
      }
    }
  }
}

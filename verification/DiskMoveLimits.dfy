/**
 Where the promises of `DiskMove` end: what is assumed there of copies and of starts by hand is shown
 to be exactly what is needed. Worlds are those that keep the invariant, which are all reachable ones.
 */
module DiskMoveLimits {
  import opened Basics
  import opened DiskMove

  // ----- each assumption is exact -----

  /** Every continuation keeps the bytes and lets nobody start from others. */
  ghost predicate AlwaysKept(w: World, id: string) {
    forall es: seq<Event> | Run(w, id, es) :: Kept(After(w, id, es)) && StartsRight(After(w, id, es), id)
  }

  lemma InvAlwaysKept(w: World, id: string)
    requires Inv(w, id)
    ensures AlwaysKept(w, id)
  {
    forall es: seq<Event> | Run(w, id, es) ensures Kept(After(w, id, es)) && StartsRight(After(w, id, es), id) {
      RunKeepsInv(w, id, es);
    }
  }

  /** Some continuation does not. */
  ghost predicate CanLose(w: World, id: string) {
    !AlwaysKept(w, id)
  }

  lemma LosesNow(w: World, id: string)
    requires !Kept(w) || !StartsRight(w, id)
    ensures CanLose(w, id)
  {
    assert Run(w, id, []) && After(w, id, []) == w;
  }

  lemma LosesLater(w: World, id: string, e: Event)
    requires Allowed(w, id, e) && CanLose(Step(w, id, e), id)
    ensures CanLose(w, id)
  {
    var next := Step(w, id, e);
    var es: seq<Event> :| Run(next, id, es) && !(Kept(After(next, id, es)) && StartsRight(After(next, id, es), id));
    Unfold(w, id, e, es);
    assert Run(w, id, [e] + es);
  }

  /** There is always one more name. */
  lemma {:induction false} FreshName(names: set<string>) returns (name: string)
    ensures name !in names && |name| > 0 && forall n | n in names :: |n| < |name|
  {
    if names == {} {
      return "x";
    }
    var one :| one in names;
    var rest := FreshName(names - {one});
    name := seq(|rest| + |one| + 1, _ => 'x');
    forall n | n in names ensures |n| < |name| {
      if n != one {
        assert n in names - {one};
      }
    }
  }

  // A leftover copy.

  /**
   A copy that is not what was written last is taken for the disk that was parked: its node lands
   the move on it, and the bytes the source held exist nowhere any more.
   */
  lemma StaleCopyWins(w: World, id: string, n: string)
    requires w.held.row.migrating && !w.held.row.diskParked && SafeName(id) && |w.truth| <= MAX_PARKED_DISK_BYTES
    requires w.running == "" && w.held.row.node !in {"", n} && w.held.row.node !in w.handed && n != ""
    requires w.held.row.node in w.disks && w.disks[w.held.row.node] == w.truth
    requires n in w.disks && w.disks[n] != w.truth
    ensures CanLose(w, id)
  {
    var node := w.held.row.node;
    var w1 := Step(w, id, KeepCopy(n));
    var w2 := Step(w1, id, Park(node, 2, true));
    var w3 := Step(w2, id, Forget(node));
    var w4 := Step(w3, id, Release(node));
    var w5 := Step(w4, id, Assign(n));
    var w6 := Step(w5, id, Take(n, true, 3));
    LosesNow(w6, id);
    LosesLater(w5, id, Take(n, true, 3));
    LosesLater(w4, id, Assign(n));
    LosesLater(w3, id, Release(node));
    LosesLater(w2, id, Forget(node));
    LosesLater(w1, id, Park(node, 2, true));
    LosesLater(w, id, KeepCopy(n));
  }

  /** So is one that was up to date when the move began, if the instance goes on writing. */
  lemma CopyGoesStale(w: World, id: string, n: string)
    requires w.held.row.migrating && !w.held.row.diskParked && SafeName(id)
    requires w.held.row.node !in {"", n} && w.held.row.node !in w.handed && n != "" && w.running == w.held.row.node
    requires w.held.row.node in w.disks && n in w.disks
    ensures CanLose(w, id)
  {
    var node := w.held.row.node;
    var bytes: Bytes := if w.disks[n] == [] then [0] else [];
    var w1 := Step(w, id, Write(node, bytes));
    var w2 := Step(w1, id, Halt(node));
    StaleCopyWins(w2, id, n);
    LosesLater(w1, id, Halt(node));
    LosesLater(w, id, Write(node, bytes));
  }

  /** Even if nothing runs: the node may start the instance on a list read before the move began. */
  lemma OldListMakesStale(w: World, id: string, n: string)
    requires w.held.row.migrating && !w.held.row.diskParked && SafeName(id)
    requires w.held.row.node !in {"", n} && w.held.row.node !in w.handed && n != ""
    requires w.held.row.node in w.disks && n in w.disks
    ensures CanLose(w, id)
  {
    var node := w.held.row.node;
    CopyGoesStale(Step(w, id, Start(node, [])), id, n);
    LosesLater(w, id, Start(node, []));
  }

  /**
   A move that begins in any reachable world keeps the bytes, whatever comes after, exactly if no
   other node has a copy (or the disk could never be parked).
   */
  lemma BeginHarmlessIff(w: World, id: string, node: string)
    requires Inv(w, id) && w.held.row.node == node && !w.held.row.migrating
    ensures AlwaysKept(Step(w, id, Begin(node, 2)), id) <==> NoOtherCopy(w, id, node)
  {
    var moving := Step(w, id, Begin(node, 2));
    if NoOtherCopy(w, id, node) {
      StepKeepsInv(w, id, Begin(node, 2));
      InvAlwaysKept(moving, id);
    } else {
      var n :| n in w.disks && n != node;
      OldListMakesStale(moving, id, n);
    }
  }

  // A start by hand.

  /** A parked file that is no longer what was written last is what the next node lands the move on. */
  lemma OldParkedWins(w: World, id: string)
    requires w.held.row.migrating && w.held.row.diskParked && SafeName(id)
    requires w.held.row.node != "" && w.held.file.Some? && w.held.file.value != w.truth
    ensures CanLose(w, id)
  {
    var node := w.held.row.node;
    var target := FreshName(w.disks.Keys + w.handed + {w.held.row.diskFrom});
    var w1 := Step(w, id, Release(node));
    var w2 := Step(w1, id, Assign(target));
    var w3 := Step(w2, id, Take(target, true, 3));
    LosesNow(w3, id);
    LosesLater(w2, id, Take(target, true, 3));
    LosesLater(w1, id, Assign(target));
    LosesLater(w, id, Release(node));
  }

  /** The assigned node still has its copy, starts from it and writes; the move goes on with the old bytes. */
  lemma StartedBesideParked(w: World, id: string)
    requires w.held.row.migrating && w.held.row.diskParked && SafeName(id) && w.held.row.desired.DesiredRunning?
    requires w.held.row.node != "" && w.held.row.node in w.disks && w.held.file == Some(w.truth)
    ensures CanLose(w, id)
  {
    var node := w.held.row.node;
    var bytes: Bytes := if w.truth == [] then [0] else [];
    var w1 := Step(w, id, KeepCopy(node));
    var w2 := Step(w1, id, Start(node, []));
    var w3 := Step(w2, id, Write(node, bytes));
    var w4 := Step(w3, id, Halt(node));
    OldParkedWins(w4, id);
    LosesLater(w3, id, Halt(node));
    LosesLater(w2, id, Write(node, bytes));
    LosesLater(w1, id, Start(node, []));
    LosesLater(w, id, KeepCopy(node));
  }

  /** Wanted running again while its disk is parked: someone starts from an image, or beside the copy. */
  lemma HandStartOfParkedLoses(w: World, id: string)
    requires Inv(w, id) && w.held.row.diskParked
    ensures CanLose(Step(w, id, Ask(DesiredRunning)), id)
  {
    var asked := Step(w, id, Ask(DesiredRunning));
    var node := asked.held.row.node;
    if node == "" {
      var target := FreshName(asked.disks.Keys + asked.handed);
      var placed := Step(asked, id, Assign(target));
      assert Allowed(placed, id, Start(target, [])) && target !in placed.disks;
      LosesNow(placed, id);
      LosesLater(asked, id, Assign(target));
    } else if node !in asked.disks {
      assert Allowed(asked, id, Start(node, []));
      LosesNow(asked, id);
    } else {
      StartedBesideParked(asked, id);
    }
  }

  /** Wanted running again before its disk is parked: it is parked all the same once it stops. */
  lemma HandStartBeforeParkingLoses(w: World, id: string)
    requires Inv(w, id) && w.held.row.migrating && !w.held.row.diskParked && SafeName(id)
    ensures CanLose(Step(w, id, Ask(DesiredRunning)), id)
  {
    var asked := Step(w, id, Ask(DesiredRunning));
    var node := asked.held.row.node;
    var w1 := Step(asked, id, Start(node, []));
    var w2 := Step(w1, id, Write(node, []));
    var w3 := Step(w2, id, Halt(node));
    var w4 := Step(w3, id, Park(node, 2, false));
    StartedBesideParked(w4, id);
    LosesLater(w3, id, Park(node, 2, false));
    LosesLater(w2, id, Halt(node));
    LosesLater(w1, id, Write(node, []));
    LosesLater(asked, id, Start(node, []));
  }

  /**
   Starting by hand is not refused during a move. In any reachable world it keeps the bytes,
   whatever comes after, exactly if the instance is not being moved (or could never be parked).
   */
  lemma HandStartHarmlessIff(w: World, id: string)
    requires Inv(w, id)
    ensures AlwaysKept(Step(w, id, Ask(DesiredRunning)), id) <==> Unmoved(w, id)
  {
    if Unmoved(w, id) {
      StepKeepsInv(w, id, Ask(DesiredRunning));
      InvAlwaysKept(Step(w, id, Ask(DesiredRunning)), id);
    } else if w.held.row.diskParked {
      HandStartOfParkedLoses(w, id);
    } else {
      HandStartBeforeParkingLoses(w, id);
    }
  }

  // A release before parking.

  /** An uninterrupted drain, seen through to the start on the destination. */
  function Drained(w: World, id: string, source: string, target: string): World {
    var parked := Step(Step(w, id, Begin(source, 2)), id, Park(source, 2, true));
    var placed := Step(Step(Step(parked, id, Forget(source)), id, Release(source)), id, Assign(target));
    Step(Step(placed, id, Take(target, true, 3)), id, Start(target, []))
  }

  /** With no copy left behind the drain starts the destination from the source's bytes. */
  lemma CleanDrainArrives(w: World, id: string, source: string, target: string)
    requires Settled(w, source) && w.running == "" && SafeName(id) && |w.truth| <= MAX_PARKED_DISK_BYTES
    requires target != "" && target != source && w.disks == map[source := w.truth]
    ensures
      var end := Drained(w, id, source, target);
      && end.running == target && end.disks == map[target := w.truth] && end.held.file == None
      && Settled(end, target)
  {
  }

  /** Releasing before the disk is parked lets the source remove the only copy. */
  lemma UnparkedReleaseLoses(w: World, id: string, source: string, target: string)
    requires Settled(w, source) && w.disks == map[source := w.truth] && w.held.file == None
    requires target != "" && target != source
    ensures
      var w1 := Step(Step(w, id, Begin(source, 2)), id, Release(source));
      var w2 := Step(w1, id, Assign(target));
      && Allowed(w, id, Begin(source, 2)) && Allowed(w1, id, Assign(target)) && Allowed(w2, id, Collect(source))
      && Step(w2, id, Collect(source)).disks == map[] && Step(w2, id, Collect(source)).held.file == None
  {
  }

  /** The disk was renamed into place, the write of the flags was lost, and nothing has run since. */
  ghost predicate ParkedUnflagged(w: World, id: string) {
    w.held.row.migrating && SafeName(id) && w.running == "" && w.held.file == Some(w.truth)
  }

  /** Released in that corner: as long as no node that has the disk is assigned, nothing can happen to it. */
  ghost predicate Adrift(w: World, id: string) {
    var row := w.held.row;
    && row.migrating && row.desired.DesiredStopped? && !row.diskParked && SafeName(id)
    && w.running == "" && w.held.file == Some(w.truth) && w.handed == {} && "" !in w.disks
    && (forall n | n in w.disks :: w.disks[n] == w.truth)
    && row.node !in w.disks
    && (forall a, b | a in w.disks && b in w.disks :: a == b)
  }

  lemma AdriftSteps(w: World, id: string, e: Event)
    requires Adrift(w, id) && Allowed(w, id, e)
    ensures Adrift(Step(w, id, e), id) || Inv(Step(w, id, e), id)
  {
  }

  lemma {:induction false} AdriftKeeps(w: World, id: string, es: seq<Event>)
    requires (Adrift(w, id) || Inv(w, id)) && Run(w, id, es)
    ensures Kept(After(w, id, es)) && StartsRight(After(w, id, es), id)
    decreases |es|
  {
    if Inv(w, id) {
      RunKeepsInv(w, id, es);
    } else if es != [] {
      AdriftSteps(w, id, es[0]);
      AdriftKeeps(Step(w, id, es[0]), id, es[1..]);
    }
  }

  /** Nobody has the disk that is wanted running: someone starts it from an image. */
  lemma WantedElsewhereLoses(w: World, id: string)
    requires w.held.row.node == "" && Unmoved(w, id)
    ensures CanLose(w, id)
  {
    var asked := Step(w, id, Ask(DesiredRunning));
    var target := FreshName(w.disks.Keys + w.handed);
    var placed := Step(asked, id, Assign(target));
    assert Allowed(placed, id, Start(target, [])) && target !in placed.disks;
    LosesNow(placed, id);
    LosesLater(asked, id, Assign(target));
    LosesLater(w, id, Ask(DesiredRunning));
  }

  /** Still running where it was, it writes what is then neither parked nor anywhere it is assigned. */
  lemma ReleasedRunningLoses(w: World, id: string, node: string)
    requires w.held.row.node == "" && "" !in w.disks && node != "" && w.running == node
    ensures CanLose(w, id)
  {
    var bytes: Bytes := if w.held.file == Some([]) then [0] else [];
    LosesNow(Step(w, id, Write(node, bytes)), id);
    LosesLater(w, id, Write(node, bytes));
  }

  /**
   A release in any reachable world keeps the bytes, whatever comes after, exactly if the disk is
   parked, or is in place as the parked file with only the flags not written.
   */
  lemma ReleaseHarmlessIff(w: World, id: string, node: string)
    requires Inv(w, id) && w.held.row.node == node != ""
    ensures AlwaysKept(Step(w, id, Release(node)), id) <==> w.held.row.diskParked || ParkedUnflagged(w, id)
  {
    var released := Step(w, id, Release(node));
    if w.held.row.diskParked {
      StepKeepsInv(w, id, Release(node));
      InvAlwaysKept(released, id);
    } else if ParkedUnflagged(w, id) {
      assert Adrift(released, id);
      forall es: seq<Event> | Run(released, id, es)
        ensures Kept(After(released, id, es)) && StartsRight(After(released, id, es), id)
      {
        AdriftKeeps(released, id, es);
      }
    } else if w.held.file != Some(w.truth) {
      LosesNow(released, id);
    } else if w.running != "" {
      ReleasedRunningLoses(released, id, node);
    } else {
      WantedElsewhereLoses(released, id);
    }
  }
}

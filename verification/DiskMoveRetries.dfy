/** Whether retries alone finish a move whose begin or landing was cut half way. */
module DiskMoveRetries {
  import opened DiskMove
  import opened DiskMoveLimits

  // ----- a call cut half way -----

  /** The rows a drain of `node` looks at: those wanted running or already being moved. */
  ghost predicate Listed(row: Row, node: string) {
    row.node == node && (row.desired.DesiredRunning? || row.migrating)
  }

  /**
   What happens without anybody's help: a drain begins only moves of rows it lists, a node takes
   only what is parked, and nobody asks for another state.
   */
  ghost predicate Unaided(w: World, id: string, e: Event) {
    && Allowed(w, id, e)
    && (e.Begin? ==> Listed(w.held.row, e.node))
    && (e.Take? ==> w.held.row.diskParked)
    && !e.Ask?
  }

  ghost predicate UnaidedRun(w: World, id: string, es: seq<Event>)
    decreases |es|
  {
    es == [] || (Unaided(w, id, es[0]) && UnaidedRun(Step(w, id, es[0]), id, es[1..]))
  }

  /** The instance is placed and wanted running. */
  ghost predicate Startable(w: World) {
    w.held.row.node != "" && w.held.row.desired.DesiredRunning?
  }

  /** Retries alone can get the instance to where it is started. */
  ghost predicate Recovers(w: World, id: string) {
    exists es: seq<Event> :: UnaidedRun(w, id, es) && Startable(After(w, id, es))
  }

  lemma RecoversNow(w: World, id: string)
    requires Startable(w)
    ensures Recovers(w, id)
  {
    assert UnaidedRun(w, id, []) && After(w, id, []) == w;
  }

  lemma RecoversLater(w: World, id: string, e: Event)
    requires Unaided(w, id, e) && Recovers(Step(w, id, e), id)
    ensures Recovers(w, id)
  {
    var next := Step(w, id, e);
    var es: seq<Event> :| UnaidedRun(next, id, es) && Startable(After(next, id, es));
    assert ([e] + es)[1..] == es;
    assert UnaidedRun(w, id, [e] + es) && After(w, id, [e] + es) == After(next, id, es);
  }

  /** Stopped and not being moved: no drain lists the row, and every landing is a no-op. */
  ghost predicate LeftStopped(w: World) {
    w.held.row.desired.DesiredStopped? && !w.held.row.migrating && !w.held.row.diskParked
  }

  /** Being moved under a name that nothing can be parked under. */
  ghost predicate LeftUnparked(w: World, id: string) {
    var row := w.held.row;
    row.desired.DesiredStopped? && row.migrating && !row.diskParked && row.node != "" && !SafeName(id)
  }

  lemma {:induction false} LeftForGood(w: World, id: string, es: seq<Event>)
    requires UnaidedRun(w, id, es) && (LeftStopped(w) || LeftUnparked(w, id))
    ensures !Startable(After(w, id, es))
    decreases |es|
  {
    if es != [] {
      LeftForGood(Step(w, id, es[0]), id, es[1..]);
    }
  }

  /** Being moved, not running, with a disk too large to park. */
  ghost predicate TooLarge(w: World) {
    var row := w.held.row;
    && row.desired.DesiredStopped? && row.migrating && !row.diskParked && row.node != "" && w.running == ""
    && (row.node in w.disks ==> |w.disks[row.node]| > MAX_PARKED_DISK_BYTES)
  }

  /** It stays where it is unless someone starts it once more, on an old list, and it then writes less. */
  lemma {:induction false} TooLargeStays(w: World, id: string, es: seq<Event>)
    requires UnaidedRun(w, id, es) && TooLarge(w) && forall i | 0 <= i < |es| :: !es[i].Start?
    ensures !Startable(After(w, id, es)) && TooLarge(After(w, id, es))
    decreases |es|
  {
    if es != [] {
      TooLargeStays(Step(w, id, es[0]), id, es[1..]);
    }
  }

  lemma StoppedMoveArrives(w: World, id: string)
    requires w.held.row.migrating && !w.held.row.diskParked && SafeName(id) && w.running == ""
    requires w.held.row.node != "" && w.held.row.node !in w.handed
    requires w.held.row.node in w.disks && |w.disks[w.held.row.node]| <= MAX_PARKED_DISK_BYTES
    ensures Recovers(w, id)
  {
    var node := w.held.row.node;
    var target := FreshName(w.disks.Keys + w.handed + {node});
    var w1 := Step(w, id, Park(node, 2, false));
    var w2 := Step(w1, id, Release(node));
    var w3 := Step(w2, id, Assign(target));
    RecoversNow(Step(w3, id, Take(target, true, 3)), id);
    RecoversLater(w3, id, Take(target, true, 3));
    RecoversLater(w2, id, Assign(target));
    RecoversLater(w1, id, Release(node));
    RecoversLater(w, id, Park(node, 2, false));
  }

  /** Whatever the disk holds: the instance may run, or be started once more on an old list, and write less. */
  lemma MoveArrives(w: World, id: string)
    requires w.held.row.migrating && !w.held.row.diskParked && SafeName(id)
    requires w.held.row.node != "" && w.held.row.node !in w.handed && w.held.row.node in w.disks
    ensures Recovers(w, id)
  {
    var node := w.held.row.node;
    var w1 := Step(w, id, Start(node, []));
    var w2 := Step(w1, id, Write(node, []));
    var w3 := Step(w2, id, Halt(node));
    StoppedMoveArrives(w3, id);
    RecoversLater(w2, id, Halt(node));
    RecoversLater(w1, id, Write(node, []));
    RecoversLater(w, id, Start(node, []));
  }

  /**
   A begin cut after any number of its writes: retries can get the instance running again exactly
   if nothing was written, or all was and the disk can be parked under its name. Cut after the
   first write it stays stopped, because no drain lists it any more.
   */
  lemma CutBeginRecoversIff(w: World, id: string, node: string, writes: nat)
    requires Inv(w, id) && Listed(w.held.row, node) && !w.held.row.migrating
    ensures Recovers(Step(w, id, Begin(node, writes)), id) <==> writes == 0 || (writes >= 2 && SafeName(id))
  {
    var cut := Step(w, id, Begin(node, writes));
    if writes == 0 {
      RecoversNow(cut, id);
    } else if writes == 1 || !SafeName(id) {
      forall es: seq<Event> | UnaidedRun(cut, id, es) ensures !Startable(After(cut, id, es)) {
        LeftForGood(cut, id, es);
      }
    } else {
      MoveArrives(cut, id);
    }
  }

  /**
   A landing cut after any number of its writes: retries get the instance running exactly unless
   it was cut after the first, where it stays stopped and every repeated landing is a no-op.
   */
  lemma CutLandingRecoversIff(w: World, id: string, node: string, writes: nat)
    requires Inv(w, id) && w.held.row.diskParked && w.held.row.node == node && Unaided(w, id, Take(node, true, writes))
    requires node in w.disks || node != w.held.row.diskFrom
    ensures Recovers(Step(w, id, Take(node, true, writes)), id) <==> writes != 1
  {
    var cut := Step(w, id, Take(node, true, writes));
    if writes == 0 {
      RecoversNow(Step(cut, id, Take(node, true, 2)), id);
      RecoversLater(cut, id, Take(node, true, 2));
    } else if writes == 1 {
      forall es: seq<Event> | UnaidedRun(cut, id, es) ensures !Startable(After(cut, id, es)) {
        LeftForGood(cut, id, es);
      }
    } else {
      RecoversNow(cut, id);
    }
  }
}

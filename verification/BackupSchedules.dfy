/** Scheduled backups and how many of them are kept (internal/platform/backup/service.go). */
module BackupSchedules {
  import opened Basics
  import opened BackupState
  import opened Newest

  /** `schedule` is empty for a copy made by hand. */
  datatype Copy = Copy(id: string, schedule: string, volume: string, state: State)

  datatype Schedule = Schedule(id: string, volume: string, keep: nat, every: nat, nextAt: int)

  /** `copies` in stored order, oldest first; `schedules` by volume, at most one each. */
  datatype World = World(copies: seq<Copy>, schedules: map<string, Schedule>)

  function ReadyOf(schedule: string): Copy -> bool {
    (c: Copy) => c.schedule == schedule && c.state == Ready
  }

  function PendingOf(schedule: string): Copy -> bool {
    (c: Copy) => c.schedule == schedule && c.state == Pending
  }

  function PendingFor(volume: string): Copy -> bool {
    (c: Copy) => c.volume == volume && c.state == Pending
  }

  function IdOf(c: Copy): string {
    c.id
  }

  /** The copies without those of the given ids. */
  function Except(copies: seq<Copy>, gone: set<string>): seq<Copy> {
    if copies == [] then []
    else
      var last := copies[|copies| - 1];
      var rest := Except(copies[..|copies| - 1], gone);
      if last.id in gone then rest else rest + [last]
  }

  /** The schedule with this id, if there is one. */
  ghost predicate HasSchedule(schedules: map<string, Schedule>, sc: Schedule) {
    sc.volume in schedules && schedules[sc.volume] == sc
  }

  // ----- the calls -----

  function Retained(copies: seq<Copy>, sc: Schedule): seq<Copy> {
    KeepNewest(copies, ReadyOf(sc.id), sc.keep)
  }

  function Marked(copies: seq<Copy>, i: nat, state: State): seq<Copy>
    requires i < |copies|
  {
    copies[i := copies[i].(state := state)]
  }

  /** A copy that lands is ready; if a schedule made it and still exists, that schedule retains. */
  function Landed(w: World, id: string, sc: Option<Schedule>): World {
    var i := PlaceOf(w.copies, IdOf, id);
    if i == |w.copies| || w.copies[i].state == Ready then w
    else
      var copies := Marked(w.copies, i, Ready);
      w.(copies := if sc.Some? then Retained(copies, sc.value) else copies)
  }

  /** There is no guard on the state: a ready copy fails too. */
  function FailedCopy(w: World, id: string): World {
    var i := PlaceOf(w.copies, IdOf, id);
    if i == |w.copies| then w else w.(copies := Marked(w.copies, i, Failed))
  }

  function RemovedCopy(w: World, id: string): World {
    w.(copies := Except(w.copies, {id}))
  }

  function Moved(w: World, sc: Schedule): World {
    w.(schedules := w.schedules[sc.volume := sc])
  }

  /** A due schedule moves on, makes a copy unless one of its volume is pending, and retains. */
  function Fired(w: World, sc: Schedule, now: int, made: Option<string>): World {
    Moved(FiredFrom(w, sc, made), sc.(nextAt := now + sc.every))
  }

  function FiredFrom(w: World, sc: Schedule, made: Option<string>): World {
    var copies :=
      if CountOf(w.copies, PendingFor(sc.volume)) == 0 && made.Some?
        then w.copies + [Copy(made.value, sc.id, sc.volume, Pending)]
      else w.copies;
    w.(copies := Retained(copies, sc))
  }

  datatype Call =
    | Create(id: string, volume: string)
    | Land(id: string)
    | Fail(id: string)
    | Remove(id: string)
    | SetSchedule(newId: string, volume: string, every: nat, keep: nat, now: int)
    | RemoveSchedule(volume: string)
    | Fire(volume: string, now: int, made: Option<string>)

  /** The schedule that made the copy, if it still exists. */
  ghost function MakerOf(w: World, id: string): (sc: Option<Schedule>) {
    var i := PlaceOf(w.copies, IdOf, id);
    if i < |w.copies| && w.copies[i].schedule != "" then ById(w, w.copies[i].schedule) else None
  }

  ghost function ById(w: World, id: string): (sc: Option<Schedule>)
    ensures sc.Some? ==> HasSchedule(w.schedules, sc.value) && sc.value.id == id
    ensures sc.None? ==> forall s | HasSchedule(w.schedules, s) :: s.id != id
  {
    if exists s :: HasSchedule(w.schedules, s) && s.id == id then
      var s :| HasSchedule(w.schedules, s) && s.id == id; Some(s)
    else None
  }

  ghost function Called(w: World, c: Call): World {
    match c
    case Create(id, volume) => w.(copies := w.copies + [Copy(id, "", volume, Pending)])
    case Land(id) => Landed(w, id, MakerOf(w, id))
    case Fail(id) => FailedCopy(w, id)
    case Remove(id) => RemovedCopy(w, id)
    case SetSchedule(newId, volume, every, keep, now) =>
      var id := if volume in w.schedules then w.schedules[volume].id else newId;
      Moved(w, Schedule(id, volume, keep, every, now + every))
    case RemoveSchedule(volume) => w.(schedules := w.schedules - {volume})
    case Fire(volume, now, made) =>
      if volume in w.schedules && w.schedules[volume].nextAt <= now then Fired(w, w.schedules[volume], now, made) else w
  }

  // ----- what every call keeps -----

  ghost predicate DistinctIds(copies: seq<Copy>) {
    forall i, j | 0 <= i < j < |copies| :: copies[i].id != copies[j].id
  }

  /** One schedule per volume, each under its own id; copies of a schedule are of its volume. */
  ghost predicate Kept(schedules: map<string, Schedule>, copies: seq<Copy>) {
    && (forall volume | volume in schedules :: schedules[volume].volume == volume && schedules[volume].id != "")
    && (forall a, b | HasSchedule(schedules, a) && HasSchedule(schedules, b) && a.id == b.id :: a == b)
    && (forall sc, i | HasSchedule(schedules, sc) && 0 <= i < |copies| && copies[i].schedule == sc.id ::
      copies[i].volume == sc.volume)
  }

  ghost predicate Within(copies: seq<Copy>, sc: Schedule) {
    CountOf(copies, ReadyOf(sc.id)) <= sc.keep && CountOf(copies, PendingOf(sc.id)) <= 1
  }

  ghost predicate AllWithin(schedules: map<string, Schedule>, copies: seq<Copy>) {
    forall sc | HasSchedule(schedules, sc) :: Within(copies, sc)
  }

  ghost predicate Inv(w: World) {
    DistinctIds(w.copies) && Kept(w.schedules, w.copies) && AllWithin(w.schedules, w.copies)
  }

  ghost predicate Unused(w: World, id: string) {
    forall i | 0 <= i < |w.copies| :: w.copies[i].id != id
  }

  /** Ids are new, and a schedule's keep is not lowered. */
  ghost predicate Permitted(w: World, c: Call) {
    match c
    case Create(id, _) => Unused(w, id)
    case Fire(_, _, made) => made.Some? ==> Unused(w, made.value)
    case SetSchedule(newId, volume, _, keep, _) =>
      if volume in w.schedules then w.schedules[volume].keep <= keep
      else
        && newId != ""
        && (forall sc | HasSchedule(w.schedules, sc) :: sc.id != newId)
        && (forall i | 0 <= i < |w.copies| :: w.copies[i].schedule != newId)
    case _ => true
  }

  // ----- copies change, schedules stand -----

  /** Each copy stems from one there was before, in order, or is a new one at the end. */
  ghost predicate Stems(copies: seq<Copy>, now: seq<Copy>, at: seq<nat>) {
    && |at| == |now|
    && (forall k | 0 <= k < |now| :: at[k] < |copies| && now[k] == copies[at[k]].(state := now[k].state))
    && (forall k, l | 0 <= k < l < |now| :: at[k] < at[l])
  }

  lemma StemsKeep(w: World, copies: seq<Copy>, at: seq<nat>)
    requires DistinctIds(w.copies) && Kept(w.schedules, w.copies) && Stems(w.copies, copies, at)
    ensures DistinctIds(copies) && Kept(w.schedules, copies)
  {
  }

  lemma RetainStems(copies: seq<Copy>, sc: Schedule) returns (at: seq<nat>)
    ensures Stems(copies, Retained(copies, sc), at)
  {
    at := IsSubsequence(copies, ReadyOf(sc.id), sc.keep);
  }

  /** Retaining brings a schedule within its keep, and no other past its own. */
  lemma RetainWithin(copies: seq<Copy>, sc: Schedule, other: Schedule)
    ensures CountOf(Retained(copies, sc), ReadyOf(sc.id)) <= sc.keep
    ensures CountOf(Retained(copies, sc), PendingOf(sc.id)) <= CountOf(copies, PendingOf(sc.id))
    ensures Within(copies, other) ==> Within(Retained(copies, sc), other)
  {
    CountOfKept(copies, ReadyOf(sc.id), sc.keep);
    CountAfterwards(copies, ReadyOf(sc.id), sc.keep, PendingOf(sc.id));
    CountAfterwards(copies, ReadyOf(sc.id), sc.keep, ReadyOf(other.id));
    CountAfterwards(copies, ReadyOf(sc.id), sc.keep, PendingOf(other.id));
  }

  lemma RetainKeepsInv(w: World, sc: Schedule)
    requires DistinctIds(w.copies) && Kept(w.schedules, w.copies)
    requires forall other | HasSchedule(w.schedules, other) && other.id != sc.id :: Within(w.copies, other)
    requires forall other | HasSchedule(w.schedules, other) && other.id == sc.id :: other.keep == sc.keep
    requires CountOf(w.copies, PendingOf(sc.id)) <= 1
    ensures Inv(w.(copies := Retained(w.copies, sc)))
  {
    var at := RetainStems(w.copies, sc);
    StemsKeep(w, Retained(w.copies, sc), at);
    forall other | HasSchedule(w.schedules, other) ensures Within(Retained(w.copies, sc), other) {
      RetainWithin(w.copies, sc, other);
    }
  }

  /** Nothing becomes pending, and nothing of this schedule becomes ready. */
  lemma SettleWithin(copies: seq<Copy>, now: seq<Copy>, sc: Schedule)
    requires Within(copies, sc) && |now| == |copies|
    requires forall i | 0 <= i < |copies| :: PendingOf(sc.id)(now[i]) ==> PendingOf(sc.id)(copies[i])
    requires forall i | 0 <= i < |copies| :: ReadyOf(sc.id)(now[i]) ==> ReadyOf(sc.id)(copies[i])
    ensures Within(now, sc)
  {
    CountPointwise(copies, now, PendingOf(sc.id));
    CountPointwise(copies, now, ReadyOf(sc.id));
  }

  lemma MarkedStems(copies: seq<Copy>, i: nat, state: State)
    requires i < |copies|
    ensures Stems(copies, Marked(copies, i, state), seq(|copies|, k requires k >= 0 => k))
  {
  }

  lemma FailKeepsInv(w: World, id: string)
    requires Inv(w)
    ensures Inv(FailedCopy(w, id))
  {
    var i := PlaceOf(w.copies, IdOf, id);
    if i < |w.copies| {
      var now := Marked(w.copies, i, Failed);
      MarkedStems(w.copies, i, Failed);
      StemsKeep(w, now, seq(|w.copies|, k requires k >= 0 => k));
      forall sc | HasSchedule(w.schedules, sc) ensures Within(now, sc) {
        SettleWithin(w.copies, now, sc);
      }
    }
  }

  lemma LandKeepsInv(w: World, id: string)
    requires Inv(w)
    ensures Inv(Landed(w, id, MakerOf(w, id)))
  {
    var i := PlaceOf(w.copies, IdOf, id);
    if i < |w.copies| && w.copies[i].state != Ready {
      var now := Marked(w.copies, i, Ready);
      var maker := MakerOf(w, id);
      MarkedStems(w.copies, i, Ready);
      StemsKeep(w, now, seq(|w.copies|, k requires k >= 0 => k));
      var mid := w.(copies := now);
      forall sc | HasSchedule(w.schedules, sc) && sc.id != w.copies[i].schedule ensures Within(now, sc) {
        SettleWithin(w.copies, now, sc);
      }
      if maker.Some? {
        CountPointwise(w.copies, now, PendingOf(maker.value.id));
        RetainKeepsInv(mid, maker.value);
      } else {
        assert forall sc | HasSchedule(w.schedules, sc) :: sc.id != w.copies[i].schedule;
      }
    }
  }

  lemma {:induction false} ExceptStems(copies: seq<Copy>, gone: set<string>) returns (at: seq<nat>)
    ensures Subsequence(Except(copies, gone), copies, at)
    decreases |copies|
  {
    if copies == [] {
      return [];
    }
    var older, last := copies[..|copies| - 1], copies[|copies| - 1];
    at := ExceptStems(older, gone);
    SubsequenceOneMore(Except(older, gone), older, at, last);
    assert older + [last] == copies;
    at := if last.id in gone then at else at + [|older|];
  }

  lemma {:induction false} CountExcept(copies: seq<Copy>, gone: set<string>, p: Copy -> bool)
    ensures CountOf(Except(copies, gone), p) <= CountOf(copies, p)
    decreases |copies|
  {
    if copies != [] {
      CountExcept(copies[..|copies| - 1], gone, p);
      CountOneMore(Except(copies[..|copies| - 1], gone), copies[|copies| - 1], p);
    }
  }

  lemma RemoveKeepsInv(w: World, id: string)
    requires Inv(w)
    ensures Inv(RemovedCopy(w, id))
  {
    var now := Except(w.copies, {id});
    var at := ExceptStems(w.copies, {id});
    StemsKeep(w, now, at);
    forall sc | HasSchedule(w.schedules, sc) ensures Within(now, sc) {
      CountExcept(w.copies, {id}, ReadyOf(sc.id));
      CountExcept(w.copies, {id}, PendingOf(sc.id));
    }
  }

  lemma AppendKeepsIds(copies: seq<Copy>, c: Copy)
    requires DistinctIds(copies) && forall i | 0 <= i < |copies| :: copies[i].id != c.id
    ensures DistinctIds(copies + [c])
  {
  }

  lemma CreateKeepsInv(w: World, id: string, volume: string)
    requires Inv(w) && Unused(w, id)
    ensures Inv(w.(copies := w.copies + [Copy(id, "", volume, Pending)]))
  {
    var c := Copy(id, "", volume, Pending);
    AppendKeepsIds(w.copies, c);
    forall sc | HasSchedule(w.schedules, sc) ensures Within(w.copies + [c], sc) {
      assert sc.id != "";
      CountOneMore(w.copies, c, ReadyOf(sc.id));
      CountOneMore(w.copies, c, PendingOf(sc.id));
    }
  }

  /** A schedule whose volume has nothing pending has nothing pending of its own. */
  lemma NonePending(w: World, sc: Schedule)
    requires Kept(w.schedules, w.copies) && HasSchedule(w.schedules, sc)
      && CountOf(w.copies, PendingFor(sc.volume)) == 0
    ensures CountOf(w.copies, PendingOf(sc.id)) == 0
  {
    CountMonotone(w.copies, PendingOf(sc.id), PendingFor(sc.volume));
  }

  /** A schedule's own settings change, its id and volume stand and its keep does not fall. */
  lemma ResetKeepsInv(w: World, sc: Schedule)
    requires Inv(w) && sc.volume in w.schedules && w.schedules[sc.volume].id == sc.id
      && w.schedules[sc.volume].keep <= sc.keep
    ensures Inv(Moved(w, sc))
  {
    var was, now := w.schedules[sc.volume], Moved(w, sc);
    assert HasSchedule(w.schedules, was) && Within(w.copies, was);
    assert forall other ::
      HasSchedule(now.schedules, other) <==>
        other == sc || (other.volume != sc.volume && HasSchedule(w.schedules, other));
  }

  lemma FireAppends(w: World, sc: Schedule, id: string)
    requires Inv(w) && HasSchedule(w.schedules, sc) && Unused(w, id) && CountOf(w.copies, PendingFor(sc.volume)) == 0
    ensures Inv(w.(copies := Retained(w.copies + [Copy(id, sc.id, sc.volume, Pending)], sc)))
  {
    var c := Copy(id, sc.id, sc.volume, Pending);
    NonePending(w, sc);
    AppendKeepsIds(w.copies, c);
    AppendKeepsKept(w, c, sc);
    var after := w.(copies := w.copies + [c]);
    forall other | HasSchedule(after.schedules, other) && other.id != sc.id ensures Within(after.copies, other) {
      assert HasSchedule(w.schedules, other);
      CountOneMore(w.copies, c, ReadyOf(other.id));
      CountOneMore(w.copies, c, PendingOf(other.id));
    }
    CountOneMore(w.copies, c, PendingOf(sc.id));
    RetainKeepsInv(after, sc);
  }

  lemma FiredFromKeepsInv(w: World, sc: Schedule, made: Option<string>)
    requires Inv(w) && HasSchedule(w.schedules, sc) && (made.Some? ==> Unused(w, made.value))
    ensures Inv(FiredFrom(w, sc, made))
  {
    if CountOf(w.copies, PendingFor(sc.volume)) == 0 && made.Some? {
      FireAppends(w, sc, made.value);
    } else {
      RetainAgain(w, sc);
    }
  }

  lemma MoveKeepsInv(w: World, sc: Schedule, nextAt: int)
    requires Inv(w) && HasSchedule(w.schedules, sc)
    ensures Inv(Moved(w, sc.(nextAt := nextAt)))
  {
    ResetKeepsInv(w, sc.(nextAt := nextAt));
  }

  lemma FireKeepsInv(w: World, sc: Schedule, now: int, made: Option<string>)
    requires Inv(w) && HasSchedule(w.schedules, sc) && (made.Some? ==> Unused(w, made.value))
    ensures Inv(Fired(w, sc, now, made))
  {
    FiredFromKeepsInv(w, sc, made);
    MovedAfter(w, FiredFrom(w, sc, made), sc, now);
    assert Fired(w, sc, now, made) == Moved(FiredFrom(w, sc, made), sc.(nextAt := now + sc.every));
  }

  lemma MovedAfter(w: World, after: World, sc: Schedule, now: int)
    requires Inv(after) && HasSchedule(w.schedules, sc) && after.schedules == w.schedules
    ensures Inv(Moved(after, sc.(nextAt := now + sc.every)))
  {
    MoveKeepsInv(after, sc, now + sc.every);
  }

  lemma RetainAgain(w: World, sc: Schedule)
    requires Inv(w) && HasSchedule(w.schedules, sc)
    ensures Inv(w.(copies := Retained(w.copies, sc)))
  {
    RetainKeepsInv(w, sc);
  }

  lemma AppendKeepsKept(w: World, c: Copy, sc: Schedule)
    requires Kept(w.schedules, w.copies) && HasSchedule(w.schedules, sc) && c.schedule == sc.id && c.volume == sc.volume
    ensures Kept(w.schedules, w.copies + [c])
  {
  }

  lemma SetScheduleKeepsInv(w: World, sc: Schedule)
    requires Inv(w) && sc.volume !in w.schedules && sc.id != ""
    requires forall other | HasSchedule(w.schedules, other) :: other.id != sc.id
    requires forall i | 0 <= i < |w.copies| :: w.copies[i].schedule != sc.id
    ensures Inv(Moved(w, sc))
  {
    var now := Moved(w, sc);
    CountNone(w.copies, ReadyOf(sc.id));
    CountNone(w.copies, PendingOf(sc.id));
    assert forall other :: HasSchedule(now.schedules, other) <==> other == sc || HasSchedule(w.schedules, other);
  }

  lemma CallKeepsInv(w: World, c: Call)
    requires Inv(w) && Permitted(w, c)
    ensures Inv(Called(w, c))
  {
    match c
    case Create(id, volume) => CreateKeepsInv(w, id, volume);
    case Land(id) => LandKeepsInv(w, id);
    case Fail(id) => FailKeepsInv(w, id);
    case Remove(id) => RemoveKeepsInv(w, id);
    case SetSchedule(newId, volume, every, keep, now) =>
      var sc := Called(w, c).schedules[volume];
      if volume in w.schedules {
        ResetKeepsInv(w, sc);
      } else {
        SetScheduleKeepsInv(w, sc);
      }
    case RemoveSchedule(volume) =>
      assert forall sc :: HasSchedule(Called(w, c).schedules, sc) ==> HasSchedule(w.schedules, sc);
    case Fire(volume, now, made) =>
      if volume in w.schedules {
        FireKeepsInv(w, w.schedules[volume], now, made);
      }
  }

  ghost function RunCalls(calls: seq<Call>): World
    decreases |calls|
  {
    if calls == [] then World([], map[]) else Called(RunCalls(calls[..|calls| - 1]), calls[|calls| - 1])
  }

  ghost predicate AllPermitted(calls: seq<Call>)
    decreases |calls|
  {
    calls == [] || (AllPermitted(calls[..|calls| - 1]) && Permitted(RunCalls(calls[..|calls| - 1]), calls[|calls| - 1]))
  }

  /** After every run, each schedule has at most `keep` ready copies and at most one pending. */
  lemma {:induction false} SchedulesStayWithin(calls: seq<Call>)
    requires AllPermitted(calls)
    ensures Inv(RunCalls(calls))
    ensures forall sc | HasSchedule(RunCalls(calls).schedules, sc) :: Within(RunCalls(calls).copies, sc)
    decreases |calls|
  {
    if calls != [] {
      SchedulesStayWithin(calls[..|calls| - 1]);
      CallKeepsInv(RunCalls(calls[..|calls| - 1]), calls[|calls| - 1]);
    }
  }

  ghost predicate FiresAt(calls: seq<Call>, k: nat, volume: string)
    requires k < |calls|
  {
    && calls[k].Fire? && calls[k].volume == volume
    && volume in RunCalls(calls[..k]).schedules && RunCalls(calls[..k]).schedules[volume].nextAt <= calls[k].now
  }

  /** The schedule is the same but for its next time, which is not before `at`. */
  ghost predicate NotBefore(w: World, sc: Schedule, at: int) {
    sc.volume in w.schedules && w.schedules[sc.volume] == sc.(nextAt := w.schedules[sc.volume].nextAt)
      && w.schedules[sc.volume].nextAt >= at
  }

  /** The schedule is neither set anew nor removed. */
  ghost predicate LeavesAlone(c: Call, volume: string) {
    !((c.SetSchedule? || c.RemoveSchedule?) && c.volume == volume)
  }

  lemma CallKeepsNext(w: World, c: Call, sc: Schedule, at: int)
    requires NotBefore(w, sc, at) && LeavesAlone(c, sc.volume) && Kept(w.schedules, w.copies)
    ensures NotBefore(Called(w, c), sc, at)
  {
  }

  /** One call after another: what the first `k` calls leave, and that they are permitted. */
  lemma OneMoreCall(calls: seq<Call>, k: nat)
    requires 0 < k <= |calls| && AllPermitted(calls[..k])
    ensures AllPermitted(calls[..k - 1])
    ensures RunCalls(calls[..k]) == Called(RunCalls(calls[..k - 1]), calls[k - 1])
  {
    assert calls[..k][..k - 1] == calls[..k - 1];
  }

  lemma KeptThroughout(calls: seq<Call>, k: nat)
    requires k <= |calls| && AllPermitted(calls[..k])
    ensures Kept(RunCalls(calls[..k]).schedules, RunCalls(calls[..k]).copies)
  {
    SchedulesStayWithin(calls[..k]);
  }

  lemma {:induction false} NextStands(calls: seq<Call>, volume: string, i: nat, k: nat)
    requires i < k <= |calls| && AllPermitted(calls[..k]) && FiresAt(calls, i, volume)
    requires forall m | i < m < k :: LeavesAlone(calls[m], volume)
    ensures
      var sc := RunCalls(calls[..i]).schedules[volume];
      sc.volume == volume && NotBefore(RunCalls(calls[..k]), sc, calls[i].now + sc.every)
  {
    var sc, before := RunCalls(calls[..i]).schedules[volume], RunCalls(calls[..k - 1]);
    assert AllPermitted(calls[..k - 1]) && RunCalls(calls[..k]) == Called(before, calls[k - 1]) by {
      OneMoreCall(calls, k);
    }
    assert Kept(before.schedules, before.copies) by {
      KeptThroughout(calls, k - 1);
    }
    if k == i + 1 {
      FiredNotBefore(before, calls[i], sc);
    } else {
      assert sc.volume == volume && NotBefore(before, sc, calls[i].now + sc.every) by {
        NextStands(calls, volume, i, k - 1);
      }
      assert LeavesAlone(calls[k - 1], volume);
      CallKeepsNext(before, calls[k - 1], sc, calls[i].now + sc.every);
    }
  }

  lemma FiredNotBefore(w: World, c: Call, sc: Schedule)
    requires Kept(w.schedules, w.copies) && c.Fire? && c.volume in w.schedules && w.schedules[c.volume] == sc
    requires sc.nextAt <= c.now
    ensures sc.volume == c.volume && NotBefore(Called(w, c), sc, c.now + sc.every)
  {
  }

  /** Two firings of a schedule that is not changed in between are at least its interval apart. */
  lemma FiringsAreSpaced(calls: seq<Call>, volume: string, i: nat, j: nat)
    requires i < j < |calls| && AllPermitted(calls[..j]) && FiresAt(calls, i, volume) && FiresAt(calls, j, volume)
    requires forall m | i < m < j :: LeavesAlone(calls[m], volume)
    ensures calls[j].now - calls[i].now >= RunCalls(calls[..i]).schedules[volume].every
  {
    NextStands(calls, volume, i, j);
  }

  /**
   Retention deletes a copy exactly if the schedule made it, it is ready, and at least `keep` newer
   ready copies of the same schedule are there. What stays keeps its order.
   */
  lemma RetainDeletesIff(copies: seq<Copy>, sc: Schedule, i: nat) returns (at: seq<nat>)
    requires DistinctIds(copies) && i < |copies|
    ensures copies[i] !in Retained(copies, sc) <==>
      copies[i].schedule == sc.id && copies[i].state == Ready && CountOf(copies[i + 1..], ReadyOf(sc.id)) >= sc.keep
    ensures Subsequence(Retained(copies, sc), copies, at)
  {
    KeepsIff(copies, ReadyOf(sc.id), sc.keep, i);
    at := IsSubsequence(copies, ReadyOf(sc.id), sc.keep);
  }

  // ----- what each call comes to -----

  /**
   A look at a schedule moves its next time by the interval exactly if it is due; and then exactly one
   pending copy of its volume is made if none is pending. Nothing else is made, and as long as its keep
   is not lowered nothing goes: pruning is left to copies that land.
   */
  lemma FireMakesOneIff(w: World, volume: string, now: int, made: Option<string>)
    requires Inv(w) && Permitted(w, Fire(volume, now, made))
    ensures
      var after := Called(w, Fire(volume, now, made));
      if volume !in w.schedules || now < w.schedules[volume].nextAt then after == w
      else
        var sc := w.schedules[volume];
        && after.schedules == w.schedules[volume := sc.(nextAt := now + sc.every)]
        && after.copies ==
           if made.Some? && NothingPending(w, volume) then w.copies + [Copy(made.value, sc.id, volume, Pending)]
           else w.copies
  {
    if volume in w.schedules {
      var sc := w.schedules[volume];
      assert HasSchedule(w.schedules, sc) && sc.volume == volume && Within(w.copies, sc);
      FiredAddsOne(w, sc, made);
    }
  }

  /** Within its keep a schedule that fires prunes nothing. */
  lemma FiredAddsOne(w: World, sc: Schedule, made: Option<string>)
    requires CountOf(w.copies, ReadyOf(sc.id)) <= sc.keep
    ensures FiredFrom(w, sc, made).schedules == w.schedules
    ensures FiredFrom(w, sc, made).copies ==
      if made.Some? && NothingPending(w, sc.volume) then w.copies + [Copy(made.value, sc.id, sc.volume, Pending)]
      else w.copies
  {
    CountZeroIff(w.copies, PendingFor(sc.volume));
    KeepsAll(w.copies, ReadyOf(sc.id), sc.keep);
    if made.Some? {
      var c := Copy(made.value, sc.id, sc.volume, Pending);
      CountOneMore(w.copies, c, ReadyOf(sc.id));
      KeepsAll(w.copies + [c], ReadyOf(sc.id), sc.keep);
    }
  }

  ghost predicate NothingPending(w: World, volume: string) {
    forall c | c in w.copies :: c.volume != volume || c.state != Pending
  }

  /**
   A copy that lands is ready, unless it was; and then a copy goes exactly if the schedule that made the
   landed one still exists, made it too, and has `keep` ready ones newer than it.
   */
  lemma LandTakesIff(w: World, id: string, i: nat, j: nat)
    requires Inv(w) && i < |w.copies| && w.copies[i].id == id && w.copies[i].state != Ready && j < |w.copies|
    ensures
      var after, marked := Called(w, Land(id)), w.copies[i := w.copies[i].(state := Ready)];
      var maker := MakerOf(w, id);
      && after.schedules == w.schedules
      && (maker.Some? <==> exists sc :: HasSchedule(w.schedules, sc) && sc.id == w.copies[i].schedule)
      && (maker.Some? ==> maker.value.id == w.copies[i].schedule)
      && (marked[j] !in after.copies <==>
        && maker.Some? && marked[j].schedule == maker.value.id && marked[j].state == Ready
        && CountOf(marked[j + 1..], ReadyOf(maker.value.id)) >= maker.value.keep)
  {
    assert PlaceOf(w.copies, IdOf, id) == i;
    var marked, maker := Marked(w.copies, i, Ready), MakerOf(w, id);
    MarkedStems(w.copies, i, Ready);
    StemsKeep(w, marked, seq(|w.copies|, k requires k >= 0 => k));
    if maker.Some? {
      var at := RetainDeletesIff(marked, maker.value, j);
    }
  }

  /** A failure leaves the copy failed, ready or not; a removal leaves it gone; all others stand, in order. */
  lemma FailAndRemoveTouchOne(w: World, id: string, c: Copy) returns (at: seq<nat>)
    requires Inv(w)
    ensures
      var failed, removed := Called(w, Fail(id)), Called(w, Remove(id));
      && failed.schedules == w.schedules == removed.schedules && |failed.copies| == |w.copies|
      && (forall i | 0 <= i < |w.copies| :: failed.copies[i] ==
            if w.copies[i].id == id then w.copies[i].(state := Failed) else w.copies[i])
      && (c in removed.copies <==> c in w.copies && c.id != id)
      && Subsequence(removed.copies, w.copies, at)
  {
    at := ExceptStems(w.copies, {id});
    InExceptIff(w.copies, {id}, c);
  }

  lemma {:induction false} InExceptIff(copies: seq<Copy>, gone: set<string>, c: Copy)
    ensures c in Except(copies, gone) <==> c in copies && c.id !in gone
  {
    if copies != [] {
      InExceptIff(copies[..|copies| - 1], gone, c);
      assert copies == copies[..|copies| - 1] + [copies[|copies| - 1]];
    }
  }

  /** Setting and removing a schedule leaves every copy and every other volume's schedule alone. */
  lemma SchedulesAreSetAlone(w: World, volume: string, newId: string, every: nat, keep: nat, now: int)
    requires Inv(w)
    ensures
      var done, gone := Called(w, SetSchedule(newId, volume, every, keep, now)), Called(w, RemoveSchedule(volume));
      && done.copies == w.copies == gone.copies && volume in done.schedules && volume !in gone.schedules
      && done.schedules[volume].keep == keep && done.schedules[volume].every == every
      && done.schedules[volume].nextAt == now + every && done.schedules[volume].volume == volume
      && done.schedules[volume].id == (if volume in w.schedules then w.schedules[volume].id else newId)
      && forall other | other != volume ::
        Lookup(done.schedules, other) == Lookup(w.schedules, other) == Lookup(gone.schedules, other)
  {
  }

  lemma {:induction false} SetStands(calls: seq<Call>, volume: string, i: nat, k: nat)
    requires i < k <= |calls| && AllPermitted(calls[..k]) && calls[i].SetSchedule? && calls[i].volume == volume
    requires forall m | i < m < k :: LeavesAlone(calls[m], volume)
    ensures
      var sc := RunCalls(calls[..i + 1]).schedules[volume];
      && volume in RunCalls(calls[..i + 1]).schedules && sc.volume == volume
      && NotBefore(RunCalls(calls[..k]), sc, calls[i].now + calls[i].every)
  {
    OneMoreCall(calls, k);
    KeptThroughout(calls, k - 1);
    if k > i + 1 {
      SetStands(calls, volume, i, k - 1);
      var sc := RunCalls(calls[..i + 1]).schedules[volume];
      CallKeepsNext(RunCalls(calls[..k - 1]), calls[k - 1], sc, calls[i].now + calls[i].every);
    }
  }

  /** A schedule that is set fires no sooner than its interval later. */
  lemma FirstFiringWaits(calls: seq<Call>, volume: string, i: nat, j: nat)
    requires i < j < |calls| && AllPermitted(calls[..j]) && calls[i].SetSchedule? && calls[i].volume == volume
    requires FiresAt(calls, j, volume) && forall m | i < m < j :: LeavesAlone(calls[m], volume)
    ensures calls[j].now - calls[i].now >= calls[i].every
  {
    SetStands(calls, volume, i, j);
  }

  // ----- the retention loop -----

  /** What `p` picks, newest first. */
  function Picked(copies: seq<Copy>, p: Copy -> bool): (picked: seq<Copy>)
    ensures |picked| == CountOf(copies, p)
  {
    if copies == [] then []
    else
      var last := copies[|copies| - 1];
      var rest := Picked(copies[..|copies| - 1], p);
      if p(last) then [last] + rest else rest
  }

  /** The ready copies of the schedule beyond its keep, newest first. */
  function Surplus(copies: seq<Copy>, sc: Schedule): seq<Copy> {
    var ready := Picked(copies, ReadyOf(sc.id));
    ready[Min(sc.keep, |ready|)..]
  }

  lemma PickedOneMore(copies: seq<Copy>, n: nat, p: Copy -> bool)
    requires n < |copies|
    ensures Picked(copies[..n + 1], p) == if p(copies[n]) then [copies[n]] + Picked(copies[..n], p)
      else Picked(copies[..n], p)
  {
    assert copies[..n + 1][..n] == copies[..n];
  }

  function Idset(copies: seq<Copy>): set<string> {
    set c | c in copies :: c.id
  }

  lemma {:induction false} PickedAreThere(copies: seq<Copy>, p: Copy -> bool)
    ensures forall c | c in Picked(copies, p) :: c in copies && p(c)
    decreases |copies|
  {
    if copies != [] {
      PickedAreThere(copies[..|copies| - 1], p);
    }
  }

  lemma {:induction false} ExceptIgnores(copies: seq<Copy>, gone: set<string>, id: string)
    requires forall c | c in copies :: c.id != id
    ensures Except(copies, gone + {id}) == Except(copies, gone)
    decreases |copies|
  {
    if copies != [] {
      ExceptIgnores(copies[..|copies| - 1], gone, id);
      assert copies[|copies| - 1] in copies;
    }
  }

  /** Deleting all but the first `keep` of those picked leaves exactly what should stay. */
  lemma {:induction false} ExceptTheRest(copies: seq<Copy>, p: Copy -> bool, keep: nat)
    requires DistinctIds(copies)
    ensures
      var picked := Picked(copies, p);
      Except(copies, Idset(picked[Min(keep, |picked|)..])) == KeepNewest(copies, p, keep)
    decreases |copies|
  {
    if copies != [] {
      var older, last := copies[..|copies| - 1], copies[|copies| - 1];
      var left := if p(last) && keep > 0 then keep - 1 else keep;
      var picked, before := Picked(copies, p), Picked(older, p);
      ExceptTheRest(older, p, left);
      var rest := before[Min(left, |before|)..];
      PickedAreThere(older, p);
      forall c | c in rest ensures c.id != last.id {
        assert c in before && c in older;
      }
      if p(last) && keep == 0 {
        assert picked[0..] == [last] + rest;
        assert Idset(picked[0..]) == Idset(rest) + {last.id};
        ExceptIgnores(older, Idset(rest), last.id);
      } else {
        assert picked[Min(keep, |picked|)..] == rest;
      }
    }
  }

  lemma ExceptLast(copies: seq<Copy>, last: Copy, gone: set<string>)
    ensures Except(copies + [last], gone) == if last.id in gone then Except(copies, gone)
      else Except(copies, gone) + [last]
  {
    assert (copies + [last])[..|copies|] == copies;
  }

  lemma {:induction false} ExceptTwice(copies: seq<Copy>, gone: set<string>, id: string)
    ensures Except(Except(copies, gone), {id}) == Except(copies, gone + {id})
    decreases |copies|
  {
    if copies != [] {
      var older, last := copies[..|copies| - 1], copies[|copies| - 1];
      ExceptTwice(older, gone, id);
      ExceptLast(Except(older, gone), last, {id});
    }
  }

  lemma {:induction false} ExceptNothing(copies: seq<Copy>)
    ensures Except(copies, {}) == copies
    decreases |copies|
  {
    if copies != [] {
      ExceptNothing(copies[..|copies| - 1]);
    }
  }

  lemma IdsetOneMore(copies: seq<Copy>, k: nat)
    requires k < |copies|
    ensures Idset(copies[..k + 1]) == Idset(copies[..k]) + {copies[k].id}
  {
    assert copies[..k + 1] == copies[..k] + [copies[k]];
  }

  class Service {
    var copies: seq<Copy>
    var schedules: map<string, Schedule>
    var files: set<string>

    constructor ()
      ensures copies == [] && schedules == map[] && files == {}
    {
      copies, schedules, files := [], map[], {};
    }

    function State(): World
      reads this
    {
      World(copies, schedules)
    }

    method Delete(id: string)
      modifies this`copies, this`files
      ensures copies == Except(old(copies), {id}) && files == old(files) - {id}
    {
      copies := Except(copies, {id});
      files := files - {id};
    }

    /** The ready copies of the schedule, newest first. */
    method Keepable(sc: Schedule) returns (keepable: seq<Copy>)
      ensures keepable == Picked(copies, ReadyOf(sc.id))
    {
      keepable := [];
      var n := |copies|;
      assert copies[..n] == copies;
      while n > 0
        invariant 0 <= n <= |copies|
        invariant keepable + Picked(copies[..n], ReadyOf(sc.id)) == Picked(copies, ReadyOf(sc.id))
      {
        n := n - 1;
        PickedOneMore(copies, n, ReadyOf(sc.id));
        if copies[n].schedule == sc.id && copies[n].state == Ready {
          keepable := keepable + [copies[n]];
        }
      }
    }

    /** The rows go, and the files of exactly those that go. */
    method Retain(sc: Schedule) returns (pruned: nat)
      requires DistinctIds(copies)
      modifies this`copies, this`files
      ensures copies == Retained(old(copies), sc)
      ensures pruned == |Surplus(old(copies), sc)| && files == old(files) - Idset(Surplus(old(copies), sc))
    {
      var keepable := Keepable(sc);
      ExceptTheRest(copies, ReadyOf(sc.id), sc.keep);
      ExceptNothing(copies);
      pruned := 0;
      var rest := keepable[Min(sc.keep, |keepable|)..];
      if |keepable| <= sc.keep {
        assert Idset(rest) == {};
        return;
      }
      DeleteAll(rest);
      pruned := |rest|;
    }

    method DeleteAll(rest: seq<Copy>)
      modifies this`copies, this`files
      ensures copies == Except(old(copies), Idset(rest)) && files == old(files) - Idset(rest)
    {
      ExceptNothing(copies);
      assert Idset(rest[..0]) == {};
      for k := 0 to |rest|
        invariant copies == Except(old(copies), Idset(rest[..k])) && files == old(files) - Idset(rest[..k])
      {
        ExceptTwice(old(copies), Idset(rest[..k]), rest[k].id);
        IdsetOneMore(rest, k);
        Delete(rest[k].id);
      }
      assert rest[..|rest|] == rest;
    }

    /** A due schedule makes its copy, unless one waits, and prunes. */
    method FireSchedule(sc: Schedule, now: int, made: Option<string>) returns (fired: bool, pruned: nat)
      requires Inv(State()) && HasSchedule(schedules, sc) && (made.Some? ==> Unused(State(), made.value))
      modifies this
      ensures State() == Fired(old(State()), sc, now, made) && Inv(State())
      ensures fired <==> made.Some? && CountOf(old(copies), PendingFor(sc.volume)) == 0
      ensures
        var surplus := Surplus(old(copies), sc);
        pruned == |surplus| && files == old(files) - Idset(surplus)
    {
      ghost var was := State();
      assert Inv(Fired(was, sc, now, made)) by {
        FireKeepsInv(was, sc, now, made);
      }
      schedules := schedules[sc.volume := sc.(nextAt := now + sc.every)];
      fired := CountOf(copies, PendingFor(sc.volume)) == 0 && made.Some?;
      if fired {
        var c := Copy(made.value, sc.id, sc.volume, Pending);
        assert DistinctIds(copies + [c]) by {
          AppendKeepsIds(copies, c);
        }
        copies := copies + [c];
      }
      pruned := Retain(sc);
      assert State() == Fired(was, sc, now, made);
    }

    /** A copy that lands makes its schedule prune. */
    method LandCopy(id: string, sc: Option<Schedule>) returns (pruned: nat)
      requires Inv(State()) && sc == MakerOf(State(), id)
      modifies this
      ensures State() == Landed(old(State()), id, sc) && Inv(State())
      ensures
        var i := PlaceOf(old(copies), IdOf, id);
        if i == |old(copies)| || old(copies)[i].state == Ready then pruned == 0 && files == old(files)
        else
          var surplus := if sc.None? then [] else Surplus(Marked(old(copies), i, Ready), sc.value);
          pruned == |surplus| && files == old(files) + {id} - Idset(surplus)
    {
      ghost var was := State();
      assert Inv(Landed(was, id, sc)) by {
        LandKeepsInv(was, id);
      }
      pruned := 0;
      var i := PlaceOf(copies, IdOf, id);
      if i == |copies| || copies[i].state == Ready {
        return;
      }
      copies := Marked(copies, i, Ready);
      files := files + {id};
      if sc.Some? {
        pruned := Retain(sc.value);
      }
      assert State() == Landed(was, id, sc);
    }
  }
}

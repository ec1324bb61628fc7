/** Raising and clearing alerts on measured load (internal/platform/alert/decide.go, service.go). */
module Alerts {
  import opened Basics

  const SECOND := 1_000_000_000
  const STALE := 180 * SECOND
  const MIN_FOR := 30 * SECOND

  datatype Metric = Cpu | Memory

  datatype Comparison = Above | Below

  datatype Mood = Quiet | Warming | Firing

  datatype Alert = Alert(instance: string, metric: Metric, comparison: Comparison, threshold: real, holdFor: int,
                         state: Mood, since: int, lastValue: real)

  datatype Sample = Sample(cpu: real, memory: real, memoryKnown: bool, reportedAt: int)

  datatype Verdict = Verdict(state: Mood, value: real, changed: bool)

  // ----- one decision -----

  function Quieten(held: Alert): Verdict {
    Verdict(Quiet, 0.0, held.state != Quiet)
  }

  function Reading(metric: Metric, sample: Sample): Option<real> {
    if metric == Memory then (if sample.memoryKnown then Some(sample.memory) else None) else Some(sample.cpu)
  }

  predicate Crossed(comparison: Comparison, value: real, threshold: real) {
    if comparison == Below then value < threshold else value > threshold
  }

  function Decide(held: Alert, found: Option<Sample>, now: int): Verdict {
    if found.None? then Quieten(held)
    else if now - found.value.reportedAt > STALE then Quieten(held)
    else
      var value := Reading(held.metric, found.value);
      if value.None? then Quieten(held)
      else if !Crossed(held.comparison, value.value, held.threshold) then Quieten(held).(value := value.value)
      else if held.state == Quiet then Verdict(Warming, value.value, true)
      else if held.state == Warming then
        if now - held.since < held.holdFor then Verdict(Warming, value.value, false)
        else Verdict(Firing, value.value, true)
      else Verdict(Firing, value.value, false)
  }

  /** A fresh, known reading on the wrong side of the threshold. */
  predicate Crosses(held: Alert, found: Option<Sample>, now: int) {
    && found.Some? && now - found.value.reportedAt <= STALE
    && Reading(held.metric, found.value).Some?
    && Crossed(held.comparison, Reading(held.metric, found.value).value, held.threshold)
  }

  // ----- one alert through many sweeps -----

  datatype Event = AlertFiring | AlertCleared

  /** One sweep as one alert sees it; `stores` is whether the new state could be written. */
  datatype Turn = Turn(now: int, found: Option<Sample>, stores: bool)

  function Moved(held: Alert, t: Turn): Alert {
    var out := Decide(held, t.found, t.now);
    if !t.stores then held
    else
      var since := if held.state != out.state then t.now else held.since;
      held.(state := out.state, lastValue := out.value, since := since)
  }

  function Announced(held: Alert, t: Turn): Option<Event> {
    var out := Decide(held, t.found, t.now);
    if !t.stores || !out.changed || out.state == Warming then None
    else if out.state == Firing then Some(AlertFiring)
    else if held.state == Firing then Some(AlertCleared)
    else None
  }

  function At(held: Alert, turns: seq<Turn>, k: nat): Alert
    requires k <= |turns|
  {
    if k == 0 then held else Moved(At(held, turns, k - 1), turns[k - 1])
  }

  function Log(held: Alert, turns: seq<Turn>, k: nat): seq<Event>
    requires k <= |turns|
  {
    if k == 0 then []
    else
      var said := Announced(At(held, turns, k - 1), turns[k - 1]);
      Log(held, turns, k - 1) + if said.Some? then [said.value] else []
  }

  /** As `create` leaves it. */
  ghost predicate New(held: Alert) {
    held.state == Quiet && held.holdFor >= MIN_FOR
  }

  lemma {:induction false} RuleStands(held: Alert, turns: seq<Turn>, k: nat)
    requires k <= |turns|
    ensures At(held, turns, k) ==
            held.(state := At(held, turns, k).state, since := At(held, turns, k).since,
              lastValue := At(held, turns, k).lastValue)
  {
    if k > 0 {
      RuleStands(held, turns, k - 1);
    }
  }

  predicate CrossesAt(held: Alert, turns: seq<Turn>, k: nat)
    requires k < |turns|
  {
    Crosses(held, turns[k].found, turns[k].now)
  }

  /** The first of the unbroken row of crossing sweeps that ends just before sweep `k`. */
  function RunStart(held: Alert, turns: seq<Turn>, k: nat): (b: nat)
    requires k <= |turns|
    ensures b <= k
    ensures forall i | b <= i < k :: CrossesAt(held, turns, i)
    ensures b == 0 || !CrossesAt(held, turns, b - 1)
  {
    if k == 0 || !CrossesAt(held, turns, k - 1) then k else RunStart(held, turns, k - 1)
  }

  ghost predicate InOrder(turns: seq<Turn>) {
    forall i, j | 0 <= i <= j < |turns| :: turns[i].now <= turns[j].now
  }

  ghost predicate AllStored(turns: seq<Turn>) {
    forall i | 0 <= i < |turns| :: turns[i].stores
  }

  /** What the history alone says the alert should be after `k` sweeps. */
  function Expected(held: Alert, turns: seq<Turn>, k: nat): Mood
    requires k <= |turns|
  {
    var b := RunStart(held, turns, k);
    if b == k then Quiet
    else if turns[k - 1].now - turns[b].now < held.holdFor then Warming
    else Firing
  }

  /**
   With every write stored, the state is that of the history: quiet when the current reading does
   not cross, warming while the trailing row of crossing sweeps began less than the hold time ago,
   firing after that.
   */
  lemma {:induction false} StateIsHistory(held: Alert, turns: seq<Turn>, k: nat)
    requires New(held) && InOrder(turns) && AllStored(turns) && k <= |turns|
    ensures At(held, turns, k).state == Expected(held, turns, k)
    ensures At(held, turns, k).state == Warming ==> At(held, turns, k).since == turns[RunStart(held, turns, k)].now
  {
    if k > 0 {
      StateIsHistory(held, turns, k - 1);
      RuleStands(held, turns, k - 1);
      var before, t := At(held, turns, k - 1), turns[k - 1];
      assert Crosses(before, t.found, t.now) == CrossesAt(held, turns, k - 1);
      if CrossesAt(held, turns, k - 1) {
        assert RunStart(held, turns, k) == RunStart(held, turns, k - 1);
      }
    }
  }

  /**
   A crossing is a report no older than three minutes whose value of the metric watched, known if it is
   memory, lies strictly on the watched side of the threshold.
   */
  lemma CrossesIff(held: Alert, sample: Sample, now: int)
    ensures Crosses(held, Some(sample), now) <==>
      && sample.reportedAt + 180 * SECOND >= now
      && (held.metric == Memory ==> sample.memoryKnown)
      && var value := if held.metric == Cpu then sample.cpu else sample.memory;
         if held.comparison == Above then value > held.threshold else held.threshold > value
    ensures !Crosses(held, None, now)
  {
  }

  /**
   A stored turn keeps the value of a report that can be read, crossing or not, and nothing of one that
   cannot; it is stamped exactly if the state changes. A turn that cannot be stored leaves the alert.
   */
  lemma TurnIsKept(held: Alert, t: Turn)
    ensures
      var now, heard := Moved(held, t), t.found.Some? && t.now - t.found.value.reportedAt <= STALE;
      var read := heard && (held.metric == Memory ==> t.found.value.memoryKnown);
      && (!t.stores ==> now == held)
      && (t.stores ==> now.since == if now.state == held.state then held.since else t.now)
      && (t.stores && held.metric == Cpu ==> now.lastValue == if read then t.found.value.cpu else 0.0)
      && (t.stores && held.metric == Memory ==> now.lastValue == if read then t.found.value.memory else 0.0)
      && (Decide(held, t.found, t.now).changed <==> Decide(held, t.found, t.now).state != held.state)
  {
  }

  /** Once firing, an alert was last stamped when it began to fire. */
  ghost predicate StampedFiring(held: Alert, turns: seq<Turn>, k: nat, f: nat)
    requires k <= |turns|
  {
    && f < k && At(held, turns, k).since == turns[f].now
    && At(held, turns, f).state != Firing
    && forall m | f < m <= k :: At(held, turns, m).state == Firing
  }

  lemma {:induction false} FiringIsStamped(held: Alert, turns: seq<Turn>, k: nat) returns (f: nat)
    requires held.state == Quiet && k <= |turns| && At(held, turns, k).state == Firing
    ensures StampedFiring(held, turns, k, f)
  {
    if At(held, turns, k - 1).state == Firing {
      f := FiringIsStamped(held, turns, k - 1);
    } else {
      f := k - 1;
    }
  }

  function Next(log: seq<Event>): Event {
    if |log| % 2 == 0 then AlertFiring else AlertCleared
  }

  /** Firing, cleared, firing, cleared, ... */
  ghost predicate Alternates(log: seq<Event>) {
    forall i | 0 <= i < |log| :: log[i] == Next(log[..i])
  }

  lemma OneMoreEvent(log: seq<Event>)
    requires Alternates(log)
    ensures Alternates(log + [Next(log)]) && Next(log + [Next(log)]) != Next(log)
  {
    var longer := log + [Next(log)];
    forall i | 0 <= i < |longer| ensures longer[i] == Next(longer[..i]) {
      assert i < |log| ==> longer[..i] == log[..i];
      assert i == |log| ==> longer[..i] == log;
    }
  }

  lemma AnnouncesTheNext(held: Alert, t: Turn, log: seq<Event>)
    requires held.state == Firing <==> Next(log) == AlertCleared
    ensures Announced(held, t).Some? ==> Announced(held, t).value == Next(log)
    ensures Announced(held, t).None? ==> (Moved(held, t).state == Firing <==> held.state == Firing)
    ensures Announced(held, t).Some? ==> (Moved(held, t).state == Firing <==> held.state != Firing)
  {
  }

  /** Whatever writes fail, the announced events alternate, starting with firing. */
  lemma {:induction false} EventsAlternate(held: Alert, turns: seq<Turn>, k: nat)
    requires held.state == Quiet && k <= |turns|
    ensures Alternates(Log(held, turns, k))
    ensures At(held, turns, k).state == Firing <==> Next(Log(held, turns, k)) == AlertCleared
  {
    if k > 0 {
      EventsAlternate(held, turns, k - 1);
      var log := Log(held, turns, k - 1);
      AnnouncesTheNext(At(held, turns, k - 1), turns[k - 1], log);
      OneMoreEvent(log);
      assert log + [] == log;
    }
  }

  // ----- the code -----

  /** What alert `was` is after a sweep that listed it (or did not). */
  function SweptAlert(was: Alert, visited: bool, samples: map<string, Sample>, now: int, stores: bool): Alert {
    if visited then Moved(was, TurnOf(was, samples, now, stores)) else was
  }

  function TurnOf(held: Alert, samples: map<string, Sample>, now: int, stores: bool): Turn {
    Turn(now, Lookup(samples, held.instance), stores)
  }

  /** What a sweep over `order` announces, in order. */
  function Announcements(alerts: map<string, Alert>, order: seq<string>, samples: map<string, Sample>, now: int,
                         stores: set<string>): seq<(string, Event)> {
    if order == [] then []
    else
      var id := order[|order| - 1];
      var said := if id in alerts then Announced(alerts[id], TurnOf(alerts[id], samples, now, id in stores)) else None;
      Announcements(alerts, order[..|order| - 1], samples, now, stores) + if said.Some? then [(id, said.value)] else []
  }

  /** Exactly the alerts in `order` took their turn. */
  ghost predicate SweptSo(was: map<string, Alert>, alerts: map<string, Alert>, order: seq<string>,
                          samples: map<string, Sample>, now: int, stores: set<string>) {
    alerts.Keys == was.Keys && forall id | id in alerts ::
      alerts[id] == SweptAlert(was[id], id in order, samples, now, id in stores)
  }

  lemma StillAsBefore(was: map<string, Alert>, mid: map<string, Alert>, order: seq<string>, k: nat,
                      samples: map<string, Sample>, now: int, stores: set<string>)
    requires k < |order| && order[k] in was && order[k] !in order[..k]
    requires SweptSo(was, mid, order[..k], samples, now, stores)
    ensures order[k] in mid && mid[order[k]] == was[order[k]]
  {
  }

  lemma SweptOneMore(was: map<string, Alert>, mid: map<string, Alert>, order: seq<string>, k: nat,
                     samples: map<string, Sample>, now: int, stores: set<string>)
    requires k < |order| && order[k] in was && order[k] !in order[..k]
    requires SweptSo(was, mid, order[..k], samples, now, stores)
    ensures SweptSo(was, mid[order[k] := SweptAlert(was[order[k]], true, samples, now, order[k] in stores)],
      order[..k + 1], samples, now, stores)
  {
    assert order[..k + 1] == order[..k] + [order[k]];
  }

  lemma AnnouncesOneMore(alerts: map<string, Alert>, order: seq<string>, k: nat, samples: map<string, Sample>,
                         now: int, stores: set<string>)
    requires k < |order| && order[k] in alerts
    ensures
      var said := Announced(alerts[order[k]], TurnOf(alerts[order[k]], samples, now, order[k] in stores));
      Announcements(alerts, order[..k + 1], samples, now, stores)
      == Announcements(alerts, order[..k], samples, now, stores) + if said.Some? then [(order[k], said.value)] else []
  {
    assert order[..k + 1][..k] == order[..k];
  }

  class Watch {
    var alerts: map<string, Alert>
    var log: seq<(string, Event)>

    constructor ()
      ensures alerts == map[] && log == []
    {
      alerts, log := map[], [];
    }

    /** One sweep moves every alert it lists as one turn does, and announces what it announces. */
    method Sweep(order: seq<string>, samples: map<string, Sample>, now: int, stores: set<string>)
      requires forall i | 0 <= i < |order| :: order[i] in alerts
      requires forall i, j | 0 <= i < j < |order| :: order[i] != order[j]
      modifies this
      ensures SweptSo(old(alerts), alerts, order, samples, now, stores)
      ensures log == old(log) + Announcements(old(alerts), order, samples, now, stores)
    {
      for k := 0 to |order|
        invariant SweptSo(old(alerts), alerts, order[..k], samples, now, stores)
        invariant log == old(log) + Announcements(old(alerts), order[..k], samples, now, stores)
      {
        ghost var mid := alerts;
        StillAsBefore(old(alerts), mid, order, k, samples, now, stores);
        AnnouncesOneMore(old(alerts), order, k, samples, now, stores);
        Visit(order[k], samples, now, order[k] in stores);
        SweptOneMore(old(alerts), mid, order, k, samples, now, stores);
      }
      assert order[..|order|] == order;
    }

    method Visit(id: string, samples: map<string, Sample>, now: int, stores: bool)
      requires id in alerts
      modifies this
      ensures
        var turn := TurnOf(old(alerts)[id], samples, now, stores);
        var said := Announced(old(alerts)[id], turn);
        && alerts == old(alerts)[id := SweptAlert(old(alerts)[id], true, samples, now, stores)]
        && log == old(log) + if said.Some? then [(id, said.value)] else []
    {
      var one := alerts[id];
      var out := Decide(one, Lookup(samples, one.instance), now);
      var before := one.state;
      one := one.(state := out.state, lastValue := out.value);
      if before != out.state { one := one.(since := now); }
      if !stores {
        assert alerts == alerts[id := alerts[id]];
        return;
      }
      alerts := alerts[id := one];
      if !out.changed { return; }
      if one.state == Warming { return; }
      if one.state == Quiet && before != Firing { return; }
      log := log + [(id, if one.state == Firing then AlertFiring else AlertCleared)];
    }
  }
}

/**
 Scaling a service on measured load (internal/platform/autoscale/decide.go, service.go).
 Percentages are reals: rounding of float64 is not modelled. Times are nanoseconds.
 */
module Autoscale {
  import opened Basics

  const SECOND := 1_000_000_000
  const WARMUP := 90 * SECOND
  const COOLDOWN := 180 * SECOND
  const STALE_LOAD := 60 * SECOND
  const DEADBAND := 0.15
  const MAX_STEP := 4
  const MIN_REPLICAS := 1
  const MAX_REPLICAS := 32

  datatype Policy = Policy(service: string, min: int, max: int, targetCpu: int, targetMemory: int, lastAt: Option<int>)

  datatype Member = Member(instance: string, createdAt: int)

  datatype Group = Group(replicas: int, settled: bool, members: seq<Member>)

  datatype Sample = Sample(cpu: real, memory: real, memoryKnown: bool, reportedAt: int)

  datatype Pressure = Pressure(ofMemory: bool, average: real, target: int) {
    function Demand(): real
      requires target > 0
    {
      average / target as real
    }
  }

  datatype Reason = NotSettled | CoolingDown | LoadMissing(instance: string) | MemoryUnknown(instance: string)
                  | AllWarming | NoTarget | CloseEnough(Pressure) | AtMaximum(Pressure) | AtMinimum(Pressure)
                  | DoesNotMove(Pressure) | Pressed(Pressure)

  datatype Decision = Stay(reason: Reason) | Act(replicas: int, reason: Reason)

  /** What `set` admits. */
  ghost predicate ValidPolicy(p: Policy) {
    && MIN_REPLICAS <= p.min <= p.max <= MAX_REPLICAS
    && 0 <= p.targetCpu <= 100 && 0 <= p.targetMemory <= 100
    && (p.targetCpu > 0 || p.targetMemory > 0)
  }

  // ----- one decision -----

  datatype Gathering = Blocked(reason: Reason) | Totals(ready: nat, cpu: real, memory: real)

  /** Sums the load of the warm members; the first one that cannot be read blocks the decision. */
  function Gather(policy: Policy, members: seq<Member>, samples: map<string, Sample>, now: int): Gathering {
    if members == [] then Totals(0, 0.0, 0.0)
    else
      var last := members[|members| - 1];
      match Gather(policy, members[..|members| - 1], samples, now)
      case Blocked(reason) => Blocked(reason)
      case Totals(ready, cpu, memory) =>
        if now - last.createdAt < WARMUP then Totals(ready, cpu, memory)
        else if last.instance !in samples || now - samples[last.instance].reportedAt > STALE_LOAD then
          Blocked(LoadMissing(last.instance))
        else if policy.targetMemory > 0 && !samples[last.instance].memoryKnown then
          Blocked(MemoryUnknown(last.instance))
        else Totals(ready + 1, cpu + samples[last.instance].cpu, memory + samples[last.instance].memory)
  }

  function HardestPressed(policy: Policy, cpu: real, memory: real): Option<Pressure> {
    var byCpu := Pressure(false, cpu, policy.targetCpu);
    var byMemory := Pressure(true, memory, policy.targetMemory);
    if policy.targetCpu <= 0 then (if policy.targetMemory <= 0 then None else Some(byMemory))
    else if policy.targetMemory > 0 && byMemory.Demand() > byCpu.Demand() then Some(byMemory)
    else Some(byCpu)
  }

  function Ceil(x: real): int {
    -((-x).Floor)
  }

  function Step(from: int, to: int): int {
    if to > from + MAX_STEP then from + MAX_STEP
    else if to < from - MAX_STEP then from - MAX_STEP
    else to
  }

  function Clamp(value: int, low: int, high: int): int {
    if value < low then low else if value > high then high else value
  }

  function Abs(x: real): real {
    if x < 0.0 then -x else x
  }

  function Wanted(policy: Policy, replicas: int, demand: real): int {
    Clamp(Step(replicas, Ceil(replicas as real * demand)), policy.min, policy.max)
  }

  function WhyNot(worst: Pressure, demand: real, replicas: int, policy: Policy): Reason {
    if demand > 1.0 && replicas >= policy.max then AtMaximum(worst)
    else if demand < 1.0 && replicas <= policy.min then AtMinimum(worst)
    else DoesNotMove(worst)
  }

  function Judge(policy: Policy, replicas: int, worst: Pressure): Decision
    requires worst.target > 0
  {
    JudgeBy(policy, replicas, worst, worst.Demand())
  }

  function JudgeBy(policy: Policy, replicas: int, worst: Pressure, demand: real): Decision {
    if Abs(demand - 1.0) <= DEADBAND then Stay(CloseEnough(worst))
    else
      var wanted := Wanted(policy, replicas, demand);
      if wanted == replicas then Stay(WhyNot(worst, demand, replicas, policy)) else Act(wanted, Pressed(worst))
  }

  function Conclude(policy: Policy, replicas: int, g: Gathering): Decision {
    match g
    case Blocked(reason) => Stay(reason)
    case Totals(ready, cpu, memory) =>
      if ready == 0 then Stay(AllWarming)
      else
        match HardestPressed(policy, Average(cpu, ready), Average(memory, ready))
        case None => Stay(NoTarget)
        case Some(worst) => Judge(policy, replicas, worst)
  }

  function Average(total: real, ready: nat): real
    requires ready > 0
  {
    total / ready as real
  }

  function Decide(policy: Policy, group: Group, samples: map<string, Sample>, now: int): Decision {
    if !group.settled then Stay(NotSettled)
    else if policy.lastAt.Some? && now - policy.lastAt.value < COOLDOWN then Stay(CoolingDown)
    else Conclude(policy, group.replicas, Gather(policy, group.members, samples, now))
  }

  method GatherByLoop(policy: Policy, members: seq<Member>, samples: map<string, Sample>, now: int)
    returns (g: Gathering)
    ensures g == Gather(policy, members, samples, now)
  {
    var ready, cpu, memory := 0, 0.0, 0.0;
    for i := 0 to |members|
      invariant Gather(policy, members[..i], samples, now) == Totals(ready, cpu, memory)
    {
      var member := members[i];
      assert members[..i + 1][..i] == members[..i];
      if now - member.createdAt < WARMUP { continue; }
      if member.instance !in samples || now - samples[member.instance].reportedAt > STALE_LOAD {
        BlockedStays(policy, members, samples, now, i + 1);
        return Blocked(LoadMissing(member.instance));
      }
      if policy.targetMemory > 0 && !samples[member.instance].memoryKnown {
        BlockedStays(policy, members, samples, now, i + 1);
        return Blocked(MemoryUnknown(member.instance));
      }
      cpu := cpu + samples[member.instance].cpu;
      memory := memory + samples[member.instance].memory;
      ready := ready + 1;
    }
    assert members[..|members|] == members;
    g := Totals(ready, cpu, memory);
  }

  method DecideByLoop(policy: Policy, group: Group, samples: map<string, Sample>, now: int) returns (d: Decision)
    ensures d == Decide(policy, group, samples, now)
  {
    if !group.settled { return Stay(NotSettled); }
    if policy.lastAt.Some? && now - policy.lastAt.value < COOLDOWN { return Stay(CoolingDown); }
    var g := GatherByLoop(policy, group.members, samples, now);
    if g.Blocked? { return Stay(g.reason); }
    if g.ready == 0 { return Stay(AllWarming); }
    var pressed := HardestPressed(policy, Average(g.cpu, g.ready), Average(g.memory, g.ready));
    if pressed.None? { return Stay(NoTarget); }
    d := Judge(policy, group.replicas, pressed.value);
  }

  lemma {:induction false} BlockedStays(policy: Policy, members: seq<Member>, samples: map<string, Sample>, now: int,
                                        k: nat)
    requires k <= |members| && Gather(policy, members[..k], samples, now).Blocked?
    ensures Gather(policy, members, samples, now) == Gather(policy, members[..k], samples, now)
    decreases |members|
  {
    if k < |members| {
      var front := members[..|members| - 1];
      assert front[..k] == members[..k];
      BlockedStays(policy, front, samples, now, k);
    } else {
      assert members[..k] == members;
    }
  }

  /**
   Every action lands between the limits. It moves by at most four replicas exactly when the
   current count is no further than that from the limits: the clamp comes after the step.
   */
  lemma ActionsAreBounded(policy: Policy, group: Group, samples: map<string, Sample>, now: int)
    requires ValidPolicy(policy)
    ensures
      var d := Decide(policy, group, samples, now);
      d.Act? ==>
        && policy.min <= d.replicas <= policy.max && d.replicas != group.replicas
        && (group.replicas - MAX_STEP <= d.replicas <= group.replicas + MAX_STEP <==>
            policy.min - MAX_STEP <= group.replicas <= policy.max + MAX_STEP)
        && (policy.lastAt.Some? ==> now - policy.lastAt.value >= COOLDOWN)
  {
  }

  // ----- a constant load, spread evenly -----

  /**
   The whole load is spread evenly: over all replicas, of which the warm ones are heard, or over the
   warm ones alone, if these are enough.
   */
  ghost predicate Even(group: Group, samples: map<string, Sample>, now: int, cpu: real, memory: real) {
    && group.replicas >= 1
    && (|| AllReport(group.members, samples, now, Share(cpu, group.replicas), Share(memory, group.replicas))
        || CarriedByWarm(group, samples, now, cpu, memory))
  }

  /** Every warm replica carries its share of the whole, freshly reported, and the others nothing. */
  ghost predicate CarriedByWarm(group: Group, samples: map<string, Sample>, now: int, cpu: real, memory: real) {
    var ready := Warm(group.members, now);
    && 1 <= ready && WarmEnough(ready, group.replicas)
    && AllReport(group.members, samples, now, Share(cpu, ready), Share(memory, ready))
  }

  /** All are warm, or so many that every action is a full step or ends at a limit. */
  predicate WarmEnough(ready: nat, replicas: int) {
    ready <= replicas <= MAX_REPLICAS && (ready == replicas || replicas == MAX_REPLICAS || ready >= 27)
  }

  function Warm(members: seq<Member>, now: int): nat {
    if members == [] then 0
    else Warm(members[..|members| - 1], now) + if now - members[|members| - 1].createdAt < WARMUP then 0 else 1
  }

  function Share(total: real, replicas: int): real
    requires replicas >= 1
  {
    total / replicas as real
  }

  ghost predicate AllReport(members: seq<Member>, samples: map<string, Sample>, now: int, cpu: real, memory: real) {
    forall i | 0 <= i < |members| && now - members[i].createdAt >= WARMUP ::
      var id := members[i].instance;
      && id in samples && now - samples[id].reportedAt <= STALE_LOAD
      && samples[id].cpu == cpu && samples[id].memory == memory && samples[id].memoryKnown
  }

  lemma {:induction false} EvenGathers(policy: Policy, members: seq<Member>, samples: map<string, Sample>, now: int,
                                       cpu: real, memory: real)
    requires AllReport(members, samples, now, cpu, memory)
    ensures EvenTotals(Gather(policy, members, samples, now), cpu, memory)
    ensures Gather(policy, members, samples, now).ready == Warm(members, now)
  {
    if members != [] {
      var earlier := Gather(policy, members[..|members| - 1], samples, now);
      EvenGathers(policy, members[..|members| - 1], samples, now, cpu, memory);
      OneMoreShare(earlier.ready, cpu);
      OneMoreShare(earlier.ready, memory);
    }
  }

  lemma OneMoreShare(ready: nat, share: real)
    ensures ready as real * share + share == (ready + 1) as real * share
  {
  }

  /** How many times over its target the whole load is. */
  function Load(policy: Policy, cpu: real, memory: real): real
    requires ValidPolicy(policy)
  {
    if policy.targetCpu <= 0 then memory / policy.targetMemory as real
    else if policy.targetMemory <= 0 then cpu / policy.targetCpu as real
    else if memory / policy.targetMemory as real > cpu / policy.targetCpu as real
      then memory / policy.targetMemory as real
    else cpu / policy.targetCpu as real
  }

  /** How many times over its target each of so many replicas is. */
  function LoadOfEach(policy: Policy, replicas: int, cpu: real, memory: real): real
    requires ValidPolicy(policy) && replicas >= 1
  {
    Load(policy, cpu, memory) / replicas as real
  }

  /** The count that would carry the whole load at its target, within the limits. */
  function Goal(policy: Policy, cpu: real, memory: real): int
    requires ValidPolicy(policy)
  {
    Clamp(Ceil(Load(policy, cpu, memory)), policy.min, policy.max)
  }

  lemma ShareOfTarget(load: real, replicas: int, target: int)
    requires replicas >= 1 && target >= 1
    ensures replicas as real * (Share(load, replicas) / target as real) == load / target as real
  {
    var r, t := replicas as real, target as real;
    var q := (load / r) / t;
    assert q * t == load / r && (load / r) * r == load;
    assert (r * q) * t == load;
  }

  lemma Cancels(ready: nat, share: real)
    requires ready > 0
    ensures Average(ready as real * share, ready) == share
  {
  }

  lemma ShareOrder(a: real, b: real, replicas: int)
    requires replicas >= 1
    ensures replicas as real * a > replicas as real * b <==> a > b
  {
  }

  /** Under an even load the pressure, times the count, is the whole load, whatever is still warming. */
  lemma EvenPressure(policy: Policy, replicas: int, cpu: real, memory: real)
    requires ValidPolicy(policy) && replicas >= 1
    ensures
      var worst := HardestPressed(policy, Share(cpu, replicas), Share(memory, replicas));
      && worst.Some? && worst.value.target > 0
      && replicas as real * worst.value.Demand() == Load(policy, cpu, memory)
  {
    if policy.targetCpu > 0 { ShareOfTarget(cpu, replicas, policy.targetCpu); }
    if policy.targetMemory > 0 { ShareOfTarget(memory, replicas, policy.targetMemory); }
    if policy.targetCpu > 0 && policy.targetMemory > 0 {
      ShareOrder(Pressure(true, Share(memory, replicas), policy.targetMemory).Demand(),
                 Pressure(false, Share(cpu, replicas), policy.targetCpu).Demand(), replicas);
    }
  }

  /** An action goes strictly toward the goal, never past it: four at a time, or all the way. */
  ghost predicate Toward(from: int, to: int, goal: int) {
    || (from < to <= goal && (to == goal || to == from + MAX_STEP))
    || (goal <= to < from && (to == goal || to == from - MAX_STEP))
  }

  lemma StepMovesToward(from: int, to: int, low: int, high: int)
    requires low <= from <= high
    ensures
      var next := Clamp(Step(from, to), low, high);
      next != from ==> Toward(from, next, Clamp(to, low, high))
  {
  }

  lemma JudgeMovesToward(policy: Policy, replicas: int, worst: Pressure, load: real)
    requires policy.min <= replicas <= policy.max && worst.target > 0
    requires replicas as real * worst.Demand() == load
    ensures
      var d := Judge(policy, replicas, worst);
      d.Act? ==> Toward(replicas, d.replicas, Clamp(Ceil(load), policy.min, policy.max))
  {
    StepMovesToward(replicas, Ceil(load), policy.min, policy.max);
    assert Wanted(policy, replicas, worst.Demand()) == Clamp(Step(replicas, Ceil(load)), policy.min, policy.max);
  }

  /** The sums of an even load average to the share of one replica. */
  ghost predicate EvenTotals(g: Gathering, cpu: real, memory: real) {
    g.Totals? && g.cpu == g.ready as real * cpu && g.memory == g.ready as real * memory
  }

  ghost predicate Averages(g: Gathering, cpu: real, memory: real) {
    g.Totals? && (g.ready > 0 ==> Average(g.cpu, g.ready) == cpu && Average(g.memory, g.ready) == memory)
  }

  lemma EvenTotalsAverage(g: Gathering, cpu: real, memory: real)
    requires EvenTotals(g, cpu, memory)
    ensures Averages(g, cpu, memory)
  {
    if g.ready > 0 {
      Cancels(g.ready, cpu);
      Cancels(g.ready, memory);
    }
  }

  lemma AveragesMoveToward(policy: Policy, replicas: int, g: Gathering, cpu: real, memory: real, worst: Pressure,
                           load: real)
    requires policy.min <= replicas <= policy.max && Averages(g, cpu, memory)
    requires HardestPressed(policy, cpu, memory) == Some(worst) && worst.target > 0
    requires replicas as real * worst.Demand() == load
    ensures
      var d := Conclude(policy, replicas, g);
      d.Act? ==> Toward(replicas, d.replicas, Clamp(Ceil(load), policy.min, policy.max))
  {
    if g.ready > 0 {
      assert Conclude(policy, replicas, g) == Judge(policy, replicas, worst);
      JudgeMovesToward(policy, replicas, worst, load);
    }
  }

  /** What the warm ones carry, averaged over them, is taken for the load of every replica. */
  ghost predicate TowardOf(policy: Policy, replicas: int, ready: nat, cpu: real, memory: real)
    requires ValidPolicy(policy)
  {
    var d := Conclude(policy, replicas, Totals(ready, cpu, memory));
    d.Act? ==> Toward(replicas, d.replicas, Goal(policy, cpu, memory))
  }

  /** `count` replicas' worth of a demand beyond the deadband, above or below it. */
  ghost predicate Beyond(count: int, times: real, up: bool) {
    if up then times >= count as real * 1.15 else times <= count as real * 0.85
  }

  lemma PastTheDeadband(count: int, demand: real, times: real)
    requires count >= 0 && Abs(demand - 1.0) > DEADBAND && times == count as real * demand
    ensures Beyond(count, times, demand > 1.0)
  {
    if demand > 1.0 {
      NotNegative(count as real, demand - 1.15);
    } else {
      NotNegative(count as real, 0.85 - demand);
    }
  }

  lemma NotNegative(a: real, b: real)
    requires a >= 0.0 && b >= 0.0
    ensures a * b >= 0.0
  {
  }

  /** Outside the deadband, with enough of them warm, a full step or a limit is where the goal is too. */
  lemma EnoughMovesToward(low: int, high: int, replicas: int, ready: nat, wanted: real, whole: real, up: bool)
    requires low <= replicas <= high <= MAX_REPLICAS && 1 <= ready && WarmEnough(ready, replicas)
    requires Beyond(replicas, wanted, up) && Beyond(ready, whole, up) && (ready == replicas ==> wanted == whole)
    ensures
      var next := Clamp(Step(replicas, Ceil(wanted)), low, high);
      next != replicas ==> Toward(replicas, next, Clamp(Ceil(whole), low, high))
  {
    if ready == replicas {
      StepMovesToward(replicas, Ceil(wanted), low, high);
    } else {
      FullStepMovesToward(low, high, replicas, ready, wanted, whole, up);
    }
  }

  lemma FullStepMovesToward(low: int, high: int, replicas: int, ready: int, wanted: real, whole: real, up: bool)
    requires low <= replicas <= high <= MAX_REPLICAS
    requires 1 <= ready < replicas <= MAX_REPLICAS && (replicas == MAX_REPLICAS || ready >= 27)
    requires Beyond(replicas, wanted, up) && Beyond(ready, whole, up)
    ensures
      var next := Clamp(Step(replicas, Ceil(wanted)), low, high);
      next != replicas ==> Toward(replicas, next, Clamp(Ceil(whole), low, high))
  {
    FullStep(replicas, ready, wanted, whole, up);
  }

  lemma FullStep(replicas: int, ready: int, wanted: real, whole: real, up: bool)
    requires 1 <= ready < replicas <= MAX_REPLICAS && (replicas == MAX_REPLICAS || ready >= 27)
    requires Beyond(replicas, wanted, up) && Beyond(ready, whole, up)
    ensures up ==> Ceil(wanted) >= replicas + MAX_STEP && (replicas < MAX_REPLICAS ==> Ceil(whole) >= MAX_REPLICAS)
    ensures !up ==> Ceil(wanted) <= replicas - MAX_STEP && Ceil(whole) <= replicas - MAX_STEP
  {
  }

  /** With too few of them warm, a demand just past the deadband overshoots. */
  lemma TooFewOvershoot(replicas: int, ready: nat)
    requires 1 <= ready < replicas < MAX_REPLICAS && ready < 27
    ensures
      var demand := 1.151;
      var next := Clamp(Step(replicas, Ceil(replicas as real * demand)), 1, MAX_REPLICAS);
      next != replicas && !Toward(replicas, next, Clamp(Ceil(ready as real * demand), 1, MAX_REPLICAS))
  {
  }

  lemma ConcludesByDemand(policy: Policy, replicas: int, ready: nat, cpu: real, memory: real)
    requires ValidPolicy(policy) && ready >= 1
    ensures
      var worst := HardestPressed(policy, Share(cpu, ready), Share(memory, ready));
      && worst.Some? && worst.value.target > 0
      && Conclude(policy, replicas, Totals(ready, cpu, memory)) == Judge(policy, replicas, worst.value)
      && ready as real * worst.value.Demand() == Load(policy, cpu, memory)
  {
    EvenPressure(policy, ready, cpu, memory);
    assert Average(cpu, ready) == Share(cpu, ready) && Average(memory, ready) == Share(memory, ready);
  }

  lemma JudgeByDemand(policy: Policy, replicas: int, worst: Pressure, demand: real, wanted: real, goal: int)
    requires wanted == replicas as real * demand
    requires
      var next := Clamp(Step(replicas, Ceil(wanted)), policy.min, policy.max);
      Abs(demand - 1.0) > DEADBAND && next != replicas ==> Toward(replicas, next, goal)
    ensures
      var d := JudgeBy(policy, replicas, worst, demand);
      d.Act? ==> Toward(replicas, d.replicas, goal)
  {
  }

  lemma EnoughWarmMovesToward(policy: Policy, replicas: int, ready: nat, cpu: real, memory: real)
    requires ValidPolicy(policy) && policy.min <= replicas <= policy.max && 1 <= ready && WarmEnough(ready, replicas)
    ensures TowardOf(policy, replicas, ready, cpu, memory)
  {
    var worst := HardestPressed(policy, Share(cpu, ready), Share(memory, ready));
    assert worst.Some? && worst.value.target > 0
      && Conclude(policy, replicas, Totals(ready, cpu, memory)) == Judge(policy, replicas, worst.value) by {
      ConcludesByDemand(policy, replicas, ready, cpu, memory);
    }
    var d := Judge(policy, replicas, worst.value);
    assert d.Act? ==> Toward(replicas, d.replicas, Goal(policy, cpu, memory)) by {
      ConcludesByDemand(policy, replicas, ready, cpu, memory);
      WarmDemandMovesToward(policy, replicas, ready, worst.value, worst.value.Demand(), Load(policy, cpu, memory));
    }
  }

  lemma WarmDemandMovesToward(policy: Policy, replicas: int, ready: nat, worst: Pressure, demand: real, load: real)
    requires policy.min <= replicas <= policy.max <= MAX_REPLICAS && 1 <= ready && WarmEnough(ready, replicas)
    requires worst.target > 0 && worst.Demand() == demand && ready as real * demand == load
    ensures
      var d := Judge(policy, replicas, worst);
      d.Act? ==> Toward(replicas, d.replicas, Clamp(Ceil(load), policy.min, policy.max))
  {
    var wanted := replicas as real * demand;
    if Abs(demand - 1.0) > DEADBAND {
      assert Beyond(replicas, wanted, demand > 1.0) by {
        PastTheDeadband(replicas, demand, wanted);
      }
      assert Beyond(ready, load, demand > 1.0) by {
        PastTheDeadband(ready, demand, load);
      }
      EnoughMovesToward(policy.min, policy.max, replicas, ready, wanted, load, demand > 1.0);
    }
    JudgeByDemand(policy, replicas, worst, demand, wanted, Clamp(Ceil(load), policy.min, policy.max));
  }

  /**
   If the warm replicas carry the whole load, every action goes toward the goal, for all policies and
   loads, exactly if enough of them are warm.
   */
  lemma WarmLoadMovesTowardIff(replicas: int, ready: nat)
    requires 1 <= ready <= replicas <= MAX_REPLICAS
    ensures WarmEnough(ready, replicas) <==>
      forall policy: Policy, cpu: real, memory: real | ValidPolicy(policy) && policy.min <= replicas <= policy.max ::
        TowardOf(policy, replicas, ready, cpu, memory)
  {
    if WarmEnough(ready, replicas) {
      forall policy: Policy, cpu: real, memory: real | ValidPolicy(policy) && policy.min <= replicas <= policy.max
        ensures TowardOf(policy, replicas, ready, cpu, memory)
      {
        EnoughWarmMovesToward(policy, replicas, ready, cpu, memory);
      }
    } else {
      var policy := Policy("", 1, MAX_REPLICAS, 1, 0, None);
      var cpu := ready as real * 1.151;
      Cancels(ready, 1.151);
      TooFewOvershoot(replicas, ready);
      assert Conclude(policy, replicas, Totals(ready, cpu, 0.0)) == Judge(policy, replicas, Pressure(false, 1.151, 1));
      assert Pressure(false, 1.151, 1).Demand() == 1.151 && Goal(policy, cpu, 0.0) == Clamp(Ceil(cpu), 1, MAX_REPLICAS);
      assert !TowardOf(policy, replicas, ready, cpu, 0.0);
    }
  }

  lemma SpreadOverAllMovesToward(policy: Policy, group: Group, samples: map<string, Sample>, now: int, cpu: real,
                                 memory: real)
    requires ValidPolicy(policy) && 1 <= policy.min <= group.replicas <= policy.max
    requires AllReport(group.members, samples, now, Share(cpu, group.replicas), Share(memory, group.replicas))
    ensures
      var d := Conclude(policy, group.replicas, Gather(policy, group.members, samples, now));
      d.Act? ==> Toward(group.replicas, d.replicas, Goal(policy, cpu, memory))
  {
    var g := Gather(policy, group.members, samples, now);
    var c, m := Share(cpu, group.replicas), Share(memory, group.replicas);
    assert Averages(g, c, m) by {
      EvenGathers(policy, group.members, samples, now, c, m);
      EvenTotalsAverage(g, c, m);
    }
    SharesMoveToward(policy, group.replicas, g, cpu, memory);
  }

  lemma SharesMoveToward(policy: Policy, replicas: int, g: Gathering, cpu: real, memory: real)
    requires ValidPolicy(policy) && 1 <= policy.min <= replicas <= policy.max
    requires Averages(g, Share(cpu, replicas), Share(memory, replicas))
    ensures
      var d := Conclude(policy, replicas, g);
      d.Act? ==> Toward(replicas, d.replicas, Goal(policy, cpu, memory))
  {
    var c, m := Share(cpu, replicas), Share(memory, replicas);
    EvenPressure(policy, replicas, cpu, memory);
    AveragesMoveToward(policy, replicas, g, c, m, HardestPressed(policy, c, m).value, Load(policy, cpu, memory));
  }

  lemma GathersTheWhole(policy: Policy, members: seq<Member>, samples: map<string, Sample>, now: int,
                        ready: nat, cpu: real, memory: real)
    requires ready == Warm(members, now) && ready >= 1
    requires AllReport(members, samples, now, Share(cpu, ready), Share(memory, ready))
    ensures Gather(policy, members, samples, now) == Totals(ready, cpu, memory)
  {
    EvenGathers(policy, members, samples, now, Share(cpu, ready), Share(memory, ready));
    SharesAddUp(ready, cpu);
    SharesAddUp(ready, memory);
  }

  lemma CarriedByWarmMovesToward(policy: Policy, group: Group, samples: map<string, Sample>, now: int, cpu: real,
                                 memory: real)
    requires ValidPolicy(policy) && policy.min <= group.replicas <= policy.max
    requires CarriedByWarm(group, samples, now, cpu, memory)
    ensures
      var d := Conclude(policy, group.replicas, Gather(policy, group.members, samples, now));
      d.Act? ==> Toward(group.replicas, d.replicas, Goal(policy, cpu, memory))
  {
    var ready := Warm(group.members, now);
    GathersTheWhole(policy, group.members, samples, now, ready, cpu, memory);
    EnoughWarmMovesToward(policy, group.replicas, ready, cpu, memory);
  }

  lemma EvenLoadMovesToward(policy: Policy, group: Group, samples: map<string, Sample>, now: int, cpu: real,
                            memory: real)
    requires ValidPolicy(policy) && policy.min <= group.replicas <= policy.max
    requires Even(group, samples, now, cpu, memory)
    ensures
      var d := Decide(policy, group, samples, now);
      d.Act? ==> Toward(group.replicas, d.replicas, Goal(policy, cpu, memory))
  {
    if CarriedByWarm(group, samples, now, cpu, memory) {
      CarriedByWarmMovesToward(policy, group, samples, now, cpu, memory);
    } else {
      SpreadOverAllMovesToward(policy, group, samples, now, cpu, memory);
    }
  }

  // ----- when it acts -----

  /** The count is close enough to the load, or where the load wants it. */
  ghost predicate Calm(policy: Policy, replicas: int, cpu: real, memory: real)
    requires ValidPolicy(policy) && replicas >= 1
  {
    || Abs(LoadOfEach(policy, replicas, cpu, memory) - 1.0) <= DEADBAND
    || Goal(policy, cpu, memory) == replicas
  }

  /** Nothing but the load keeps the service from being scaled. */
  ghost predicate Able(policy: Policy, group: Group, now: int) {
    && group.settled
    && (policy.lastAt.None? || policy.lastAt.value + COOLDOWN <= now)
    && (exists i :: 0 <= i < |group.members| && now - group.members[i].createdAt >= WARMUP)
  }

  ghost predicate SpreadOverAll(group: Group, samples: map<string, Sample>, now: int, cpu: real, memory: real) {
    && group.replicas >= 1
    && AllReport(group.members, samples, now, Share(cpu, group.replicas), Share(memory, group.replicas))
  }

  lemma {:induction false} SomeAreWarmIff(members: seq<Member>, now: int)
    ensures Warm(members, now) >= 1 <==> exists i :: 0 <= i < |members| && now - members[i].createdAt >= WARMUP
  {
    if members != [] {
      var front := members[..|members| - 1];
      SomeAreWarmIff(front, now);
      if i :| 0 <= i < |members| && now - members[i].createdAt >= WARMUP && i < |members| - 1 {
        assert front[i] == members[i];
      }
    }
  }

  /** Every warm replica has a fresh report, with what the policy needs of it. */
  ghost predicate AllHeard(policy: Policy, members: seq<Member>, samples: map<string, Sample>, now: int) {
    forall i | 0 <= i < |members| && now - members[i].createdAt >= WARMUP ::
      var id := members[i].instance;
      && id in samples && now - samples[id].reportedAt <= STALE_LOAD
      && (policy.targetMemory > 0 ==> samples[id].memoryKnown)
  }

  lemma {:induction false} GathersIffHeard(policy: Policy, members: seq<Member>, samples: map<string, Sample>,
                                           now: int)
    ensures Gather(policy, members, samples, now).Totals? <==> AllHeard(policy, members, samples, now)
    ensures Gather(policy, members, samples, now).Totals? ==>
      Gather(policy, members, samples, now).ready == Warm(members, now)
  {
    if members != [] {
      var front, last := members[..|members| - 1], members[|members| - 1];
      GathersIffHeard(policy, front, samples, now);
      assert members == front + [last];
      assert AllHeard(policy, members, samples, now) <==>
        AllHeard(policy, front, samples, now) && AllHeard(policy, [last], samples, now) by {
        assert forall i | 0 <= i < |front| :: front[i] == members[i];
        assert [last][0] == members[|front|];
      }
    }
  }

  /** One warm replica that cannot be read, however many can, and nothing is scaled. */
  lemma UnheardIsLeftAlone(policy: Policy, group: Group, samples: map<string, Sample>, now: int)
    requires !AllHeard(policy, group.members, samples, now)
    ensures Decide(policy, group, samples, now).Stay?
  {
    GathersIffHeard(policy, group.members, samples, now);
  }

  lemma StepStaysIff(from: int, to: int, low: int, high: int)
    requires low <= from <= high
    ensures Clamp(Step(from, to), low, high) == from <==> Clamp(to, low, high) == from
  {
  }

  lemma JudgeActsIff(policy: Policy, replicas: int, worst: Pressure, demand: real, load: real)
    requires policy.min <= replicas <= policy.max && replicas as real * demand == load
    ensures
      JudgeBy(policy, replicas, worst, demand).Act? <==>
        Abs(demand - 1.0) > DEADBAND && Clamp(Ceil(load), policy.min, policy.max) != replicas
  {
    StepStaysIff(replicas, Ceil(load), policy.min, policy.max);
    assert Wanted(policy, replicas, demand) == Clamp(Step(replicas, Ceil(load)), policy.min, policy.max);
  }

  lemma PerReplica(replicas: int, demand: real, load: real)
    requires replicas >= 1 && replicas as real * demand == load
    ensures demand == load / replicas as real
  {
  }

  /** Under a load spread over all replicas the sums, if anyone is warm, come to this judgement. */
  lemma SpreadIsJudged(policy: Policy, group: Group, samples: map<string, Sample>, now: int, cpu: real, memory: real)
    requires ValidPolicy(policy) && SpreadOverAll(group, samples, now, cpu, memory)
    ensures
      var worst := HardestPressed(policy, Share(cpu, group.replicas), Share(memory, group.replicas));
      && worst.Some? && worst.value.target > 0
      && worst.value.Demand() == LoadOfEach(policy, group.replicas, cpu, memory)
      && group.replicas as real * worst.value.Demand() == Load(policy, cpu, memory)
      && Conclude(policy, group.replicas, Gather(policy, group.members, samples, now)) ==
         if Warm(group.members, now) == 0 then Stay(AllWarming) else Judge(policy, group.replicas, worst.value)
  {
    var g, c, m := Gather(policy, group.members, samples, now), Share(cpu, group.replicas),
      Share(memory, group.replicas);
    EvenGathers(policy, group.members, samples, now, c, m);
    EvenTotalsAverage(g, c, m);
    EvenPressure(policy, group.replicas, cpu, memory);
    PerReplica(group.replicas, HardestPressed(policy, c, m).value.Demand(), Load(policy, cpu, memory));
  }

  /**
   Under a load spread over all replicas the service is scaled exactly if it is settled, never was scaled
   or not within the cooldown, has a warm replica, and its count is neither close enough nor at the goal.
   */
  lemma DecidesIff(policy: Policy, group: Group, samples: map<string, Sample>, now: int, cpu: real, memory: real)
    requires ValidPolicy(policy) && policy.min <= group.replicas <= policy.max
    requires SpreadOverAll(group, samples, now, cpu, memory)
    ensures
      Decide(policy, group, samples, now).Act? <==>
        Able(policy, group, now) && !Calm(policy, group.replicas, cpu, memory)
  {
    SomeAreWarmIff(group.members, now);
    if Able(policy, group, now) {
      AbleIsJudged(policy, group, samples, now, cpu, memory);
      ActsOnLoadIff(policy, group.replicas,
                    HardestPressed(policy, Share(cpu, group.replicas), Share(memory, group.replicas)).value,
                    cpu, memory);
    } else if Warm(group.members, now) == 0 {
      SpreadIsJudged(policy, group, samples, now, cpu, memory);
    }
  }

  lemma ActsOnLoadIff(policy: Policy, replicas: int, worst: Pressure, cpu: real, memory: real)
    requires ValidPolicy(policy) && policy.min <= replicas <= policy.max
    ensures JudgeBy(policy, replicas, worst, LoadOfEach(policy, replicas, cpu, memory)).Act? <==>
      !Calm(policy, replicas, cpu, memory)
  {
    EachAddsUp(policy, replicas, cpu, memory);
    JudgeActsIff(policy, replicas, worst, LoadOfEach(policy, replicas, cpu, memory), Load(policy, cpu, memory));
  }

  /** Why an able service is left alone or scaled, by its load and its limits alone. */
  function ReasonFor(policy: Policy, replicas: int, worst: Pressure, demand: real, load: real): Reason {
    if demand > 1.0 + DEADBAND then (if replicas == policy.max then AtMaximum(worst) else Pressed(worst))
    else if demand >= 1.0 - DEADBAND then CloseEnough(worst)
    else if replicas == policy.min then AtMinimum(worst)
    else if load > (replicas - 1) as real then DoesNotMove(worst)
    else Pressed(worst)
  }

  lemma JudgedBecause(policy: Policy, replicas: int, worst: Pressure, demand: real, load: real)
    requires ValidPolicy(policy) && policy.min <= replicas <= policy.max && replicas as real * demand == load
    ensures JudgeBy(policy, replicas, worst, demand).reason == ReasonFor(policy, replicas, worst, demand, load)
    ensures JudgeBy(policy, replicas, worst, demand).Act? <==> JudgeBy(policy, replicas, worst, demand).reason.Pressed?
    ensures JudgeBy(policy, replicas, worst, demand).reason.DoesNotMove? ==> replicas < 7
  {
    if Abs(demand - 1.0) > DEADBAND {
      PastTheDeadband(replicas, demand, load);
      assert Wanted(policy, replicas, demand) == Clamp(Step(replicas, Ceil(load)), policy.min, policy.max);
      assert demand > 1.0 ==> Ceil(load) > replicas;
    }
  }

  /**
   The reason given for an able service follows from its load: at the maximum exactly if a load beyond
   the deadband finds the count there, at the minimum likewise. Only below seven replicas can a lighter
   load still need, rounded up, all there are.
   */
  lemma StaysBecause(policy: Policy, group: Group, samples: map<string, Sample>, now: int, cpu: real, memory: real)
    requires ValidPolicy(policy) && policy.min <= group.replicas <= policy.max && Able(policy, group, now)
    requires SpreadOverAll(group, samples, now, cpu, memory)
    ensures
      var d := Decide(policy, group, samples, now);
      var worst := HardestPressed(policy, Share(cpu, group.replicas), Share(memory, group.replicas));
      var each := LoadOfEach(policy, group.replicas, cpu, memory);
      && worst.Some?
      && d.reason == ReasonFor(policy, group.replicas, worst.value, each, Load(policy, cpu, memory))
      && (d.reason.DoesNotMove? ==> group.replicas < 7)
  {
    var worst := HardestPressed(policy, Share(cpu, group.replicas), Share(memory, group.replicas));
    AbleIsJudged(policy, group, samples, now, cpu, memory);
    BecauseOfLoad(policy, group.replicas, worst.value, cpu, memory);
  }

  lemma BecauseOfLoad(policy: Policy, replicas: int, worst: Pressure, cpu: real, memory: real)
    requires ValidPolicy(policy) && policy.min <= replicas <= policy.max
    ensures
      var each := LoadOfEach(policy, replicas, cpu, memory);
      var d := JudgeBy(policy, replicas, worst, each);
      && d.reason == ReasonFor(policy, replicas, worst, each, Load(policy, cpu, memory))
      && (d.reason.DoesNotMove? ==> replicas < 7)
  {
    EachAddsUp(policy, replicas, cpu, memory);
    JudgedBecause(policy, replicas, worst, LoadOfEach(policy, replicas, cpu, memory), Load(policy, cpu, memory));
  }

  lemma EachAddsUp(policy: Policy, replicas: int, cpu: real, memory: real)
    requires ValidPolicy(policy) && replicas >= 1
    ensures replicas as real * LoadOfEach(policy, replicas, cpu, memory) == Load(policy, cpu, memory)
  {
  }

  lemma AbleIsJudged(policy: Policy, group: Group, samples: map<string, Sample>, now: int, cpu: real, memory: real)
    requires ValidPolicy(policy) && Able(policy, group, now) && SpreadOverAll(group, samples, now, cpu, memory)
    ensures
      var worst := HardestPressed(policy, Share(cpu, group.replicas), Share(memory, group.replicas));
      var each := LoadOfEach(policy, group.replicas, cpu, memory);
      worst.Some? && Decide(policy, group, samples, now) == JudgeBy(policy, group.replicas, worst.value, each)
  {
    SomeAreWarmIff(group.members, now);
    SpreadIsJudged(policy, group, samples, now, cpu, memory);
  }

  lemma SharesAddUp(ready: nat, total: real)
    requires ready >= 1
    ensures ready as real * Share(total, ready) == total
  {
  }

  // ----- runs -----

  /** One pass over one policy: what it reads, whether scaling and recording succeed. */
  datatype Turn = Turn(now: int, group: Group, samples: map<string, Sample>, scales: bool, records: bool,
    recordedAt: int)

  function Applied(policy: Policy, t: Turn): Policy {
    var d := Decide(policy, t.group, t.samples, t.now);
    if d.Act? && t.scales && t.records then policy.(lastAt := Some(t.recordedAt)) else policy
  }

  predicate Scales(policy: Policy, t: Turn) {
    Decide(policy, t.group, t.samples, t.now).Act? && t.scales
  }

  /** The replica count the service is left at. */
  function Count(policy: Policy, t: Turn): int {
    if Scales(policy, t) then Decide(policy, t.group, t.samples, t.now).replicas else t.group.replicas
  }

  /** The policy before turn `k`. */
  function PolicyAt(policy: Policy, turns: seq<Turn>, k: nat): Policy
    requires k <= |turns|
  {
    if k == 0 then policy else Applied(PolicyAt(policy, turns, k - 1), turns[k - 1])
  }

  predicate ScalesAt(policy: Policy, turns: seq<Turn>, k: nat)
    requires k < |turns|
  {
    Scales(PolicyAt(policy, turns, k), turns[k])
  }

  /** Nobody else resizes the service: each turn finds the count the one before left. */
  ghost predicate Undisturbed(policy: Policy, turns: seq<Turn>) {
    forall k: nat {:trigger ScalesAt(policy, turns, k)} | k + 1 < |turns| ::
      turns[k + 1].group.replicas == Count(PolicyAt(policy, turns, k), turns[k])
  }

  ghost predicate EvenThroughout(turns: seq<Turn>, cpu: real, memory: real) {
    forall k | 0 <= k < |turns| :: Even(turns[k].group, turns[k].samples, turns[k].now, cpu, memory)
  }

  function Actions(policy: Policy, turns: seq<Turn>, k: nat): nat
    requires k <= |turns|
  {
    if k == 0 then 0
    else Actions(policy, turns, k - 1) + if ScalesAt(policy, turns, k - 1) then 1 else 0
  }

  /** Actions still possible from `from`. */
  function Left(from: int, goal: int): nat {
    (if from < goal then goal - from + 3 else from - goal + 3) / 4
  }

  lemma {:induction false} PolicyKeepsLimits(policy: Policy, turns: seq<Turn>, k: nat)
    requires k <= |turns|
    ensures PolicyAt(policy, turns, k) == policy.(lastAt := PolicyAt(policy, turns, k).lastAt)
  {
    if k > 0 {
      PolicyKeepsLimits(policy, turns, k - 1);
    }
  }

  /** Every scaling turn of the run goes toward the goal. */
  lemma ScalesToward(policy: Policy, turns: seq<Turn>, cpu: real, memory: real, k: nat)
    requires ValidPolicy(policy) && EvenThroughout(turns, cpu, memory)
    requires k < |turns| && policy.min <= turns[k].group.replicas <= policy.max
    ensures
      var at, next := turns[k].group.replicas, Count(PolicyAt(policy, turns, k), turns[k]);
      && policy.min <= next <= policy.max
      && (ScalesAt(policy, turns, k) ==> Toward(at, next, Goal(policy, cpu, memory)))
  {
    PolicyKeepsLimits(policy, turns, k);
    var p, t := PolicyAt(policy, turns, k), turns[k];
    EvenLoadMovesToward(p, t.group, t.samples, t.now, cpu, memory);
    ActionsAreBounded(p, t.group, t.samples, t.now);
  }

  lemma TowardUsesUpLeft(from: int, to: int, goal: int)
    requires Toward(from, to, goal)
    ensures Left(to, goal) + 1 <= Left(from, goal)
  {
  }

  lemma {:induction false} ActionsUseUpTheDistance(policy: Policy, turns: seq<Turn>, cpu: real, memory: real, k: nat)
    requires ValidPolicy(policy) && Undisturbed(policy, turns) && EvenThroughout(turns, cpu, memory)
    requires k < |turns| && policy.min <= turns[0].group.replicas <= policy.max
    ensures
      var goal, next := Goal(policy, cpu, memory), Count(PolicyAt(policy, turns, k), turns[k]);
      && policy.min <= turns[k].group.replicas <= policy.max
      && policy.min <= next <= policy.max
      && Actions(policy, turns, k + 1) + Left(next, goal) <= Left(turns[0].group.replicas, goal)
  {
    if k > 0 {
      ActionsUseUpTheDistance(policy, turns, cpu, memory, k - 1);
      var _ := ScalesAt(policy, turns, k - 1);
    }
    ScalesToward(policy, turns, cpu, memory, k);
    if ScalesAt(policy, turns, k) {
      TowardUsesUpLeft(turns[k].group.replicas, Count(PolicyAt(policy, turns, k), turns[k]), Goal(policy, cpu, memory));
    }
  }

  /**
   Under a constant load, spread evenly, at most eight actions ever happen however long the run;
   once the goal is reached nothing changes any more.
   */
  lemma AtMostEightActions(policy: Policy, turns: seq<Turn>, cpu: real, memory: real)
    requires ValidPolicy(policy) && Undisturbed(policy, turns) && EvenThroughout(turns, cpu, memory)
    requires |turns| > 0 && policy.min <= turns[0].group.replicas <= policy.max
    ensures Actions(policy, turns, |turns|) <= Left(turns[0].group.replicas, Goal(policy, cpu, memory)) <= 8
    ensures forall k | 0 <= k < |turns| && turns[k].group.replicas == Goal(policy, cpu, memory) ::
      !ScalesAt(policy, turns, k)
  {
    ActionsUseUpTheDistance(policy, turns, cpu, memory, |turns| - 1);
    forall k | 0 <= k < |turns| && turns[k].group.replicas == Goal(policy, cpu, memory)
      ensures !ScalesAt(policy, turns, k)
    {
      ActionsUseUpTheDistance(policy, turns, cpu, memory, k);
      ScalesToward(policy, turns, cpu, memory, k);
    }
  }

  // ----- the goal is reached -----

  /** The turn could scale, succeeds if it does, and hears this load spread over all replicas. */
  ghost predicate AbleAt(policy: Policy, turns: seq<Turn>, cpu: real, memory: real, k: nat)
    requires k < |turns|
  {
    && SpreadOverAll(turns[k].group, turns[k].samples, turns[k].now, cpu, memory)
    && Able(PolicyAt(policy, turns, k), turns[k].group, turns[k].now) && turns[k].scales
  }

  ghost predicate AbleThroughout(policy: Policy, turns: seq<Turn>, cpu: real, memory: real) {
    forall k: nat | k < |turns| :: AbleAt(policy, turns, cpu, memory, k)
  }

  lemma AbleIsEven(policy: Policy, turns: seq<Turn>, cpu: real, memory: real)
    requires AbleThroughout(policy, turns, cpu, memory)
    ensures EvenThroughout(turns, cpu, memory)
  {
    forall k | 0 <= k < |turns| ensures Even(turns[k].group, turns[k].samples, turns[k].now, cpu, memory) {
      assert AbleAt(policy, turns, cpu, memory, k);
    }
  }

  lemma ScalesUnlessCalm(policy: Policy, turns: seq<Turn>, cpu: real, memory: real, k: nat)
    requires ValidPolicy(policy) && Undisturbed(policy, turns) && AbleThroughout(policy, turns, cpu, memory)
    requires k < |turns| && policy.min <= turns[0].group.replicas <= policy.max
    ensures policy.min <= turns[k].group.replicas <= policy.max
    ensures ScalesAt(policy, turns, k) <==> !Calm(policy, turns[k].group.replicas, cpu, memory)
  {
    AbleIsEven(policy, turns, cpu, memory);
    assert AbleAt(policy, turns, cpu, memory, k);
    ActionsUseUpTheDistance(policy, turns, cpu, memory, k);
    PolicyKeepsLimits(policy, turns, k);
    DecidesIff(PolicyAt(policy, turns, k), turns[k].group, turns[k].samples, turns[k].now, cpu, memory);
  }

  lemma {:induction false} RestlessActions(policy: Policy, turns: seq<Turn>, k: nat)
    requires k <= |turns| && forall m: nat | m < k :: ScalesAt(policy, turns, m)
    ensures Actions(policy, turns, k) == k
  {
    if k > 0 {
      RestlessActions(policy, turns, k - 1);
    }
  }

  lemma CalmIsKept(policy: Policy, turns: seq<Turn>, k: nat)
    requires Undisturbed(policy, turns) && k + 1 < |turns| && !ScalesAt(policy, turns, k)
    ensures turns[k + 1].group.replicas == turns[k].group.replicas
  {
  }

  lemma {:induction false} CalmStays(policy: Policy, turns: seq<Turn>, cpu: real, memory: real, k: nat, m: nat)
    requires ValidPolicy(policy) && Undisturbed(policy, turns) && AbleThroughout(policy, turns, cpu, memory)
    requires k <= m < |turns| && policy.min <= turns[0].group.replicas <= policy.max
    requires !ScalesAt(policy, turns, k)
    ensures turns[m].group.replicas == turns[k].group.replicas && !ScalesAt(policy, turns, m)
  {
    if k < m {
      CalmStays(policy, turns, cpu, memory, k, m - 1);
      CalmIsKept(policy, turns, m - 1);
      SameCountSameCalm(policy, turns, cpu, memory, k, m);
    }
  }

  lemma SameCountSameCalm(policy: Policy, turns: seq<Turn>, cpu: real, memory: real, k: nat, m: nat)
    requires ValidPolicy(policy) && Undisturbed(policy, turns) && AbleThroughout(policy, turns, cpu, memory)
    requires k < |turns| && m < |turns| && policy.min <= turns[0].group.replicas <= policy.max
    requires turns[m].group.replicas == turns[k].group.replicas
    ensures ScalesAt(policy, turns, k) <==> ScalesAt(policy, turns, m)
  {
    ScalesUnlessCalm(policy, turns, cpu, memory, k);
    ScalesUnlessCalm(policy, turns, cpu, memory, m);
  }

  /** From turn `k` on the count stands, close enough to the load or at the goal. */
  ghost predicate StandsFrom(policy: Policy, turns: seq<Turn>, cpu: real, memory: real, k: nat)
    requires ValidPolicy(policy) && k < |turns|
  {
    && turns[k].group.replicas >= 1 && Calm(policy, turns[k].group.replicas, cpu, memory)
    && forall m | k <= m < |turns| :: turns[m].group.replicas == turns[k].group.replicas
  }

  /**
   If every turn is able to scale, a constant load spread over all replicas has the count close enough or
   at the goal after at most eight actions, one a turn, and there it stands for the rest of the run.
   */
  lemma GoalIsReached(policy: Policy, turns: seq<Turn>, cpu: real, memory: real)
    requires ValidPolicy(policy) && Undisturbed(policy, turns) && AbleThroughout(policy, turns, cpu, memory)
    requires |turns| > 8 && policy.min <= turns[0].group.replicas <= policy.max
    ensures exists k: nat {:trigger StandsFrom(policy, turns, cpu, memory, k)} | k <= 8 ::
      StandsFrom(policy, turns, cpu, memory, k)
  {
    AbleIsEven(policy, turns, cpu, memory);
    ActionsUseUpTheDistance(policy, turns, cpu, memory, 8);
    if forall m: nat | m < 9 :: ScalesAt(policy, turns, m) {
      RestlessActions(policy, turns, 9);
    } else {
      var k: nat :| k < 9 && !ScalesAt(policy, turns, k);
      ScalesUnlessCalm(policy, turns, cpu, memory, k);
      forall m | k <= m < |turns| ensures turns[m].group.replicas == turns[k].group.replicas {
        CalmStays(policy, turns, cpu, memory, k, m);
      }
      assert StandsFrom(policy, turns, cpu, memory, k);
    }
  }

  /** The clock never goes back, and every action is recorded no earlier than it was decided. */
  ghost predicate Recorded(turns: seq<Turn>) {
    && (forall i, j | 0 <= i <= j < |turns| :: turns[i].now <= turns[j].now)
    && (forall i | 0 <= i < |turns| :: turns[i].records && turns[i].now <= turns[i].recordedAt)
  }

  lemma {:induction false} LastActionIsRemembered(policy: Policy, turns: seq<Turn>, i: nat, k: nat)
    requires Recorded(turns) && i < k <= |turns| && ScalesAt(policy, turns, i)
    ensures PolicyAt(policy, turns, k).lastAt.Some? && PolicyAt(policy, turns, k).lastAt.value >= turns[i].now
  {
    if k > i + 1 {
      LastActionIsRemembered(policy, turns, i, k - 1);
    }
  }

  /** Any two actions are at least the cooldown apart. */
  lemma ActionsAreSpaced(policy: Policy, turns: seq<Turn>, i: nat, j: nat)
    requires Recorded(turns) && i < j < |turns| && ScalesAt(policy, turns, i) && ScalesAt(policy, turns, j)
    ensures turns[j].now - turns[i].now >= COOLDOWN
  {
    LastActionIsRemembered(policy, turns, i, j);
  }

  // ----- the code -----

  /** `policies` by id; `replicas` is what the service module was last told, by service. */
  class Autoscaler {
    var policies: map<string, Policy>
    var replicas: map<string, int>

    constructor ()
      ensures policies == map[] && replicas == map[]
    {
      policies, replicas := map[], map[];
    }

    method Apply(id: string, turn: Turn) returns (changed: bool)
      requires id in policies
      modifies this
      ensures changed == Scales(old(policies)[id], turn)
      ensures policies == old(policies)[id := Applied(old(policies)[id], turn)]
      ensures replicas == if changed then old(replicas)[old(policies)[id].service := Count(old(policies)[id], turn)]
        else old(replicas)
    {
      var policy := policies[id];
      var decision := DecideByLoop(policy, turn.group, turn.samples, turn.now);
      if decision.Stay? || !turn.scales {
        assert policies == policies[id := policy];
        return false;
      }
      replicas := replicas[policy.service := decision.replicas];
      policies := policies[id := if turn.records then policy.(lastAt := Some(turn.recordedAt)) else policy];
      return true;
    }

    /**
     One sweep gives every policy its turn, and drops the policies of services that are gone.
     `turns` holds the services that still exist; deleting a policy may fail.
     */
    method Sweep(order: seq<string>, turns: map<string, Turn>, deletes: bool)
      requires forall i | 0 <= i < |order| :: order[i] in policies
      requires forall i, j | 0 <= i < j < |order| :: order[i] != order[j]
      requires forall a, b | a in policies && b in policies && a != b :: policies[a].service != policies[b].service
      modifies this
      ensures forall id | id in old(policies) ::
        SweptRight(old(policies)[id], old(replicas), id, id in order, turns, deletes)
    {
      for k := 0 to |order|
        invariant forall id | id in old(policies) ::
          SweptRight(old(policies)[id], old(replicas), id, id in order[..k], turns, deletes)
      {
        var id := order[k];
        assert order[..k + 1] == order[..k] + [id] && id !in order[..k];
        var policy := policies[id];
        if policy.service !in turns {
          if deletes { policies := policies - {id}; }
        } else {
          var _ := Apply(id, turns[policy.service]);
        }
      }
      assert order[..|order|] == order;
    }

    /** Policy `id`, once `was`, and its service are as one turn leaves them; untouched without a turn. */
    ghost predicate SweptRight(was: Policy, had: map<string, int>, id: string, visited: bool,
                               turns: map<string, Turn>, deletes: bool)
      reads this
    {
      if !visited then
        Lookup(policies, id) == Some(was) && Lookup(replicas, was.service) == Lookup(had, was.service)
      else if was.service !in turns then
        Lookup(policies, id) == (if deletes then None else Some(was))
          && Lookup(replicas, was.service) == Lookup(had, was.service)
      else
        var turn := turns[was.service];
        && Lookup(policies, id) == Some(Applied(was, turn))
        && Lookup(replicas, was.service) == if Scales(was, turn) then Some(Count(was, turn))
          else Lookup(had, was.service)
    }
  }
}

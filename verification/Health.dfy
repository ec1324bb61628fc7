/** Settling a backend's health from single probes (internal/agent/health.go). */
module Health {
  datatype ProbeState = ProbeState(passes: nat, failures: nat, verdict: bool, settled: bool)

  const UNKNOWN := ProbeState(0, 0, false, false)

  function Settled(s: ProbeState, passed: bool, rise: int, fall: int): ProbeState {
    var counted := if passed then s.(failures := 0, passes := s.passes + 1)
                   else s.(passes := 0, failures := s.failures + 1);
    if counted.passes >= rise then counted.(verdict := true, settled := true)
    else if counted.failures >= fall then counted.(verdict := false, settled := true)
    else counted
  }

  /** The state after the first `k` probes of the history. */
  function At(h: seq<bool>, rise: int, fall: int, k: nat): ProbeState
    requires k <= |h|
  {
    if k == 0 then UNKNOWN else Settled(At(h, rise, fall, k - 1), h[k - 1], rise, fall)
  }

  /** The last `n` of the first `k` probes all came out as `passed`. */
  ghost predicate Streak(h: seq<bool>, k: nat, n: int, passed: bool) {
    n <= k <= |h| && forall i | k - n <= i < k :: 0 <= i ==> h[i] == passed
  }

  ghost predicate UpPoint(h: seq<bool>, rise: int, k: nat) {
    Streak(h, k, rise, true)
  }

  ghost predicate DownPoint(h: seq<bool>, fall: int, k: nat) {
    Streak(h, k, fall, false)
  }

  ghost predicate Point(h: seq<bool>, rise: int, fall: int, k: nat) {
    UpPoint(h, rise, k) || DownPoint(h, fall, k)
  }

  /** The counters are the lengths of the trailing runs. */
  lemma {:induction false} CountersAreRuns(h: seq<bool>, rise: int, fall: int, k: nat, n: int)
    requires k <= |h| && n >= 1
    ensures UpPoint(h, n, k) <==> At(h, rise, fall, k).passes >= n
    ensures DownPoint(h, n, k) <==> At(h, rise, fall, k).failures >= n
  {
    if k > 0 {
      if n > 1 {
        CountersAreRuns(h, rise, fall, k - 1, n - 1);
        assert UpPoint(h, n, k) <==> h[k - 1] && UpPoint(h, n - 1, k - 1);
        assert DownPoint(h, n, k) <==> !h[k - 1] && DownPoint(h, n - 1, k - 1);
      } else {
        assert UpPoint(h, 1, k) <==> h[k - 1];
        assert DownPoint(h, 1, k) <==> !h[k - 1];
      }
    }
  }

  ghost predicate Latest(h: seq<bool>, rise: int, fall: int, k: nat, p: nat) {
    p <= k && Point(h, rise, fall, p) && forall q: nat | p < q <= k :: !Point(h, rise, fall, q)
  }

  /**
   The streamed verdict is that of the latest point where the last `rise` probes all passed or the
   last `fall` all failed, and is unsettled exactly while there is no such point.
   */
  lemma {:induction false} VerdictIsLatestPoint(h: seq<bool>, rise: int, fall: int, k: nat)
    requires k <= |h| && rise >= 1 && fall >= 1
    ensures At(h, rise, fall, k).settled <==> exists p: nat :: p <= k && Point(h, rise, fall, p)
    ensures forall p: nat | Latest(h, rise, fall, k, p) :: At(h, rise, fall, k).verdict == UpPoint(h, rise, p)
    ensures !At(h, rise, fall, k).settled ==> !At(h, rise, fall, k).verdict
  {
    if k > 0 {
      VerdictIsLatestPoint(h, rise, fall, k - 1);
      CountersAreRuns(h, rise, fall, k, rise);
      CountersAreRuns(h, rise, fall, k, fall);
      assert At(h, rise, fall, k).settled <==> At(h, rise, fall, k - 1).settled || Point(h, rise, fall, k);
      if p: nat :| p <= k && Point(h, rise, fall, p) {
        assert p < k ==> At(h, rise, fall, k - 1).settled;
      }
      forall p: nat | Latest(h, rise, fall, k, p) ensures At(h, rise, fall, k).verdict == UpPoint(h, rise, p) {
        assert p < k ==> Latest(h, rise, fall, k - 1, p) && !Point(h, rise, fall, k);
      }
    }
  }

  ghost predicate Up(h: seq<bool>, rise: int, fall: int, k: nat)
    requires k <= |h|
  {
    At(h, rise, fall, k).settled && At(h, rise, fall, k).verdict
  }

  ghost predicate FlipUp(h: seq<bool>, rise: int, fall: int, k: nat) {
    0 < k <= |h| && Up(h, rise, fall, k) && !Up(h, rise, fall, k - 1)
  }

  lemma FlipUpIsPoint(h: seq<bool>, rise: int, fall: int, k: nat)
    requires rise >= 1 && fall >= 1 && FlipUp(h, rise, fall, k)
    ensures UpPoint(h, rise, k)
  {
    CountersAreRuns(h, rise, fall, k, rise);
  }

  /** Going from up to not up passes through a point of `fall` failures. */
  lemma {:induction false} DownInBetween(h: seq<bool>, rise: int, fall: int, i: nat, j: nat) returns (m: nat)
    requires rise >= 1 && fall >= 1 && i < j <= |h| && Up(h, rise, fall, i) && !Up(h, rise, fall, j)
    ensures i < m <= j && DownPoint(h, fall, m)
  {
    if Up(h, rise, fall, j - 1) {
      m := j;
      CountersAreRuns(h, rise, fall, j, fall);
    } else {
      m := DownInBetween(h, rise, fall, i, j - 1);
    }
  }

  /** Two flips to up are at least `rise + fall` probes apart. */
  lemma FlipsAreApart(h: seq<bool>, rise: int, fall: int, i: nat, j: nat)
    requires rise >= 1 && fall >= 1 && i < j && FlipUp(h, rise, fall, i) && FlipUp(h, rise, fall, j)
    ensures j - i >= rise + fall
  {
    FlipUpIsPoint(h, rise, fall, i);
    FlipUpIsPoint(h, rise, fall, j);
    assert h[i - 1];
    var m := DownInBetween(h, rise, fall, i, j - 1);
    assert !h[m - 1];
  }

  // ----- the code -----

  class Prober {
    var probes: map<string, ProbeState>

    constructor ()
      ensures probes == map[]
    {
      probes := map[];
    }

    method Settle(key: string, passed: bool, rise: int, fall: int) returns (verdict: bool, changed: bool)
      modifies this
      ensures
        var before := if key in old(probes) then old(probes)[key] else UNKNOWN;
        && probes == old(probes)[key := Settled(before, passed, rise, fall)]
        && verdict == probes[key].verdict
        && changed == (!before.settled || before.verdict != verdict)
    {
      var state := if key in probes then probes[key] else UNKNOWN;
      var before, wasSettled := state.verdict, state.settled;
      if passed {
        state := state.(failures := 0, passes := state.passes + 1);
      } else {
        state := state.(passes := 0, failures := state.failures + 1);
      }
      if state.passes >= rise {
        state := state.(verdict := true, settled := true);
      } else if state.failures >= fall {
        state := state.(verdict := false, settled := true);
      }
      probes := probes[key := state];
      return state.verdict, !wasSettled || before != state.verdict;
    }

    method ForgetProbes(wanted: set<string>)
      modifies this
      ensures probes == map k | k in old(probes) && k in wanted :: old(probes)[k]
    {
      var pending := probes.Keys;
      while pending != {}
        invariant pending <= old(probes).Keys
        invariant probes == map k | k in old(probes) && (k in pending || k in wanted) :: old(probes)[k]
      {
        var key :| key in pending;
        pending := pending - {key};
        if key !in wanted {
          probes := probes - {key};
        }
      }
    }
  }
}

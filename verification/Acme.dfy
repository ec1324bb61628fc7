/** Certificates ordered from an authority, one row per balancer (internal/platform/acme/sweep.go and service.go). */
module Acme {
  import opened Basics

  // Times are in seconds.
  const CHALLENGE_GRACE := 30
  const ORDER_LIMIT := 10 * 60
  const RENEW_BEFORE := 30 * 24 * 3600
  const EXPIRY_WARNING := 14 * 24 * 3600

  datatype State = Pending | Issued | Failed

  datatype Challenge = Challenge(token: string, authorization: string, url: string, accepted: bool)

  /** `url` and `key` are empty when there is none; `expires` is absent when it cannot be read. */
  datatype Order = Order(state: State, url: string, key: string, challenges: seq<Challenge>, expires: Option<int>,
    updated: int)

  datatype Status = StillPending | Ready | Processing | Valid | Invalid

  /** A challenge as the authority offers it; `authorization` is absent when none can be computed. */
  datatype Offer = Offer(token: string, url: string, authorization: Option<string>)

  /** An order that comes without a URL is refused before it gets here. */
  type Url = u: string | u != "" witness "u"

  datatype Opening = Opening(url: Url, offers: seq<Offer>)

  /** Everything a pass may be told; `None` and `false` stand for errors. */
  datatype Reply = Reply(
    connected: bool, opening: Option<Opening>, takes: set<string>, status: Option<Status>,
    finalized: Option<string>, chain: Option<string>, usable: Option<Option<int>>, attached: bool)

  /** What was done, in order. */
  datatype Entry = DidOpen(url: string) | DidFinalize(url: string, key: string)
    | DidAttach(url: string, chain: string, key: string)

  // ----- one pass over one row, where saves succeed -----

  function FailedRow(o: Order, now: int): Order {
    o.(state := Failed, challenges := [], updated := now)
  }

  function StartedRow(now: int): Order {
    Order(Pending, "", "", [], None, now)
  }

  function Restarted(o: Order, now: int): Order {
    o.(state := Pending, url := "", key := "", challenges := [], updated := now)
  }

  predicate AllAccepted(o: Order) {
    (forall i | 0 <= i < |o.challenges| :: o.challenges[i].accepted) && |o.challenges| > 0
  }

  predicate Authorized(offers: seq<Offer>) {
    forall i | 0 <= i < |offers| :: offers[i].authorization.Some?
  }

  function Challenges(offers: seq<Offer>): (cs: seq<Challenge>)
    requires Authorized(offers)
    ensures |cs| == |offers|
    ensures forall i | 0 <= i < |cs| ::
      cs[i] == Challenge(offers[i].token, offers[i].authorization.value, offers[i].url, false)
  {
    seq(|offers|, i requires 0 <= i < |offers| =>
      Challenge(offers[i].token, offers[i].authorization.value, offers[i].url, false))
  }

  function AcceptedOf(cs: seq<Challenge>): (now: seq<Challenge>)
    ensures |now| == |cs| && forall i | 0 <= i < |cs| :: now[i] == cs[i].(accepted := true)
  {
    seq(|cs|, i requires 0 <= i < |cs| => cs[i].(accepted := true))
  }

  predicate TakesAll(cs: seq<Challenge>, takes: set<string>) {
    forall i | 0 <= i < |cs| :: !cs[i].accepted ==> cs[i].url in takes
  }

  function OpenedRow(o: Order, now: int, r: Reply): (Order, seq<Entry>) {
    if r.opening.None? || !Authorized(r.opening.value.offers) then (FailedRow(o, now), [])
    else (o.(url := r.opening.value.url, challenges := Challenges(r.opening.value.offers), updated := now),
      [DidOpen(r.opening.value.url)])
  }

  function AcceptedRow(o: Order, now: int, r: Reply): Order {
    if now - o.updated < CHALLENGE_GRACE then o
    else if TakesAll(o.challenges, r.takes) then o.(challenges := AcceptedOf(o.challenges), updated := now)
    else FailedRow(o, now)
  }

  function CollectedRow(o: Order, now: int, r: Reply): (Order, seq<Entry>) {
    match r.status
    case None => (FailedRow(o, now), [])
    case Some(Invalid) => (FailedRow(o, now), [])
    case Some(Ready) =>
      if r.finalized.None? then (FailedRow(o, now), [])
      else (o.(key := r.finalized.value, updated := now), [DidFinalize(o.url, r.finalized.value)])
    case Some(Valid) =>
      if o.key == "" || r.chain.None? || r.usable.None? || !r.attached then (FailedRow(o, now), [])
      else (Order(Issued, "", "", [], r.usable.value, now), [DidAttach(o.url, r.chain.value, o.key)])
    case Some(_) => (if now - o.updated > ORDER_LIMIT then FailedRow(o, now) else o, [])
  }

  function Advanced(o: Order, now: int, r: Reply): (Order, seq<Entry>) {
    if !r.connected then (FailedRow(o, now), [])
    else if o.url == "" then OpenedRow(o, now, r)
    else if !AllAccepted(o) then (AcceptedRow(o, now, r), [])
    else CollectedRow(o, now, r)
  }

  datatype Life = Fresh | Expiring | Expired

  function LifeOf(expires: int, now: int): Life {
    if expires - now <= 0 then Expired else if expires - now <= EXPIRY_WARNING then Expiring else Fresh
  }

  predicate Due(o: Order, now: int) {
    o.expires.Some? && LifeOf(o.expires.value, now + RENEW_BEFORE) != Fresh
  }

  function Swept(o: Order, now: int, r: Reply): (Order, seq<Entry>) {
    match o.state
    case Pending => Advanced(o, now, r)
    case Issued => (if Due(o, now) then Restarted(o, now) else o, [])
    case Failed => (o, [])
  }

  /** A certificate is renewed from 44 days before its end on, not 30. */
  lemma RenewalIsDueIff(o: Order, now: int)
    ensures Due(o, now) <==> o.expires.Some? && o.expires.value - now <= 44 * 24 * 3600
  {
  }

  // ----- every order ends in time -----

  /** One row over passes at `times[0]`, `times[1]`, ..., until it is settled. */
  function After(o: Order, times: seq<int>, replies: seq<Reply>, k: nat): Order
    requires |times| == |replies| && k <= |times|
  {
    if k == 0 then o
    else
      var before := After(o, times, replies, k - 1);
      if before.state == Pending then Advanced(before, times[k - 1], replies[k - 1]).0 else before
  }

  ghost predicate Regular(start: int, times: seq<int>, gap: nat) {
    forall k | 0 <= k < |times| :: Gap(start, times, k) <= gap && Gap(start, times, k) >= 0
  }

  function Gap(start: int, times: seq<int>, k: nat): int
    requires k < |times|
  {
    times[k] - if k == 0 then start else times[k - 1]
  }

  /** An order that begins: pending, with nothing asked of the authority yet. */
  ghost predicate Anew(o: Order) {
    o.state == Pending && o.url == "" && o.key == "" && o.challenges == []
  }

  /** This pass hands the authority a request, because it says that the order is ready. */
  predicate Finalizes(o: Order, r: Reply) {
    o.state == Pending && r.connected && o.url != "" && AllAccepted(o) && r.status == Some(Ready) && r.finalized.Some?
  }

  /** How often that happens in the first `k` passes. */
  function Finalizations(o: Order, times: seq<int>, replies: seq<Reply>, k: nat): nat
    requires |times| == |replies| && k <= |times|
  {
    if k == 0 then 0
    else
      Finalizations(o, times, replies, k - 1)
      + if Finalizes(After(o, times, replies, k - 1), replies[k - 1]) then 1 else 0
  }

  lemma {:induction false} FinalizationsGrow(o: Order, times: seq<int>, replies: seq<Reply>, k: nat, m: nat)
    requires |times| == |replies| && k <= m <= |times|
    ensures Finalizations(o, times, replies, k) <= Finalizations(o, times, replies, m)
  {
    if k < m {
      FinalizationsGrow(o, times, replies, k, m - 1);
    }
  }

  /** An order as opened has at least one authorization. */
  ghost predicate OpensWell(r: Reply) {
    r.opening.Some? ==> r.opening.value.offers != []
  }

  ghost predicate AllOpenWell(replies: seq<Reply>) {
    forall i | 0 <= i < |replies| :: OpensWell(replies[i])
  }

  /** The longest an order can wait between two finalizations, `left` times over. */
  function Waits(left: nat, gap: nat): nat {
    left * (ORDER_LIMIT + gap)
  }

  lemma OneMoreWait(left: nat, gap: nat)
    ensures Waits(left + 1, gap) == Waits(left, gap) + ORDER_LIMIT + gap
  {
  }

  /** When a pending row is done at the latest, if it is finalized at most `left` times more. */
  function Deadline(o: Order, gap: nat, left: nat): int {
    if o.url == "" then o.updated + CHALLENGE_GRACE + 2 * gap + Waits(left + 1, gap)
    else if !AllAccepted(o) then o.updated + CHALLENGE_GRACE + gap + Waits(left + 1, gap)
    else o.updated + Waits(left + 1, gap)
  }

  /** The row has not stayed too long where it is at the time of the pass just made. */
  ghost predicate InTime(o: Order, at: int) {
    && (o.url == "" ==> at <= o.updated)
    && (o.url != "" ==> o.challenges != [])
    && (o.url != "" && !AllAccepted(o) ==> at < o.updated + CHALLENGE_GRACE)
    && (o.url != "" && AllAccepted(o) ==> at <= o.updated + ORDER_LIMIT)
  }

  /** Each pass leaves the deadline where it is or brings it nearer, at the price of a finalization. */
  lemma PassMeetsDeadline(o: Order, last: int, now: int, r: Reply, gap: nat, left: nat)
    requires o.state == Pending && InTime(o, last) && last <= now <= last + gap && OpensWell(r)
    requires Finalizes(o, r) ==> left > 0
    ensures
      var next, spent := Advanced(o, now, r).0, if Finalizes(o, r) then 1 else 0;
      next.state == Pending ==>
        InTime(next, now) && next.url != "" && Deadline(next, gap, left - spent) <= Deadline(o, gap, left)
  {
    if left > 0 {
      OneMoreWait(left, gap);
    }
  }

  /** What is known after `k` passes. */
  ghost predicate OnTrack(o: Order, times: seq<int>, gap: nat, k: nat, now: Order, left: nat, all: nat)
    requires k <= |times|
  {
    now.state == Pending ==>
      && InTime(now, if k == 0 then o.updated else times[k - 1])
      && (k > 0 ==> now.url != "")
      && Deadline(now, gap, left) <= Deadline(o, gap, all)
  }

  lemma OneMorePass(o: Order, times: seq<int>, r: Reply, gap: nat, k: nat, before: Order, left: nat, n: nat)
    requires 0 < k <= |times| && Regular(o.updated, times, gap) && OpensWell(r)
    requires before.state == Pending && OnTrack(o, times, gap, k - 1, before, left, n)
    requires Finalizes(before, r) ==> left > 0
    ensures
      OnTrack(o, times, gap, k, Advanced(before, times[k - 1], r).0, left - if Finalizes(before, r) then 1 else 0, n)
  {
    var last := if k == 1 then o.updated else times[k - 2];
    assert last <= times[k - 1] <= last + gap by {
      assert 0 <= Gap(o.updated, times, k - 1) <= gap;
    }
    PassMeetsDeadline(before, last, times[k - 1], r, gap, left);
  }

  lemma {:induction false} PassesMeetDeadline(o: Order, times: seq<int>, replies: seq<Reply>, gap: nat, n: nat, k: nat)
    requires |times| == |replies| && k <= |times| && Anew(o) && Regular(o.updated, times, gap)
    requires AllOpenWell(replies)
    requires Finalizations(o, times, replies, k) <= n
    ensures OnTrack(o, times, gap, k, After(o, times, replies, k), n - Finalizations(o, times, replies, k), n)
  {
    if k > 0 {
      var before, left := After(o, times, replies, k - 1), n - Finalizations(o, times, replies, k - 1);
      assert OnTrack(o, times, gap, k - 1, before, left, n) by {
        PassesMeetDeadline(o, times, replies, gap, n, k - 1);
      }
      if before.state == Pending {
        assert OpensWell(replies[k - 1]);
        OneMorePass(o, times, replies[k - 1], gap, k, before, left, n);
      } else {
        assert After(o, times, replies, k) == before;
      }
    }
  }

  /** How long after it begins the order is surely done at the next pass. */
  function Bound(n: nat, gap: nat): int {
    CHALLENGE_GRACE + gap + Waits(n + 1, gap)
  }

  lemma LateIsSettled(o: Order, times: seq<int>, gap: nat, k: nat, now: Order, left: nat, n: nat)
    requires Anew(o) && k < |times| && OnTrack(o, times, gap, k + 1, now, left, n)
    requires times[k] > o.updated + Bound(n, gap)
    ensures now.state != Pending
  {
    OneMoreWait(left, gap);
  }

  /**
   With passes at most `gap` apart, every order that begins, the first of a balancer or a renewal,
   and is finalized at most `n` times, is issued or failed by the first pass later than the grace
   period, `n + 1` order limits and `n + 2` gaps.
   */
  lemma OrderEndsBy(o: Order, times: seq<int>, replies: seq<Reply>, gap: nat, n: nat, k: nat)
    requires |times| == |replies| && k < |times| && Anew(o) && Regular(o.updated, times, gap)
    requires AllOpenWell(replies)
    requires Finalizations(o, times, replies, |times|) <= n
    requires times[k] > o.updated + Bound(n, gap)
    ensures After(o, times, replies, k + 1).state != Pending
  {
    var left := n - Finalizations(o, times, replies, k + 1);
    assert left >= 0 by {
      FinalizationsGrow(o, times, replies, k + 1, |times|);
    }
    assert OnTrack(o, times, gap, k + 1, After(o, times, replies, k + 1), left, n) by {
      PassesMeetDeadline(o, times, replies, gap, n, k + 1);
    }
    LateIsSettled(o, times, gap, k, After(o, times, replies, k + 1), left, n);
  }

  // ----- an authority as section 7.1.6 of RFC 8555 has it -----

  /** A finalized order does not become ready again, and every order has an authorization. */
  ghost predicate Obeys(o: Order, r: Reply) {
    && OpensWell(r)
    && (r.finalized.Some? ==> r.finalized.value != "")
    && (o.key != "" ==> r.status != Some(Ready))
  }

  ghost predicate AuthorityObeys(o: Order, times: seq<int>, replies: seq<Reply>)
    requires |times| == |replies|
  {
    forall k | 0 <= k < |times| :: ObeysAt(o, times, replies, k)
  }

  ghost predicate ObeysAt(o: Order, times: seq<int>, replies: seq<Reply>, k: nat)
    requires |times| == |replies| && k < |times|
  {
    Obeys(After(o, times, replies, k), replies[k])
  }

  lemma {:induction false} FinalizedOnce(o: Order, times: seq<int>, replies: seq<Reply>, k: nat)
    requires |times| == |replies| && k <= |times| && Anew(o) && AuthorityObeys(o, times, replies)
    ensures
      var n, now := Finalizations(o, times, replies, k), After(o, times, replies, k);
      n <= 1 && (now.state == Pending && now.key == "" ==> n == 0)
  {
    if k > 0 {
      FinalizedOnce(o, times, replies, k - 1);
      assert ObeysAt(o, times, replies, k - 1);
    }
  }

  /** Under such an authority every order that begins is done within the grace, two limits and three gaps. */
  lemma EveryOrderEnds(o: Order, times: seq<int>, replies: seq<Reply>, gap: nat, k: nat)
    requires |times| == |replies| && k < |times| && Anew(o)
    requires Regular(o.updated, times, gap) && AuthorityObeys(o, times, replies)
    requires times[k] > o.updated + CHALLENGE_GRACE + 2 * ORDER_LIMIT + 3 * gap
    ensures After(o, times, replies, k + 1).state != Pending
  {
    forall i | 0 <= i < |replies| ensures OpensWell(replies[i]) {
      assert ObeysAt(o, times, replies, i);
    }
    FinalizedOnce(o, times, replies, |times|);
    OrderEndsBy(o, times, replies, gap, 1, k);
  }

  // ----- when a certificate is issued -----

  /** The order is with the authority and all its challenges are accepted. */
  ghost predicate Collectable(o: Order) {
    o.state == Pending && o.url != "" && AllAccepted(o)
  }

  /** This pass attaches a usable chain, under the key stored for the order. */
  ghost predicate Issues(o: Order, now: int, r: Reply) {
    && Collectable(o) && o.key != "" && r.chain.Some? && r.usable.Some?
    && Advanced(o, now, r) == (Order(Issued, "", "", [], r.usable.value, now), [DidAttach(o.url, r.chain.value, o.key)])
  }

  /**
   A pass issues a pending order, and attaches anything, exactly if the authority can be reached, has
   taken every challenge and calls the order valid, the key is stored, and the chain is fetched, is
   usable and attaches. The certificate is then the one attached, with its own end.
   */
  lemma ValidIsIssuedIff(o: Order, now: int, r: Reply)
    requires o.state == Pending
    ensures Swept(o, now, r).0.state == Issued <==>
      && r.connected && Collectable(o) && r.status == Some(Valid) && o.key != ""
      && r.chain.Some? && r.usable.Some? && r.attached
    ensures Swept(o, now, r).0.state == Issued <==> Issues(o, now, r)
    ensures Swept(o, now, r).0.state != Issued ==> forall e | e in Swept(o, now, r).1 :: !e.DidAttach?
  {
  }

  /**
   A pass hands in a request exactly if the authority calls the order ready and takes it; the key made
   for it is then the one stored. Anything but a row just finalized, opened, accepted or settled stays
   as it was.
   */
  lemma FinalizesIff(o: Order, now: int, r: Reply)
    requires o.state == Pending
    ensures
      var (next, did) := Swept(o, now, r);
      && ((exists e :: e in did && e.DidFinalize?) <==> Finalizes(o, r))
      && (Finalizes(o, r) ==> did == [DidFinalize(o.url, next.key)] && next.key == r.finalized.value)
      && (Finalizes(o, r) ==> next == o.(key := next.key, updated := now))
      && (next.state == Pending && next.updated != now ==> next == o && did == [])
      && (next.state == Pending && Collectable(o) && !Finalizes(o, r) ==> next == o && did == [])
  {
    var (next, did) := Swept(o, now, r);
    if Finalizes(o, r) {
      assert did[0].DidFinalize?;
    }
  }

  /** What the authority and the network say to this pass lets the order go on. */
  ghost predicate Good(o: Order, now: int, r: Reply) {
    && r.connected
    && if o.url == "" then r.opening.Some? && Authorized(r.opening.value.offers)
       else if !AllAccepted(o) then now - o.updated >= CHALLENGE_GRACE ==> TakesAll(o.challenges, r.takes)
       else
         && r.status.Some? && r.status.value != Invalid
         && (r.status.value == Ready ==> r.finalized.Some?)
         && (r.status.value == Valid ==> o.key != "" && r.chain.Some? && r.usable.Some? && r.attached)
         && (r.status.value in {StillPending, Processing} ==> now - o.updated <= ORDER_LIMIT)
  }

  lemma PassFailsIff(o: Order, now: int, r: Reply)
    requires o.state == Pending
    ensures Advanced(o, now, r).0.state == Failed <==> !Good(o, now, r)
    ensures Advanced(o, now, r).0.state == Failed ==>
      Advanced(o, now, r) == (o.(state := Failed, challenges := [], updated := now), [])
  {
  }

  ghost predicate GoodAt(o: Order, times: seq<int>, replies: seq<Reply>, i: nat)
    requires |times| == |replies| && i < |times|
  {
    After(o, times, replies, i).state == Pending ==> Good(After(o, times, replies, i), times[i], replies[i])
  }

  /** No pass the order took while pending, of the first `k`, met with a refusal. */
  ghost predicate GoodUntil(o: Order, times: seq<int>, replies: seq<Reply>, k: nat)
    requires |times| == |replies| && k <= |times|
  {
    forall i: nat | i < k :: GoodAt(o, times, replies, i)
  }

  lemma {:induction false} FailedIff(o: Order, times: seq<int>, replies: seq<Reply>, k: nat)
    requires |times| == |replies| && k <= |times| && o.state == Pending
    ensures After(o, times, replies, k).state == Failed <==> !GoodUntil(o, times, replies, k)
  {
    if k > 0 {
      var before := After(o, times, replies, k - 1);
      FailedIff(o, times, replies, k - 1);
      assert GoodUntil(o, times, replies, k)
        <==> GoodUntil(o, times, replies, k - 1) && GoodAt(o, times, replies, k - 1);
      if before.state == Pending {
        PassFailsIff(before, times[k - 1], replies[k - 1]);
      }
    }
  }

  /** The certificate was attached at one of the first `k` passes, and the row is as that pass left it. */
  ghost predicate IssuedWithin(o: Order, times: seq<int>, replies: seq<Reply>, k: nat)
    requires |times| == |replies| && k <= |times|
  {
    exists j: nat :: j < k && IssuedAt(o, times, replies, j)
      && After(o, times, replies, k) == After(o, times, replies, j + 1)
  }

  ghost predicate IssuedAt(o: Order, times: seq<int>, replies: seq<Reply>, j: nat)
    requires |times| == |replies| && j < |times|
  {
    Issues(After(o, times, replies, j), times[j], replies[j])
  }

  lemma {:induction false} IssuedOnce(o: Order, times: seq<int>, replies: seq<Reply>, k: nat)
    requires |times| == |replies| && k <= |times| && o.state == Pending
    ensures After(o, times, replies, k).state == Issued <==> IssuedWithin(o, times, replies, k)
  {
    if k > 0 {
      var before := After(o, times, replies, k - 1);
      IssuedOnce(o, times, replies, k - 1);
      if before.state == Pending {
        ValidIsIssuedIff(before, times[k - 1], replies[k - 1]);
        if After(o, times, replies, k).state == Issued {
          assert IssuedAt(o, times, replies, k - 1);
        }
      } else if before.state == Issued {
        var j: nat :| j < k - 1 && IssuedAt(o, times, replies, j) && before == After(o, times, replies, j + 1);
        assert After(o, times, replies, k) == After(o, times, replies, j + 1);
      }
      if IssuedWithin(o, times, replies, k) {
        var j: nat :| j < k && IssuedAt(o, times, replies, j)
          && After(o, times, replies, k) == After(o, times, replies, j + 1);
        assert After(o, times, replies, j + 1) ==
          Advanced(After(o, times, replies, j), times[j], replies[j]).0;
      }
    }
  }

  /**
   Under an obedient authority every order that begins ends, past the bound, in an attached
   certificate exactly if no pass met with a refusal: it opens with authorizations, every challenge is
   taken, and the waits stay within the limit until it is ready and then valid with a usable chain.
   */
  lemma IssuedIffGood(o: Order, times: seq<int>, replies: seq<Reply>, gap: nat, k: nat)
    requires |times| == |replies| && k < |times| && Anew(o)
    requires Regular(o.updated, times, gap) && AuthorityObeys(o, times, replies)
    requires times[k] > o.updated + CHALLENGE_GRACE + 2 * ORDER_LIMIT + 3 * gap
    ensures After(o, times, replies, k + 1).state == Issued <==> GoodUntil(o, times, replies, k + 1)
    ensures GoodUntil(o, times, replies, k + 1) ==> IssuedWithin(o, times, replies, k + 1)
  {
    EveryOrderEnds(o, times, replies, gap, k);
    FailedIff(o, times, replies, k + 1);
    IssuedOnce(o, times, replies, k + 1);
  }

  // ----- the grace before the challenges are accepted -----

  /** This pass opened the order. */
  ghost predicate OpensAt(o: Order, times: seq<int>, replies: seq<Reply>, i: nat)
    requires |times| == |replies| && i < |times|
  {
    var before, after := After(o, times, replies, i), After(o, times, replies, i + 1);
    before.state == Pending && before.url == "" && after.state == Pending && after.url != ""
  }

  /**
   Once begun, an order holds the offered challenges, none accepted, and until the nodes have had the
   grace to serve them a pass can only fail it.
   */
  lemma {:induction false} GraceIsKept(o: Order, times: seq<int>, replies: seq<Reply>, i: nat, k: nat)
    requires |times| == |replies| && i < k <= |times| && OpensAt(o, times, replies, i)
    requires replies[i].opening.Some? ==> replies[i].opening.value.offers != []
    requires forall m | i < m < k :: times[m] - times[i] < CHALLENGE_GRACE
    ensures
      var begun, now := After(o, times, replies, i + 1), After(o, times, replies, k);
      && replies[i].opening.Some? && Authorized(replies[i].opening.value.offers)
      && begun.url == replies[i].opening.value.url && begun.challenges == Challenges(replies[i].opening.value.offers)
      && begun.updated == times[i]
      && (now == begun || now.state == Failed)
  {
    if k > i + 1 {
      GraceIsKept(o, times, replies, i, k - 1);
      var begun := After(o, times, replies, i + 1);
      assert !begun.challenges[0].accepted;
      assert times[k - 1] - begun.updated < CHALLENGE_GRACE;
    }
  }

  /** Past the grace a pass has every challenge accepted if the authority takes those still open, and else fails. */
  lemma AcceptsIff(o: Order, now: int, r: Reply)
    requires o.state == Pending && o.url != "" && !AllAccepted(o) && r.connected
    ensures
      var next := Advanced(o, now, r).0;
      && (o.challenges != [] ==>
          (AllAccepted(next) <==>
            now - o.updated >= CHALLENGE_GRACE && forall c | c in o.challenges && !c.accepted :: c.url in r.takes))
      && (AllAccepted(next) ==> next == o.(challenges := AcceptedOf(o.challenges), updated := now))
  {
    if TakesAll(o.challenges, r.takes) {
      assert forall c | c in o.challenges && !c.accepted :: c.url in r.takes;
    }
  }

  /** Both ways a row becomes pending begin an order; a renewal keeps the old certificate's end. */
  lemma StartsAndRenewalsAreAnew(o: Order, now: int)
    ensures Anew(StartedRow(now)) && StartedRow(now).updated == now
    ensures Anew(Restarted(o, now)) && Restarted(o, now).updated == now && Restarted(o, now).expires == o.expires
  {
  }

  /** A sweep begins an order for an issued row exactly from 44 days before its end on, and else leaves it. */
  lemma DueIsRestartedIff(o: Order, now: int, r: Reply)
    requires o.state == Issued
    ensures
      var (next, did) := Swept(o, now, r);
      && did == []
      && (Anew(next) && next.updated == now && next.expires == o.expires <==>
            o.expires.Some? && o.expires.value - now <= 44 * 24 * 3600)
      && (!Anew(next) ==> next == o)
  {
  }

  /**
   A certificate found due for renewal at `now` has a new order begun at once, which is over in time:
   issued if no pass met with a refusal, and failed otherwise.
   */
  lemma RenewalsEnd(o: Order, now: int, times: seq<int>, replies: seq<Reply>, first: Reply, gap: nat, k: nat)
    requires o.state == Issued && Due(o, now) && |times| == |replies| && k < |times|
    requires Regular(now, times, gap) && AuthorityObeys(Swept(o, now, first).0, times, replies)
    requires times[k] > now + CHALLENGE_GRACE + 2 * ORDER_LIMIT + 3 * gap
    ensures
      var begun := Swept(o, now, first).0;
      && Anew(begun) && begun.updated == now && begun.expires == o.expires
      && After(begun, times, replies, k + 1).state ==
         (if GoodUntil(begun, times, replies, k + 1) then Issued else Failed)
      && (GoodUntil(begun, times, replies, k + 1) ==> IssuedWithin(begun, times, replies, k + 1))
  {
    StartsAndRenewalsAreAnew(o, now);
    EveryOrderEnds(Restarted(o, now), times, replies, gap, k);
    IssuedIffGood(Restarted(o, now), times, replies, gap, k);
  }

  // ----- and exactly then -----

  /**
   What an authority may do: open orders that have no authorization, and find one order ready at
   most so many times, or without limit.
   */
  datatype Authority = Authority(empties: bool, readies: Option<nat>)

  ghost predicate Within(auth: Authority, o: Order, times: seq<int>, replies: seq<Reply>)
    requires |times| == |replies|
  {
    && (auth.empties || AllOpenWell(replies))
    && (auth.readies.Some? ==> Finalizations(o, times, replies, |times|) <= auth.readies.value)
  }

  ghost predicate EndsBy(auth: Authority, wait: nat -> int, o: Order, times: seq<int>, replies: seq<Reply>,
                         gap: nat, k: nat)
    requires |times| == |replies| && k < |times|
  {
    Anew(o) && Regular(o.updated, times, gap) && Within(auth, o, times, replies) && times[k] > o.updated + wait(gap) ==>
      After(o, times, replies, k + 1).state != Pending
  }

  /** Whatever it does, every order is done in the time that `wait` gives for the gap between passes. */
  ghost predicate AllEnd(auth: Authority, wait: nat -> int) {
    forall o: Order, times: seq<int>, replies: seq<Reply>, gap: nat, k: nat | |times| == |replies| && k < |times| ::
      EndsBy(auth, wait, o, times, replies, gap, k)
  }

  function Every(step: nat, n: nat): (times: seq<int>)
    ensures |times| == n && forall i | 0 <= i < n :: times[i] == (i + 1) * step
  {
    seq(n, i requires 0 <= i => (i + 1) * step)
  }

  lemma EveryIsRegular(step: nat, n: nat)
    ensures Regular(0, Every(step, n), step)
  {
    forall k | 0 <= k < n ensures Gap(0, Every(step, n), k) == step {
      assert (k + 1) * step == k * step + step;
    }
  }

  /** Every pass gets the same answers. */
  function Same(r: Reply, n: nat): (replies: seq<Reply>)
    ensures |replies| == n && forall i | 0 <= i < n :: replies[i] == r
  {
    seq(n, _ => r)
  }

  /** What a bad authority says; all but the order and its status are in order. */
  function Says(offers: seq<Offer>, status: Status): Reply {
    Reply(true, Some(Opening("u", offers)), {""}, Some(status), Some("k"), None, None, false)
  }

  /** An order opened without any authorization never ends, as long as the authority can be reached. */
  lemma {:induction false} EmptyOrderNeverEnds(o: Order, times: seq<int>, replies: seq<Reply>, k: nat)
    requires |times| == |replies| && 0 < k <= |times| && Anew(o)
    requires forall i | 0 <= i < |replies| :: replies[i].connected
    requires replies[0].opening.Some? && replies[0].opening.value.offers == []
    ensures
      var now := After(o, times, replies, k);
      now.state == Pending && now.url == replies[0].opening.value.url && now.challenges == []
  {
    if k > 1 {
      EmptyOrderNeverEnds(o, times, replies, k - 1);
    }
  }

  /** Nor does one whose authority goes on saying ready after it was given the request. */
  lemma {:induction false} AlwaysReadyNeverEnds(o: Order, times: seq<int>, replies: seq<Reply>, k: nat)
    requires |times| == |replies| && k <= |times|
    requires forall i | 0 <= i < |replies| ::
      replies[i].connected && replies[i].status == Some(Ready) && replies[i].finalized.Some?
    requires o.state == Pending && o.url != "" && AllAccepted(o)
    ensures
      var now := After(o, times, replies, k);
      now.state == Pending && now.url == o.url && AllAccepted(now)
  {
    if k > 0 {
      AlwaysReadyNeverEnds(o, times, replies, k - 1);
    }
  }

  /** Once opened and accepted, it is handed a request at every pass. */
  lemma {:induction false} ReadyNeverEnds(o: Order, step: nat, n: nat, k: nat)
    requires Anew(o) && o.updated == 0 && step >= CHALLENGE_GRACE && 2 <= k <= n
    ensures
      var now := After(o, Every(step, n), Same(Says([Offer("t", "", Some("a"))], Ready), n), k);
      now.state == Pending && now.url == "u" && AllAccepted(now)
  {
    var r := Says([Offer("t", "", Some("a"))], Ready);
    var times, replies := Every(step, n), Same(r, n);
    if k > 2 {
      ReadyNeverEnds(o, step, n, k - 1);
    } else {
      var offers := r.opening.value.offers;
      assert Authorized(offers);
      var first := o.(url := "u", challenges := Challenges(offers), updated := times[0]);
      assert After(o, times, replies, 0) == o;
      assert After(o, times, replies, 1) == first by {
        assert replies[0] == r && Advanced(o, times[0], r).0 == first;
      }
      assert !first.challenges[0].accepted && TakesAll(first.challenges, r.takes);
      assert times[1] - times[0] == step;
      assert After(o, times, replies, 2) == AcceptedRow(first, times[1], r);
    }
  }

  /** Whatever it does within its limits, it may still do forever. */
  lemma BadAuthorityNeverEnds(auth: Authority, wait: nat -> int)
    requires auth.empties || auth.readies.None?
    ensures !AllEnd(auth, wait)
  {
    var step, o := CHALLENGE_GRACE, StartedRow(0);
    var n: nat := if wait(step) > 0 then wait(step) + 2 else 2;
    var r :=
      if auth.empties then Says([], StillPending)
      else Says([Offer("t", "", Some("a"))], Ready);
    var times, replies := Every(step, n), Same(r, n);
    EveryIsRegular(step, n);
    if r.status != Some(Ready) {
      NeverFinalized(o, times, replies, n);
    }
    if auth.empties {
      EmptyOrderNeverEnds(o, times, replies, n);
    } else {
      ReadyNeverEnds(o, step, n, n);
    }
    assert !EndsBy(auth, wait, o, times, replies, step, n - 1);
  }

  lemma {:induction false} NeverFinalized(o: Order, times: seq<int>, replies: seq<Reply>, k: nat)
    requires |times| == |replies| && k <= |times| && forall i | 0 <= i < |replies| :: replies[i].status != Some(Ready)
    ensures Finalizations(o, times, replies, k) == 0
  {
    if k > 0 {
      NeverFinalized(o, times, replies, k - 1);
    }
  }

  /**
   There is a time within which all orders of an authority end, whatever it answers, if and only if
   it never opens one without authorizations, and finds an order ready only a limited number of
   times.
   */
  lemma OrdersEndIff(auth: Authority)
    ensures (exists wait: nat -> int :: AllEnd(auth, wait)) <==> !auth.empties && auth.readies.Some?
  {
    if !auth.empties && auth.readies.Some? {
      var wait: nat -> int := (gap: nat) => Bound(auth.readies.value, gap);
      forall o: Order, times: seq<int>, replies: seq<Reply>, gap: nat, k: nat | |times| == |replies| && k < |times|
        ensures EndsBy(auth, wait, o, times, replies, gap, k)
      {
        if Anew(o) && Regular(o.updated, times, gap) && Within(auth, o, times, replies)
          && times[k] > o.updated + wait(gap) {
          OrderEndsBy(o, times, replies, gap, auth.readies.value, k);
        }
      }
      assert AllEnd(auth, wait);
    } else {
      forall wait: nat -> int ensures !AllEnd(auth, wait) {
        BadAuthorityNeverEnds(auth, wait);
      }
    }
  }

  // ----- what rows hold, and whose key is attached -----

  datatype Step = Start(now: int) | Sweep(now: int, reply: Reply) | Remove

  datatype Desk = Desk(row: Option<Order>, log: seq<Entry>)

  function Stepped(d: Desk, st: Step): Desk {
    match st
    case Start(now) => d.(row := Some(StartedRow(now)))
    case Remove => d.(row := None)
    case Sweep(now, reply) =>
      if d.row.None? then d
      else var (row, did) := Swept(d.row.value, now, reply); Desk(Some(row), d.log + did)
  }

  function RunSteps(steps: seq<Step>): Desk
    decreases |steps|
  {
    if steps == [] then Desk(None, []) else Stepped(RunSteps(steps[..|steps| - 1]), steps[|steps| - 1])
  }

  /** Secrets and challenges are held only while they are needed. */
  ghost predicate Lean(o: Order) {
    && (o.state == Issued ==> o.challenges == [] && o.key == "" && o.url == "")
    && (o.state == Failed ==> o.challenges == [])
    && (o.state == Pending && o.url == "" ==> o.key == "")
    && (o.state == Pending && o.key != "" ==> o.url != "" && AllAccepted(o))
  }

  /** `log[i]` finalized this order with this key, and nothing was opened or finalized since. */
  ghost predicate LastFinalized(log: seq<Entry>, i: nat, j: nat, url: string, key: string) {
    i < j <= |log| && log[i] == DidFinalize(url, key) && forall k | i < k < j :: log[k].DidAttach?
  }

  ghost predicate KeyIsOurs(d: Desk) {
    d.row.Some? && d.row.value.state == Pending && d.row.value.key != "" ==>
      exists i :: LastFinalized(d.log, i, |d.log|, d.row.value.url, d.row.value.key)
  }

  /** Every certificate attached so far went out with the key finalized last for the same order. */
  ghost predicate AttachedWithOwnKey(log: seq<Entry>) {
    forall j | 0 <= j < |log| && log[j].DidAttach? ::
      log[j].key != "" && exists i :: LastFinalized(log, i, j, log[j].url, log[j].key)
  }

  ghost predicate Inv(d: Desk) {
    (d.row.Some? ==> Lean(d.row.value)) && KeyIsOurs(d) && AttachedWithOwnKey(d.log)
  }

  lemma LongerLog(log: seq<Entry>, did: seq<Entry>, i: nat, j: nat, url: string, key: string)
    requires LastFinalized(log, i, j, url, key)
    ensures LastFinalized(log + did, i, j, url, key)
  {
  }

  lemma LogGrows(log: seq<Entry>, e: Entry)
    requires AttachedWithOwnKey(log)
    requires e.DidAttach? ==> e.key != "" && exists i :: LastFinalized(log, i, |log|, e.url, e.key)
    ensures AttachedWithOwnKey(log + [e])
  {
    var now := log + [e];
    forall j | 0 <= j < |now| && now[j].DidAttach?
      ensures now[j].key != "" && exists i :: LastFinalized(now, i, j, now[j].url, now[j].key)
    {
      var i :| LastFinalized(log, i, j, now[j].url, now[j].key);
      LongerLog(log, [e], i, j, now[j].url, now[j].key);
    }
  }

  lemma SweepKeepsInv(d: Desk, now: int, r: Reply)
    requires Inv(d) && d.row.Some?
    ensures Inv(Stepped(d, Sweep(now, r)))
  {
    var o := d.row.value;
    var (row, did) := Swept(o, now, r);
    assert did == [] || did == [did[0]];
    if did == [] {
      assert d.log + did == d.log;
    } else {
      LogGrows(d.log, did[0]);
      if did[0].DidFinalize? {
        assert LastFinalized(d.log + did, |d.log|, |d.log| + 1, row.url, row.key);
      }
    }
  }

  lemma StepKeepsInv(d: Desk, st: Step)
    requires Inv(d)
    ensures Inv(Stepped(d, st))
  {
    if st.Sweep? && d.row.Some? {
      SweepKeepsInv(d, st.now, st.reply);
    }
  }

  /**
   Over every run: issued rows hold no challenge, key or order URL, and a certificate is attached
   only with the key stored when that same order was finalized last.
   */
  lemma {:induction false} RunKeepsInv(steps: seq<Step>)
    ensures Inv(RunSteps(steps))
    decreases |steps|
  {
    if steps != [] {
      RunKeepsInv(steps[..|steps| - 1]);
      StepKeepsInv(RunSteps(steps[..|steps| - 1]), steps[|steps| - 1]);
    }
  }

  // ----- the service -----

  datatype Row = Row(balancer: string, order: Order)

  /** Some row offers this answer to the authority's question for `token`. */
  ghost predicate Serves(rows: seq<Row>, n: nat, token: string, authorization: string)
    requires n <= |rows|
  {
    exists i :: 0 <= i < n && Has(rows[i].order.challenges, token, authorization)
  }

  class Service {
    var rows: seq<Row>

    constructor ()
      ensures rows == []
    {
      rows := [];
    }

    method Save(i: nat, o: Order)
      requires i < |rows|
      modifies this
      ensures rows == old(rows)[i := Row(old(rows)[i].balancer, o)]
    {
      rows := rows[i := Row(rows[i].balancer, o)];
    }

    /** A balancer's row is begun anew, or added. */
    method Begin(balancer: string, now: int)
      requires forall i, j | 0 <= i < j < |rows| :: rows[i].balancer != rows[j].balancer
      modifies this
      ensures forall i, j | 0 <= i < j < |rows| :: rows[i].balancer != rows[j].balancer
      ensures exists i :: 0 <= i < |rows| && rows[i] == Row(balancer, StartedRow(now))
      ensures forall r: Row | r.balancer != balancer :: r in rows <==> r in old(rows)
    {
      var i := 0;
      while i < |rows| && rows[i].balancer != balancer
        invariant 0 <= i <= |rows| && rows == old(rows)
        invariant forall k | 0 <= k < i :: rows[k].balancer != balancer
        decreases |rows| - i
      {
        i := i + 1;
      }
      if i < |rows| {
        Save(i, StartedRow(now));
        assert rows[i] == Row(balancer, StartedRow(now));
        assert forall k | 0 <= k < |rows| && k != i :: rows[k] == old(rows)[k];
      } else {
        rows := rows + [Row(balancer, StartedRow(now))];
        assert rows[i] == Row(balancer, StartedRow(now));
      }
    }

    method Open(i: nat, now: int, r: Reply) returns (did: seq<Entry>)
      requires i < |rows|
      modifies this
      ensures rows == old(rows)[i := Row(old(rows)[i].balancer, OpenedRow(old(rows)[i].order, now, r).0)]
      ensures did == OpenedRow(old(rows)[i].order, now, r).1
    {
      var held := rows[i].order;
      if r.opening.None? {
        Save(i, FailedRow(held, now));
        return [];
      }
      var offers := r.opening.value.offers;
      var challenges: seq<Challenge> := [];
      for k := 0 to |offers|
        invariant rows == old(rows) && Authorized(offers[..k]) && challenges == Challenges(offers[..k])
      {
        if offers[k].authorization.None? {
          Save(i, FailedRow(held, now));
          return [];
        }
        challenges := challenges + [Challenge(offers[k].token, offers[k].authorization.value, offers[k].url, false)];
      }
      assert offers[..|offers|] == offers;
      Save(i, held.(url := r.opening.value.url, challenges := challenges, updated := now));
      did := [DidOpen(r.opening.value.url)];
    }

    method Accept(i: nat, now: int, r: Reply)
      requires i < |rows|
      modifies this
      ensures rows == old(rows)[i := Row(old(rows)[i].balancer, AcceptedRow(old(rows)[i].order, now, r))]
    {
      var held := rows[i].order;
      if now - held.updated < CHALLENGE_GRACE {
        return;
      }
      var challenges := held.challenges;
      for k := 0 to |challenges|
        invariant rows == old(rows) && |challenges| == |held.challenges|
        invariant TakesAll(held.challenges[..k], r.takes)
        invariant forall m | 0 <= m < |challenges| ::
          challenges[m] == if m < k then held.challenges[m].(accepted := true) else held.challenges[m]
      {
        if !challenges[k].accepted {
          if challenges[k].url !in r.takes {
            assert !TakesAll(held.challenges, r.takes);
            Save(i, FailedRow(held, now));
            return;
          }
          challenges := challenges[k := challenges[k].(accepted := true)];
        }
      }
      assert challenges == AcceptedOf(held.challenges);
      assert held.challenges[..|challenges|] == held.challenges;
      Save(i, held.(challenges := challenges, updated := now));
    }

    method Collect(i: nat, now: int, r: Reply) returns (did: seq<Entry>)
      requires i < |rows|
      modifies this
      ensures rows == old(rows)[i := Row(old(rows)[i].balancer, CollectedRow(old(rows)[i].order, now, r).0)]
      ensures did == CollectedRow(old(rows)[i].order, now, r).1
    {
      var held := rows[i].order;
      did := [];
      if r.status.None? || r.status.value == Invalid {
        Save(i, FailedRow(held, now));
      } else if r.status.value == Ready {
        if r.finalized.None? {
          Save(i, FailedRow(held, now));
        } else {
          Save(i, held.(key := r.finalized.value, updated := now));
          did := [DidFinalize(held.url, r.finalized.value)];
        }
      } else if r.status.value == Valid {
        if held.key == "" || r.chain.None? || r.usable.None? || !r.attached {
          Save(i, FailedRow(held, now));
        } else {
          Save(i, held.(state := Issued, expires := r.usable.value, updated := now, challenges := [], key := "",
            url := ""));
          did := [DidAttach(held.url, r.chain.value, held.key)];
        }
      } else if now - held.updated > ORDER_LIMIT {
        Save(i, FailedRow(held, now));
      }
    }

    method Advance(i: nat, now: int, r: Reply) returns (did: seq<Entry>)
      requires i < |rows|
      modifies this
      ensures rows == old(rows)[i := Row(old(rows)[i].balancer, Advanced(old(rows)[i].order, now, r).0)]
      ensures did == Advanced(old(rows)[i].order, now, r).1
    {
      var held := rows[i].order;
      did := [];
      if !r.connected {
        Save(i, FailedRow(held, now));
      } else if held.url == "" {
        did := Open(i, now, r);
      } else if !AllAccepted(held) {
        Accept(i, now, r);
      } else {
        did := Collect(i, now, r);
      }
    }

    /** Every row takes its own pass, each with its own reply. */
    method SweepAll(now: int, replies: seq<Reply>) returns (log: seq<seq<Entry>>)
      requires |replies| == |rows|
      modifies this
      ensures |rows| == |log| == |old(rows)|
      ensures forall i | 0 <= i < |rows| ::
        && rows[i] == Row(old(rows)[i].balancer, Swept(old(rows)[i].order, now, replies[i]).0)
        && log[i] == Swept(old(rows)[i].order, now, replies[i]).1
    {
      log := [];
      for i := 0 to |rows|
        invariant |rows| == |old(rows)| && |log| == i
        invariant forall k | i <= k < |rows| :: rows[k] == old(rows)[k]
        invariant forall k | 0 <= k < i ::
          && rows[k] == Row(old(rows)[k].balancer, Swept(old(rows)[k].order, now, replies[k]).0)
          && log[k] == Swept(old(rows)[k].order, now, replies[k]).1
      {
        var held := rows[i].order;
        var did := [];
        if held.state == Pending {
          did := Advance(i, now, replies[i]);
        } else if held.state == Issued && Due(held, now) {
          Save(i, Restarted(held, now));
        }
        log := log + [did];
      }
    }

    /** The answers nodes are to serve: those of the challenges held, and no others. */
    method Tokens() returns (tokens: map<string, string>)
      ensures Answers(tokens, rows, |rows|)
    {
      tokens := map[];
      for i := 0 to |rows|
        invariant Answers(tokens, rows, i)
      {
        ghost var before := tokens;
        tokens := WithChallenges(tokens, rows[i].order.challenges);
        AnswersOneMore(before, tokens, rows, i);
      }
    }
  }

  /** Non-empty answers only, each from a row, and one for every token some row has an answer to. */
  ghost predicate Answers(tokens: map<string, string>, rows: seq<Row>, n: nat)
    requires n <= |rows|
  {
    && (forall token | token in tokens :: token != "" && tokens[token] != "" && Serves(rows, n, token, tokens[token]))
    && (forall token, authorization | token != "" && authorization != "" && Serves(rows, n, token, authorization) ::
          token in tokens)
  }

  ghost predicate Has(cs: seq<Challenge>, token: string, authorization: string) {
    exists j :: 0 <= j < |cs| && cs[j].token == token && cs[j].authorization == authorization
  }

  /** `tokens` with the answers of `cs`, where later ones replace earlier ones. */
  ghost predicate Extends(before: map<string, string>, tokens: map<string, string>, cs: seq<Challenge>) {
    && (forall token | token in before :: token in tokens)
    && (forall token | token in tokens ::
          || Lookup(before, token) == Some(tokens[token])
          || (token != "" && tokens[token] != "" && Has(cs, token, tokens[token])))
    && (forall j | 0 <= j < |cs| && cs[j].token != "" && cs[j].authorization != "" :: cs[j].token in tokens)
  }

  method WithChallenges(before: map<string, string>, cs: seq<Challenge>) returns (tokens: map<string, string>)
    ensures Extends(before, tokens, cs)
  {
    tokens := before;
    for j := 0 to |cs|
      invariant forall token | token in before :: token in tokens
      invariant forall token | token in tokens ::
        || Lookup(before, token) == Some(tokens[token])
        || (token != "" && tokens[token] != "" && Has(cs, token, tokens[token]))
      invariant forall k | 0 <= k < j && cs[k].token != "" && cs[k].authorization != "" :: cs[k].token in tokens
    {
      if cs[j].token != "" && cs[j].authorization != "" {
        assert Has(cs, cs[j].token, cs[j].authorization);
        tokens := tokens[cs[j].token := cs[j].authorization];
      }
    }
  }

  lemma ServesOneMore(rows: seq<Row>, i: nat, token: string, authorization: string)
    requires i < |rows|
    ensures Serves(rows, i + 1, token, authorization)
      <==> Serves(rows, i, token, authorization) || Has(rows[i].order.challenges, token, authorization)
  {
  }

  lemma AnswersOneMore(before: map<string, string>, tokens: map<string, string>, rows: seq<Row>, i: nat)
    requires i < |rows| && Answers(before, rows, i) && Extends(before, tokens, rows[i].order.challenges)
    ensures Answers(tokens, rows, i + 1)
  {
    var n := i + 1;
    forall token, authorization
      ensures Serves(rows, n, token, authorization)
        <==> Serves(rows, i, token, authorization) || Has(rows[i].order.challenges, token, authorization)
    {
      ServesOneMore(rows, i, token, authorization);
    }
  }

  /** Only rows still pending have anything served for them. */
  lemma OnlyPendingServes(rows: seq<Row>, token: string, authorization: string)
    requires forall i | 0 <= i < |rows| :: Lean(rows[i].order)
    requires Serves(rows, |rows|, token, authorization)
    ensures exists i ::
      && 0 <= i < |rows| && rows[i].order.state == Pending
      && Has(rows[i].order.challenges, token, authorization)
  {
  }
}

/**
 The access-policy decision taken for every consumer request, and the rate limit it gives
 when the recorded instants are truncated to whole seconds.

 Instants are whole microseconds since the Unix epoch, the resolution of the clock the
 engine reads; minInterval is in whole seconds, as it is stored.
 */
module Policy {
  import opened Options

  const MICROS: int := 1_000_000
  const UNIX_EPOCH: int := 0

  datatype PolicyRecord = PolicyRecord(
    expiresAt: Option<int>,
    validFrom: Option<int>,
    validUntil: Option<int>,
    maxRetrievals: Option<int>,
    minInterval: Option<int>)

  datatype Reason =
    | Expired
    | NotYetValid
    | WindowElapsed
    | MaxRetrievalsReached
    | MinIntervalNotElapsed
    | ViewRetrievalsReached

  datatype Verdict = Allowed | Refused(reason: Reason)

  /** What the decision reads of the grant's record and of the view's record. */
  datatype Grant = Grant(enforcementCount: int, lastUsedAt: int)
  datatype ViewState = ViewState(retrievalCount: int, maxRetrievals: Option<int>)

  function CheckGrant(grant: Grant, policy: PolicyRecord, now: int): Verdict {
    if policy.expiresAt.Some? && now > policy.expiresAt.value then
      Refused(Expired)
    else if policy.validFrom.Some? && now < policy.validFrom.value then
      Refused(NotYetValid)
    else if policy.validUntil.Some? && now > policy.validUntil.value then
      Refused(WindowElapsed)
    else if policy.maxRetrievals.Some? && grant.enforcementCount >= policy.maxRetrievals.value then
      Refused(MaxRetrievalsReached)
    else if
      && policy.minInterval.Some?
      && grant.lastUsedAt != UNIX_EPOCH
      && now - grant.lastUsedAt < policy.minInterval.value * MICROS
    then
      Refused(MinIntervalNotElapsed)
    else
      Allowed
  }

  /** An absent policy record constrains nothing; the view's own ceiling is checked last. */
  function CheckPolicy(grant: Grant, policy: Option<PolicyRecord>, view: ViewState, now: int): Verdict {
    var byGrant := if policy.Some? then CheckGrant(grant, policy.value, now) else Allowed;
    if byGrant.Refused? then
      byGrant
    else if view.maxRetrievals.Some? && view.retrievalCount >= view.maxRetrievals.value then
      Refused(ViewRetrievalsReached)
    else
      Allowed
  }

  /**
   A request is allowed exactly when every constraint that is set is met: both ends of the
   validity window are inclusive, both ceilings are strict, and the interval is waived only
   for a grant still parked at the epoch.
   */
  lemma AllowedIff(grant: Grant, policy: Option<PolicyRecord>, view: ViewState, now: int)
    ensures CheckPolicy(grant, policy, view, now).Allowed? <==>
            && (policy.Some? ==>
                  var p := policy.value;
                  && (p.expiresAt.Some? ==> now <= p.expiresAt.value)
                  && (p.validFrom.Some? ==> p.validFrom.value <= now)
                  && (p.validUntil.Some? ==> now <= p.validUntil.value)
                  && (p.maxRetrievals.Some? ==> grant.enforcementCount < p.maxRetrievals.value)
                  && (p.minInterval.Some? && grant.lastUsedAt != UNIX_EPOCH ==>
                        grant.lastUsedAt + p.minInterval.value * MICROS <= now))
            && (view.maxRetrievals.Some? ==> view.retrievalCount < view.maxRetrievals.value)
  {
  }

  predicate Violated(reason: Reason, grant: Grant, policy: Option<PolicyRecord>, view: ViewState, now: int) {
    match reason
    case Expired => policy.Some? && policy.value.expiresAt.Some? && now > policy.value.expiresAt.value
    case NotYetValid => policy.Some? && policy.value.validFrom.Some? && now < policy.value.validFrom.value
    case WindowElapsed => policy.Some? && policy.value.validUntil.Some? && now > policy.value.validUntil.value
    case MaxRetrievalsReached =>
      policy.Some? && policy.value.maxRetrievals.Some? && grant.enforcementCount >= policy.value.maxRetrievals.value
    case MinIntervalNotElapsed =>
      && policy.Some? && policy.value.minInterval.Some? && grant.lastUsedAt != 0
      && now - grant.lastUsedAt < policy.value.minInterval.value * 1_000_000
    case ViewRetrievalsReached => view.maxRetrievals.Some? && view.retrievalCount >= view.maxRetrievals.value
  }

  /** The order in which the constraints are looked at. */
  function Rank(reason: Reason): nat {
    match reason
    case Expired => 0
    case NotYetValid => 1
    case WindowElapsed => 2
    case MaxRetrievalsReached => 3
    case MinIntervalNotElapsed => 4
    case ViewRetrievalsReached => 5
  }

  /** A request is refused exactly when some constraint is violated, and the refusal names the first that is. */
  lemma RefusalNamesViolation(grant: Grant, policy: Option<PolicyRecord>, view: ViewState, now: int)
    ensures var verdict := CheckPolicy(grant, policy, view, now);
            && (verdict.Refused? <==> exists reason :: Violated(reason, grant, policy, view, now))
            && (verdict.Refused? ==> Violated(verdict.reason, grant, policy, view, now))
            && (verdict.Refused? ==>
                  forall reason :: Violated(reason, grant, policy, view, now) ==> Rank(verdict.reason) <= Rank(reason))
  {
    var verdict := CheckPolicy(grant, policy, view, now);
    if verdict.Refused? {
      assert Violated(verdict.reason, grant, policy, view, now);
    }
  }

  // ------------------------------------------------------------ sequential deliveries

  /** One request of a grant: its policy check and, if allowed, the instant it records. */
  datatype Visit = Visit(checkedAt: int, recordedAt: int)

  /** A delivery that happened: the true instant and the whole second stored for it. */
  datatype Delivery = Delivery(instant: int, stored: int)

  /** The timestamp format keeps whole seconds. */
  function ToWholeSecond(instant: int): int {
    instant - instant % MICROS
  }

  /** Visits one after another: each delivered visit bumps the count and stores lastUsedAt. */
  function Deliveries(grant: Grant, policy: PolicyRecord, visits: seq<Visit>): seq<Delivery>
    decreases visits
  {
    if visits == [] then
      []
    else if CheckGrant(grant, policy, visits[0].checkedAt).Refused? then
      Deliveries(grant, policy, visits[1..])
    else
      var stored := ToWholeSecond(visits[0].recordedAt);
      [Delivery(visits[0].recordedAt, stored)]
      + Deliveries(Grant(grant.enforcementCount + 1, stored), policy, visits[1..])
  }

  /** A clock past the first second of the epoch that never runs backwards. */
  ghost predicate Clocked(visits: seq<Visit>) {
    && (forall k :: 0 <= k < |visits| ==> MICROS <= visits[k].checkedAt <= visits[k].recordedAt)
    && (forall j, k :: 0 <= j < k < |visits| ==> visits[j].recordedAt <= visits[k].checkedAt)
  }

  /** Consecutive deliveries recorded in d are spaced as minInterval m promises. */
  ghost predicate Spaced(d: seq<Delivery>, m: int) {
    forall k :: 0 < k < |d| ==>
      && d[k].stored >= d[k - 1].stored + m * MICROS
      && d[k].instant - d[k - 1].instant > (m - 1) * MICROS
  }

  /** The first delivery after a grant whose stored instant is lastUsedAt respects the interval. */
  lemma {:induction false} NextDeliveryWaits(grant: Grant, policy: PolicyRecord, visits: seq<Visit>, m: int)
    requires Clocked(visits) && policy.minInterval == Some(m)
    requires grant.lastUsedAt != UNIX_EPOCH && grant.lastUsedAt % MICROS == 0
    ensures var d := Deliveries(grant, policy, visits);
            d != [] ==> d[0].stored >= grant.lastUsedAt + m * MICROS && d[0].stored == ToWholeSecond(d[0].instant)
    decreases visits
  {
    if visits != [] {
      var v := visits[0];
      if CheckGrant(grant, policy, v.checkedAt).Refused? {
        NextDeliveryWaits(grant, policy, visits[1..], m);
      } else {
        WholeSecondMonotone(grant.lastUsedAt + m * MICROS, v.recordedAt, grant.lastUsedAt / MICROS + m);
      }
    }
  }

  lemma WholeSecondMonotone(low: int, high: int, s: int)
    requires low == s * MICROS && low <= high
    ensures low <= ToWholeSecond(high)
  {
  }

  /**
   The rate limit.  For sequential visits the recorded instants of consecutive deliveries
   are at least minInterval apart, and the true ones more than minInterval minus a second;
   the epoch sentinel exempts the first delivery only, whatever the grant held before.
   */
  lemma {:induction false} RateLimit(grant: Grant, policy: PolicyRecord, visits: seq<Visit>, m: int)
    requires Clocked(visits) && policy.minInterval == Some(m)
    ensures Spaced(Deliveries(grant, policy, visits), m)
    decreases visits
  {
    if visits != [] {
      var v, rest := visits[0], visits[1..];
      if CheckGrant(grant, policy, v.checkedAt).Refused? {
        RateLimit(grant, policy, rest, m);
      } else {
        var next := Grant(grant.enforcementCount + 1, ToWholeSecond(v.recordedAt));
        var d := Deliveries(next, policy, rest);
        RateLimit(next, policy, rest, m);
        NextDeliveryWaits(next, policy, rest, m);
        if d != [] {
          assert d[0].stored == ToWholeSecond(d[0].instant) <= d[0].instant;
          assert v.recordedAt < next.lastUsedAt + MICROS;
        }
        var all := Deliveries(grant, policy, visits);
        assert all == [Delivery(v.recordedAt, next.lastUsedAt)] + d;
        forall k | 0 < k < |all|
          ensures all[k].stored >= all[k - 1].stored + m * MICROS
          ensures all[k].instant - all[k - 1].instant > (m - 1) * MICROS
        {
          if k > 1 {
            assert all[k] == d[k - 1] && all[k - 1] == d[k - 2];
          }
        }
      }
    }
  }

  /** The spacing of true instants cannot be improved to minInterval itself. */
  lemma RateLimitIsTight(m: int)
    requires m > 0
    ensures exists visits ::
              var d := Deliveries(Grant(0, UNIX_EPOCH), PolicyRecord(None, None, None, None, Some(m)), visits);
              && Clocked(visits)
              && |d| == 2
              && d[1].instant - d[0].instant == (m - 1) * MICROS + 1
  {
    var policy := PolicyRecord(None, None, None, None, Some(m));
    var first := Visit(MICROS, 2 * MICROS - 1);
    var second := Visit((m + 1) * MICROS, (m + 1) * MICROS);
    var visits := [first, second];
    assert visits[1..] == [second];
    assert ToWholeSecond(first.recordedAt) == MICROS;
    var g1 := Grant(1, MICROS);
    assert CheckGrant(g1, policy, second.checkedAt).Allowed?;
    assert [second][1..] == [];
    assert Deliveries(Grant(2, ToWholeSecond(second.recordedAt)), policy, []) == [];
    var d := Deliveries(Grant(0, UNIX_EPOCH), policy, visits);
    assert d == [Delivery(first.recordedAt, MICROS)] + Deliveries(g1, policy, [second]);
    assert d[1].instant == second.recordedAt;
  }
}

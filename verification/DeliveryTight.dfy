/**
 The ceiling's bound is exact: for every ceiling M and every K of at least one there is a run with
 at most K requests in flight whose counter reaches it, M + K - 1 or, for M zero, zero. The run
 delivers M - 1 times one after another, lets K requests pass the policy on that count, and then
 lets each of them bump the counter.
 */
module DeliveryTight {
  import opened Options
  import opened Rdf
  import opened Preconditions
  import opened Delivery
  import opened DeliveryCounts
  import opened DeliveryCeiling
  import opened Vocabulary
  import P = Policy

  const GRANT := TokenRef("grant")
  const VIEW := ViewRef("view")

  function RecordAt(n: int): Graph {
    {Triple(Subject(GRANT), ENFORCEMENT_COUNT, Num(n)), Triple(Subject(GRANT), LAST_USED_AT, Instant(P.UNIX_EPOCH))}
  }

  const VIEW_RECORD: Graph := {Triple(Subject(VIEW), VIEW_RETRIEVAL_COUNT, Num(0))}

  function CeilingOf(m: int): P.PolicyRecord {
    P.PolicyRecord(None, None, None, Some(m), None)
  }

  function Start(m: int): State {
    State(map[], map["grant" := CeilingOf(m)], map[], map[], map[], [])
  }

  // --------------------------------------------------------------------------- records

  lemma FieldNamesDiffer()
    ensures ENFORCEMENT_COUNT != LAST_USED_AT && VIEW_RETRIEVAL_COUNT != MAX_VIEW_RETRIEVALS
    ensures P.ToWholeSecond(0) == P.UNIX_EPOCH
  {
    var n := |POD|;
    assert ENFORCEMENT_COUNT.iri[n] == 'e' && LAST_USED_AT.iri[n] == 'l';
    assert VIEW_RETRIEVAL_COUNT.iri[n] == 'v' && MAX_VIEW_RETRIEVALS.iri[n] == 'm';
  }

  lemma RecordCount(n: int)
    ensures CountIs(RecordAt(n), GRANT, n) && OutOfScope(RecordAt(n), GRANT) == {}
    ensures Objects(RecordAt(n), Subject(GRANT), LAST_USED_AT) == {Instant(P.UNIX_EPOCH)}
  {
    FieldNamesDiffer();
    var g := RecordAt(n);
    assert Triple(Subject(GRANT), ENFORCEMENT_COUNT, Num(n)) in g;
    assert Triple(Subject(GRANT), LAST_USED_AT, Instant(P.UNIX_EPOCH)) in g;
    assert Num(n) in Objects(g, Subject(GRANT), ENFORCEMENT_COUNT);
    assert Instant(P.UNIX_EPOCH) in Objects(g, Subject(GRANT), LAST_USED_AT);
  }

  lemma ViewCount()
    ensures CountIs(VIEW_RECORD, VIEW, 0) && Objects(VIEW_RECORD, Subject(VIEW), MAX_VIEW_RETRIEVALS) == {}
  {
    FieldNamesDiffer();
    assert Triple(Subject(VIEW), VIEW_RETRIEVAL_COUNT, Num(0)) in VIEW_RECORD;
    assert Num(0) in Objects(VIEW_RECORD, Subject(VIEW), VIEW_RETRIEVAL_COUNT);
  }

  lemma BumpedRecord(n: int)
    ensures Bumped(RecordAt(n), GRANT, n, 0) == RecordAt(n + 1)
  {
    FieldNamesDiffer();
    RecordCount(n);
  }

  // ---------------------------------------------------------------------------- states

  predicate Waiting(r: Request) {
    r.token == GRANT && r.view == VIEW && r.pc.Cleared? && !r.tokenBumped
  }

  /** The counter is n; requests below lo are finished, those from lo up to hi passed the policy. */
  ghost predicate Ready(s: State, m: int, n: int, lo: nat, hi: nat) {
    && lo <= hi
    && s.records == map[GRANT := RecordAt(n), VIEW := VIEW_RECORD]
    && s.policies == map["grant" := CeilingOf(m)]
    && (forall v: nat :: v in s.requests <==> v < hi)
    && (forall v: nat :: v < lo ==> s.requests[v].pc.Finished?)
    && (forall v: nat :: lo <= v < hi ==> Waiting(s.requests[v]))
  }

  /** Every unfinished request is numbered from lo up to hi. */
  ghost predicate Within(s: State, m: int, lo: nat, hi: nat) {
    && lo <= hi && s.policies == map["grant" := CeilingOf(m)]
    && (forall v :: v in s.requests && !s.requests[v].pc.Finished? ==> lo <= v < hi)
  }

  /** s' is s with request w set to r. */
  ghost predicate Moved(s: State, s': State, w: nat, r: Request) {
    && s'.records == s.records && s'.policies == s.policies
    && w in s'.requests && s'.requests[w] == r
    && (forall v :: v != w ==> (v in s'.requests <==> v in s.requests))
    && (forall v :: v != w && v in s.requests ==> s'.requests[v] == s.requests[v])
  }

  lemma SetMoves(s: State, w: nat, r: Request)
    ensures Moved(s, SetRequest(s, w, r), w, r)
  {
  }

  lemma WithinMoved(s: State, s': State, m: int, lo: nat, hi: nat, w: nat, r: Request)
    requires Within(s, m, lo, hi) && Moved(s, s', w, r) && lo <= w < hi
    ensures Within(s', m, lo, hi)
  {
  }

  function Ids(lo: nat, hi: nat): (ids: set<nat>)
    requires lo <= hi
    ensures |ids| == hi - lo && forall v: nat :: v in ids <==> lo <= v < hi
    decreases hi - lo
  {
    if lo == hi then {} else Ids(lo, hi - 1) + {hi - 1}
  }

  /** The run so far respects the bound, and ends in s. */
  ghost predicate RunTo(labels: seq<Label>, m: int, k: int, s: State) {
    && Exec(Start(m), labels) == s && Bounded(Start(m), labels, GRANT, m, k) && OnlyClientBumps(labels, GRANT)
  }

  lemma Extend(labels: seq<Label>, l: Label, m: int, k: int, s: State, s': State, lo: nat, hi: nat)
    requires RunTo(labels, m, k, s) && s' == Step(s, l) && !l.RawGuard?
    requires Within(s', m, lo, hi) && hi - lo <= k
    ensures RunTo(labels + [l], m, k, s')
  {
    hide Step;
    var more := labels + [l];
    assert more[..|labels|] == labels;
    assert InFlightSet(s', GRANT) <= Ids(lo, hi);
    SubsetCard(InFlightSet(s', GRANT), Ids(lo, hi));
    forall i | 0 <= i <= |more|
      ensures LimitIs(Exec(Start(m), more[..i]), GRANT, m) && |InFlightSet(Exec(Start(m), more[..i]), GRANT)| <= k
    {
      if i <= |labels| {
        assert more[..i] == labels[..i];
      } else {
        assert more[..i] == more;
      }
    }
  }

  // ------------------------------------------------------------------------- one request

  function Fresh(n: int, at: int): Request {
    Request(GRANT, VIEW, P.Grant(n, at), None, 0, 0, false, false, false, Authenticated)
  }

  lemma Authenticates(s: State, w: nat, n: int) returns (at: int)
    requires GRANT in s.records && s.records[GRANT] == RecordAt(n) && w !in s.requests
    ensures Step(s, Authenticate(w, "grant", "view")) == SetRequest(s, w, Fresh(n, at))
  {
    RecordCount(n);
    CountRead(RecordAt(n), GRANT, n);
    at := ReadLastUsed(RecordAt(n), GRANT);
    hide CountIs, ReadCount, ReadLastUsed, RecordAt;
    assert Step(s, Authenticate(w, "grant", "view")) == DoAuthenticate(s, w, "grant", "view");
  }

  lemma Loads(s: State, w: nat)
    requires VIEW in s.records && s.records[VIEW] == VIEW_RECORD
    requires w in s.requests && s.requests[w].view == VIEW && s.requests[w].pc.Authenticated?
    ensures Step(s, LoadView(w)) ==
      SetRequest(s, w, s.requests[w].(seenView := Some(P.ViewState(0, None)), pc := ViewLoaded))
  {
    ViewCount();
    CountRead(VIEW_RECORD, VIEW, 0);
    assert ReadInt(VIEW_RECORD, Subject(VIEW), MAX_VIEW_RETRIEVALS) == Missing;
    hide ReadInt, ReadCount, CountIs;
  }

  lemma Decides(s: State, w: nat, m: int)
    requires s.policies == map["grant" := CeilingOf(m)]
    requires w in s.requests && s.requests[w].token == GRANT && s.requests[w].pc.ViewLoaded?
    requires s.requests[w].seenView == Some(P.ViewState(0, None)) && s.requests[w].grant.enforcementCount < m
    ensures Step(s, Decide(w, 0)) == SetRequest(s, w, s.requests[w].(pc := Cleared))
  {
  }

  /** A step that sets one request among those in flight extends the run. */
  lemma Advances(labels: seq<Label>, l: Label, m: int, k: int, s: State, w: nat, r: Request, lo: nat, hi: nat)
    requires RunTo(labels, m, k, s) && Step(s, l) == SetRequest(s, w, r) && !l.RawGuard?
    requires Within(s, m, lo, hi) && lo <= w < hi && hi - lo <= k
    ensures RunTo(labels + [l], m, k, SetRequest(s, w, r)) && Within(SetRequest(s, w, r), m, lo, hi)
    ensures Moved(s, SetRequest(s, w, r), w, r)
  {
    hide Step, SetRequest, RunTo, Within, Moved;
    SetMoves(s, w, r);
    WithinMoved(s, SetRequest(s, w, r), m, lo, hi, w, r);
    Extend(labels, l, m, k, s, SetRequest(s, w, r), lo, hi);
  }

  /** A further request passes the policy while the count is below the ceiling. */
  lemma Enters(labels: seq<Label>, s: State, m: int, k: int, n: int, lo: nat, hi: nat) returns (more: seq<Label>, s': State)
    requires RunTo(labels, m, k, s) && Ready(s, m, n, lo, hi) && n < m && hi - lo < k
    ensures RunTo(more, m, k, s') && Ready(s', m, n, lo, hi + 1)
  {
    hide Step, RecordAt, SetRequest, RunTo, CeilingOf;
    var w := hi;
    var l1, l2, l3 := Authenticate(w, "grant", "view"), LoadView(w), Decide(w, 0);
    var at := Authenticates(s, w, n);
    var r1 := Fresh(n, at);
    Advances(labels, l1, m, k, s, w, r1, lo, hi + 1);
    var s1 := SetRequest(s, w, r1);
    Loads(s1, w);
    var r2 := r1.(seenView := Some(P.ViewState(0, None)), pc := ViewLoaded);
    Advances(labels + [l1], l2, m, k, s1, w, r2, lo, hi + 1);
    var s2 := SetRequest(s1, w, r2);
    Decides(s2, w, m);
    var r3 := r2.(pc := Cleared);
    Advances(labels + [l1] + [l2], l3, m, k, s2, w, r3, lo, hi + 1);
    more, s' := labels + [l1] + [l2] + [l3], SetRequest(s2, w, r3);
  }

  lemma Begins(s: State, w: nat)
    requires w in s.requests && Waiting(s.requests[w])
    ensures Step(s, Record(w, 0)) ==
      SetRequest(s, w, s.requests[w].(recordedAt := 0, since := |s.history|, pc := Bumping(GRANT, 0, Reading)))
  {
  }

  lemma StepFetches(s: State, w: nat, copy: Graph)
    requires Enabled(s, Fetch(w, copy))
    ensures Step(s, Fetch(w, copy)) == DoFetch(s, w, copy)
  {
    hide DoFetch, Iso;
  }

  lemma Fetches(s: State, w: nat, n: int)
    requires GRANT in s.records && s.records[GRANT] == RecordAt(n)
    requires w in s.requests && s.requests[w].pc == Bumping(GRANT, 0, Reading) && s.requests[w].recordedAt == 0
    ensures Step(s, Fetch(w, RecordAt(n))) ==
      SetRequest(s, w, s.requests[w].(pc := Bumping(GRANT, 0, Writing(RecordAt(n + 1), EtagOf(RecordAt(n)), |s.history|))))
  {
    hide CountIs, ReadCount, RecordAt, Bumped, Iso, EtagOf, Step, DoFetch, SetRequest;
    IsoReflexive(RecordAt(n));
    RecordCount(n);
    CountRead(RecordAt(n), GRANT, n);
    BumpedRecord(n);
    assert Enabled(s, Fetch(w, RecordAt(n)));
    StepFetches(s, w, RecordAt(n));
    FetchesCount(s, w, RecordAt(n), n);
  }

  lemma FetchesCount(s: State, w: nat, copy: Graph, n: int)
    requires GRANT in s.records && ReadCount(copy, GRANT) == Number(n)
    requires w in s.requests && s.requests[w].pc == Bumping(GRANT, 0, Reading)
    ensures DoFetch(s, w, copy) ==
      SetRequest(s, w, s.requests[w].(pc :=
        Bumping(GRANT, 0, Writing(Bumped(copy, GRANT, n, s.requests[w].recordedAt), EtagOf(s.records[GRANT]), |s.history|))))
  {
    hide ReadCount, Bumped, EtagOf;
  }

  lemma Passes(s: State, w: nat, n: int, readAt: nat)
    requires GRANT in s.records && s.records[GRANT] == RecordAt(n) && w in s.requests
    requires s.requests[w].pc == Bumping(GRANT, 0, Writing(RecordAt(n + 1), EtagOf(RecordAt(n)), readAt))
    ensures Step(s, Guard(w, RecordAt(n + 1))) ==
      SetRequest(s, w, s.requests[w].(pc := Bumping(GRANT, 0, Replacing(RecordAt(n + 1), EtagOf(RecordAt(n)), readAt))))
  {
    IsoReflexive(RecordAt(n + 1));
    RecordCount(n);
    RecordCount(n + 1);
    IsoReflexive({});
    hide CountIs, RecordAt, Iso, EtagOf, OutOfScope;
  }

  lemma Commits(s: State, w: nat, n: int, readAt: nat)
    requires GRANT in s.records && s.records[GRANT] == RecordAt(n) && w in s.requests
    requires s.requests[w].pc == Bumping(GRANT, 0, Replacing(RecordAt(n + 1), EtagOf(RecordAt(n)), readAt))
    ensures var s' := Step(s, Replace(w, RecordAt(n + 1)));
            && s'.records == s.records[GRANT := RecordAt(n + 1)] && s'.policies == s.policies
            && SameBut(s, s', w) && s'.requests[w].pc.Bumping?
  {
    IsoReflexive(RecordAt(n + 1));
    hide RecordAt, Iso, EtagOf;
  }

  lemma GivesUp(s: State, w: nat)
    requires w in s.requests && s.requests[w].pc.Bumping?
    ensures Step(s, Abandon(w)) == SetRequest(s, w, s.requests[w].(pc := Finished(Aborted)))
  {
  }

  /** The commit's step extends the run: it changes the record and the request that committed. */
  lemma CommitAdvances(labels: seq<Label>, m: int, k: int, s: State, w: nat, n: int, readAt: nat, lo: nat, hi: nat)
    requires RunTo(labels, m, k, s) && Within(s, m, lo, hi) && lo <= w < hi && hi - lo <= k
    requires GRANT in s.records && s.records[GRANT] == RecordAt(n) && w in s.requests
    requires s.requests[w].pc == Bumping(GRANT, 0, Replacing(RecordAt(n + 1), EtagOf(RecordAt(n)), readAt))
    ensures var l := Replace(w, RecordAt(n + 1));
            RunTo(labels + [l], m, k, Step(s, l)) && Within(Step(s, l), m, lo, hi)
  {
    var l := Replace(w, RecordAt(n + 1));
    Commits(s, w, n, readAt);
    hide Step, RecordAt, EtagOf, RunTo;
    Extend(labels, l, m, k, s, Step(s, l), lo, hi);
  }

  /** The first waiting request bumps the counter and ends. */
  lemma Bumps(labels: seq<Label>, s: State, m: int, k: int, n: int, lo: nat, hi: nat) returns (more: seq<Label>, s': State)
    requires RunTo(labels, m, k, s) && Ready(s, m, n, lo, hi) && lo < hi && hi - lo <= k
    ensures RunTo(more, m, k, s') && Ready(s', m, n + 1, lo + 1, hi)
  {
    hide Step, RecordAt, SetRequest, RunTo, CeilingOf, EtagOf;
    var w := lo;
    var l1, l2, l3, l4, l5 :=
      Record(w, 0), Fetch(w, RecordAt(n)), Guard(w, RecordAt(n + 1)), Replace(w, RecordAt(n + 1)), Abandon(w);
    Begins(s, w);
    var r1 := s.requests[w].(recordedAt := 0, since := |s.history|, pc := Bumping(GRANT, 0, Reading));
    Advances(labels, l1, m, k, s, w, r1, lo, hi);
    var s1 := SetRequest(s, w, r1);
    Fetches(s1, w, n);
    var r2 := r1.(pc := Bumping(GRANT, 0, Writing(RecordAt(n + 1), EtagOf(RecordAt(n)), |s1.history|)));
    Advances(labels + [l1], l2, m, k, s1, w, r2, lo, hi);
    var s2 := SetRequest(s1, w, r2);
    Passes(s2, w, n, |s1.history|);
    var r3 := r2.(pc := Bumping(GRANT, 0, Replacing(RecordAt(n + 1), EtagOf(RecordAt(n)), |s1.history|)));
    Advances(labels + [l1] + [l2], l3, m, k, s2, w, r3, lo, hi);
    var s3 := SetRequest(s2, w, r3);
    Commits(s3, w, n, |s1.history|);
    CommitAdvances(labels + [l1] + [l2] + [l3], m, k, s3, w, n, |s1.history|, lo, hi);
    var s4 := Step(s3, l4);
    GivesUp(s4, w);
    var r5 := s4.requests[w].(pc := Finished(Aborted));
    Advances(labels + [l1] + [l2] + [l3] + [l4], l5, m, k, s4, w, r5, lo, hi);
    more, s' := labels + [l1] + [l2] + [l3] + [l4] + [l5], SetRequest(s4, w, r5);
    hide SameBut, Moved, Ready;
    MovedIsSame(s, s1, w, r1);
    MovedIsSame(s1, s2, w, r2);
    MovedIsSame(s2, s3, w, r3);
    MovedIsSame(s4, s', w, r5);
    SameButTwice(s, s1, s2, w);
    SameButTwice(s, s2, s3, w);
    SameButTwice(s, s3, s4, w);
    SameButTwice(s, s4, s', w);
    BumpedReady(s, s', m, n, lo, hi);
  }

  /** s' has the requests of s, all but w as they were. */
  predicate SameBut(s: State, s': State, w: nat) {
    s'.requests.Keys == s.requests.Keys
    && forall v: nat :: v in s.requests && v != w ==> s'.requests[v] == s.requests[v]
  }

  lemma SameButTwice(s: State, s1: State, s2: State, w: nat)
    requires SameBut(s, s1, w) && SameBut(s1, s2, w)
    ensures SameBut(s, s2, w)
  {
  }

  lemma MovedIsSame(s: State, s': State, w: nat, r: Request)
    requires Moved(s, s', w, r) && w in s.requests
    ensures SameBut(s, s', w)
  {
    assert forall v: nat :: v in s'.requests.Keys <==> v in s.requests.Keys;
  }

  /** What the five steps of a bump make of the state. */
  lemma BumpedReady(s: State, s': State, m: int, n: int, lo: nat, hi: nat)
    requires Ready(s, m, n, lo, hi) && lo < hi && SameBut(s, s', lo)
    requires s'.records == s.records[GRANT := RecordAt(n + 1)] && s'.policies == s.policies
    requires lo in s'.requests && s'.requests[lo].pc.Finished?
    ensures Ready(s', m, n + 1, lo + 1, hi)
  {
    hide RecordAt, CeilingOf, Waiting;
    assert forall v: nat :: v in s'.requests.Keys <==> v in s.requests.Keys;
  }

  // ------------------------------------------------------------------------------ the run

  lemma EmptyReady(s: State, m: int)
    requires s.records == map[GRANT := RecordAt(0), VIEW := VIEW_RECORD]
    requires s.policies == map["grant" := CeilingOf(m)] && s.requests == map[]
    ensures Ready(s, m, 0, 0, 0) && Within(s, m, 0, 0)
  {
    hide RecordAt, CeilingOf;
  }

  lemma Seeds(m: int, k: int) returns (labels: seq<Label>, s: State)
    requires k >= 1
    ensures RunTo(labels, m, k, s) && Ready(s, m, 0, 0, 0)
  {
    RecordCount(0);
    ViewCount();
    var l1, l2 := OwnerWrite(GRANT, RecordAt(0)), OwnerWrite(VIEW, VIEW_RECORD);
    var s0 := Start(m);
    assert InFlightSet(s0, GRANT) == {};
    assert RunTo([], m, k, s0);
    var s1 := Step(s0, l1);
    var s2 := Step(s1, l2);
    assert s1 == Write(s0, GRANT, Owner, RecordAt(0));
    assert s2 == Write(s1, VIEW, Owner, VIEW_RECORD);
    assert s2.records == map[GRANT := RecordAt(0), VIEW := VIEW_RECORD];
    hide Step, RecordAt, RunTo, Ready, CeilingOf;
    EmptyReady(s2, m);
    Extend([], l1, m, k, s0, s1, 0, 0);
    Extend([] + [l1], l2, m, k, s1, s2, 0, 0);
    labels, s := [] + [l1] + [l2], s2;
  }

  /** n deliveries one after another. */
  lemma {:induction false} Climbs(m: int, k: int, n: nat) returns (labels: seq<Label>, s: State)
    requires k >= 1 && n < m
    ensures RunTo(labels, m, k, s) && Ready(s, m, n, n, n)
  {
    hide Ready, RunTo;
    if n == 0 {
      labels, s := Seeds(m, k);
    } else {
      labels, s := Climbs(m, k, n - 1);
      labels, s := Enters(labels, s, m, k, n - 1, n - 1, n - 1);
      labels, s := Bumps(labels, s, m, k, n - 1, n - 1, n);
    }
  }

  /** j requests pass the policy at the count m - 1. */
  lemma {:induction false} Gathers(m: int, k: int, j: nat) returns (labels: seq<Label>, s: State)
    requires m >= 1 && j <= k && k >= 1
    ensures RunTo(labels, m, k, s) && Ready(s, m, m - 1, m - 1, m - 1 + j)
  {
    hide Ready, RunTo;
    if j == 0 {
      labels, s := Climbs(m, k, m - 1);
    } else {
      labels, s := Gathers(m, k, j - 1);
      labels, s := Enters(labels, s, m, k, m - 1, m - 1, m - 1 + (j - 1));
    }
  }

  /** Then j of the k gathered requests bump. */
  lemma {:induction false} Overshoots(m: int, k: int, j: nat) returns (labels: seq<Label>, s: State)
    requires m >= 1 && j <= k && k >= 1
    ensures RunTo(labels, m, k, s) && Ready(s, m, m - 1 + j, m - 1 + j, m - 1 + k)
  {
    hide Ready, RunTo;
    if j == 0 {
      labels, s := Gathers(m, k, k);
    } else {
      labels, s := Overshoots(m, k, j - 1);
      labels, s := Bumps(labels, s, m, k, m - 1 + (j - 1), m - 1 + (j - 1), m - 1 + k);
    }
  }

  /** A run within the hypotheses of the ceiling theorem that reaches its bound. */
  lemma CeilingIsTight(m: int, k: int)
    requires m >= 0 && k >= 1
    ensures exists s0: State, labels: seq<Label>, ref: Ref ::
      && Init(s0) && OnlyClientBumps(labels, ref) && Bounded(s0, labels, ref, m, k)
      && ref in Exec(s0, labels).records && CountIs(Exec(s0, labels).records[ref], ref, Most(m, k))
  {
    var labels, s;
    if m == 0 {
      labels, s := Seeds(m, k);
    } else {
      labels, s := Overshoots(m, k, k);
    }
    RecordCount(Most(m, k));
    assert Init(Start(m));
    assert Exec(Start(m), labels) == s && s.records[GRANT] == RecordAt(Most(m, k));
  }
}

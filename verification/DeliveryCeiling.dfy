/**
 The retrieval ceilings under concurrency.  A request decides on a count it read earlier, so a
 ceiling M can be overshot; with at most K requests in flight at once it never exceeds
 M + K - 1, and a ceiling of zero lets nothing through.  The grant's ceiling counts the requests of the grant, the view's ceiling the
 requests for the view across all grants.
 */
module DeliveryCeiling {
  import opened Options
  import opened Rdf
  import opened Preconditions
  import opened Delivery
  import opened DeliveryCounts
  import opened DeliveryProgress
  import P = Policy

  /** Request r has read the counter of ref and has not finished. */
  predicate InFlight(r: Request, ref: Ref) {
    !r.pc.Finished? && (r.token == ref || (r.view == ref && r.seenView.Some?))
  }

  function Seen(r: Request, ref: Ref): int {
    if r.token == ref then r.grant.enforcementCount
    else if r.seenView.Some? then r.seenView.value.retrievalCount
    else 0
  }

  /** Requests that may still bump ref. */
  predicate IsPending(r: Request, ref: Ref, m: int) {
    InFlight(r, ref) && Seen(r, ref) < m && !HasBumped(r, ref)
  }

  function InFlightSet(s: State, ref: Ref): set<nat> {
    set w | w in s.requests && InFlight(s.requests[w], ref)
  }

  function Pending(s: State, ref: Ref, m: int): set<nat> {
    set w | w in s.requests && IsPending(s.requests[w], ref, m)
  }

  /** The ceiling of ref is m: the grant's policy says so, or the view's record does. */
  ghost predicate LimitIs(s: State, ref: Ref, m: int) {
    match ref
    case TokenRef(uri) => uri in s.policies && s.policies[uri].maxRetrievals == Some(m)
    case ViewRef(_) => ref in s.records ==> Objects(s.records[ref], Subject(ref), MAX_VIEW_RETRIEVALS) == {Num(m)}
  }

  ghost predicate Decided(r: Request, ref: Ref, m: int) {
    && Seen(r, ref) >= 0
    && (r.pc.Cleared? || r.pc.Bumping? || r.pc.Logging? ==> Seen(r, ref) < m)
    && (r.seenView.Some? && ref.ViewRef? ==> r.seenView.value.maxRetrievals == Some(m))
  }

  ghost predicate Concerned(r: Request, ref: Ref) {
    r.token == ref || (r.view == ref && r.seenView.Some?)
  }

  ghost predicate RequestsDecided(s: State, ref: Ref, m: int) {
    && (forall w :: w in s.requests && Concerned(s.requests[w], ref) ==> Decided(s.requests[w], ref, m))
    && (forall w :: w in s.requests && !s.requests[w].pc.Authenticated? && !s.requests[w].pc.Finished? ==>
          s.requests[w].seenView.Some?)
  }

  /** What a ceiling lets through: nothing at zero, else itself and all but one of those in flight. */
  function Most(m: int, k: int): int {
    if m == 0 then 0 else m + k - 1
  }

  ghost predicate WithinCeiling(s: State, ref: Ref, m: int, k: int) {
    ref in s.records ==> CommitsSince(s.history, ref) + |Pending(s, ref, m)| <= Most(m, k)
  }

  ghost predicate CeilingInv(s: State, ref: Ref, m: int, k: int) {
    && CountInv(s, ref) && ProgressInv(s)
    && RequestsDecided(s, ref, m)
    && WithinCeiling(s, ref, m, k)
  }

  /** In every state on the way the ceiling is m and at most k requests are in flight. */
  ghost predicate Bounded(s0: State, labels: seq<Label>, ref: Ref, m: int, k: int) {
    forall n :: 0 <= n <= |labels| ==>
      var s := Exec(s0, labels[..n]);
      LimitIs(s, ref, m) && |InFlightSet(s, ref)| <= k
  }

  // --------------------------------------------------------------------- cardinality

  lemma SubsetCard(a: set<nat>, b: set<nat>)
    requires a <= b
    ensures |a| <= |b|
  {
    assert b == a + (b - a);
  }

  lemma PendingInFlight(s: State, ref: Ref, m: int)
    ensures |Pending(s, ref, m)| <= |InFlightSet(s, ref)|
  {
    SubsetCard(Pending(s, ref, m), InFlightSet(s, ref));
  }

  // --------------------------------------------------------------------------- steps

  /** Changing one request without bumping ref or newly reading it keeps the bound. */
  lemma CeilingFrame(s: State, s': State, w: nat, ref: Ref, m: int, k: int)
    requires CeilingInv(s, ref, m, k) && OnlyRequest(s, s', w)
    requires CountInv(s', ref) && ProgressInv(s') && RequestsDecided(s', ref, m)
    requires w in s'.requests && IsPending(s'.requests[w], ref, m) ==>
               w in s.requests && IsPending(s.requests[w], ref, m)
    ensures CeilingInv(s', ref, m, k)
  {
    assert Pending(s', ref, m) <= Pending(s, ref, m);
    SubsetCard(Pending(s', ref, m), Pending(s, ref, m));
  }

  /** A request that newly reads the counter is either beyond the ceiling or one of k in flight. */
  lemma CeilingRead(s: State, s': State, w: nat, ref: Ref, m: int, k: int)
    requires CeilingInv(s, ref, m, k) && OnlyRequest(s, s', w)
    requires CountInv(s', ref) && ProgressInv(s') && RequestsDecided(s', ref, m)
    requires ref in s.records && w in s'.requests
    requires IsPending(s'.requests[w], ref, m) ==> Seen(s'.requests[w], ref) == CommitsSince(s.history, ref)
    requires |InFlightSet(s', ref)| <= k
    ensures CeilingInv(s', ref, m, k)
  {
    if IsPending(s'.requests[w], ref, m) {
      assert Decided(s'.requests[w], ref, m);
      PendingInFlight(s', ref, m);
    } else {
      assert Pending(s', ref, m) <= Pending(s, ref, m);
      SubsetCard(Pending(s', ref, m), Pending(s, ref, m));
    }
  }

  /** A request that bumped is pending no more; every other one is as it was. */
  lemma PendingAfterBump(s: State, w: nat, g: Graph, ref: Ref, m: int)
    requires InPhase(s, w) && Shape(s.requests[w])
    ensures var done := s.requests[w].pc.ref;
            var s' := Advance(Write(s, done, Engine(w), g), w);
            && Pending(s', ref, m) <= Pending(s, ref, m)
            && (done == ref ==> Pending(s', ref, m) == Pending(s, ref, m) - {w})
  {
    var s' := Advance(Write(s, s.requests[w].pc.ref, Engine(w), g), w);
    assert forall v :: v != w ==> (v in s'.requests <==> v in s.requests);
    assert forall v :: v != w && v in s.requests ==> s'.requests[v] == s.requests[v];
  }

  lemma CeilingCommit(s: State, w: nat, g: Graph, ref: Ref, m: int, k: int)
    requires CeilingInv(s, ref, m, k) && InPhase(s, w) && s.requests[w].pc.ref in s.records
    requires var s' := Advance(Write(s, s.requests[w].pc.ref, Engine(w), g), w);
             CountInv(s', ref) && ProgressInv(s')
    ensures CeilingInv(Advance(Write(s, s.requests[w].pc.ref, Engine(w), g), w), ref, m, k)
  {
    var done := s.requests[w].pc.ref;
    var s' := Advance(Write(s, done, Engine(w), g), w);
    HistoryAppend(s.history, Wrote(done, Engine(w), g));
    assert Shape(s.requests[w]);
    PendingAfterBump(s, w, g, ref, m);
    if done == ref {
      assert Decided(s.requests[w], ref, m);
      assert w in Pending(s, ref, m);
      assert |Pending(s', ref, m)| == |Pending(s, ref, m)| - 1;
    } else {
      SubsetCard(Pending(s', ref, m), Pending(s, ref, m));
    }
    forall v | v in s'.requests && Concerned(s'.requests[v], ref) ensures Decided(s'.requests[v], ref, m) {
      assert Decided(s.requests[v], ref, m);
    }
  }

  /** The owner's write restarts the count; what is in flight is at most k, and none if m is 0. */
  lemma CeilingOwnerWrite(s: State, written: Ref, g: Graph, ref: Ref, m: int, k: int)
    requires CeilingInv(s, ref, m, k) && m >= 0 && k >= 1
    requires var s' := Write(s, written, Owner, g); CountInv(s', ref) && ProgressInv(s')
    requires |InFlightSet(s, ref)| <= k
    ensures CeilingInv(Write(s, written, Owner, g), ref, m, k)
  {
    var s' := Write(s, written, Owner, g);
    HistoryAppend(s.history, Wrote(written, Owner, g));
    assert Pending(s', ref, m) == Pending(s, ref, m);
    if written == ref {
      PendingInFlight(s, ref, m);
      if m == 0 {
        forall w ensures w !in Pending(s, ref, 0) {
          assert w in s.requests && Concerned(s.requests[w], ref) ==> Decided(s.requests[w], ref, m);
        }
        assert Pending(s, ref, 0) == {};
      }
    }
  }

  lemma CeilingOtherEvent(s: State, s': State, ref: Ref, m: int, k: int)
    requires CeilingInv(s, ref, m, k) && CountInv(s', ref) && ProgressInv(s')
    requires s'.requests == s.requests
    requires ref in s'.records ==> ref in s.records && CommitsSince(s'.history, ref) == CommitsSince(s.history, ref)
    ensures CeilingInv(s', ref, m, k)
  {
    assert Pending(s', ref, m) == Pending(s, ref, m);
  }

  lemma CeilingLoopFrame(s: State, s': State, w: nat, ref: Ref, m: int, k: int)
    requires CeilingInv(s, ref, m, k) && LoopMove(s, s', w)
    requires CountInv(s', ref) && ProgressInv(s')
    ensures CeilingInv(s', ref, m, k)
  {
    assert Concerned(s.requests[w], ref) ==> Decided(s.requests[w], ref, m);
    CeilingFrame(s, s', w, ref, m, k);
  }

  /** s' is s with only the program counter of w moved on, within or out of its bump loop. */
  ghost predicate LoopMove(s: State, s': State, w: nat) {
    && OnlyRequest(s, s', w) && InPhase(s, w) && w in s'.requests
    && (s'.requests[w].pc.Bumping? || s'.requests[w].pc.Finished?)
    && s'.requests[w] == s.requests[w].(pc := s'.requests[w].pc)
  }

  lemma RetryMoves(s: State, w: nat)
    requires InPhase(s, w)
    ensures LoopMove(s, Retry(s, w), w)
  {
  }

  lemma FetchMoves(s: State, w: nat, copy: Graph)
    requires InPhase(s, w)
    ensures LoopMove(s, DoFetch(s, w, copy), w)
  {
  }

  lemma GotoMoves(s: State, w: nat, pc: Pc)
    requires InPhase(s, w) && (pc.Bumping? || pc.Finished?)
    ensures LoopMove(s, Goto(s, w, pc), w)
  {
  }

  lemma GuardMoves(s: State, w: nat, body: Graph)
    requires InPhase(s, w) && s.requests[w].pc.phase.Writing?
    ensures LoopMove(s, DoGuard(s, w, body), w)
  {
    var pc := s.requests[w].pc;
    match GuardPut(s, pc.ref, body, Tag(pc.phase.tag), false)
    case Passed(etag) => GotoMoves(s, w, Bumping(pc.ref, pc.attempt, Replacing(body, etag, pc.phase.readAt)));
    case Stale412 => RetryMoves(s, w);
    case _ => GotoMoves(s, w, Finished(Aborted));
  }

  lemma CeilingAuthenticate(s: State, l: Label, ref: Ref, m: int, k: int)
    requires CeilingInv(s, ref, m, k) && l.Authenticate? && Enabled(s, l)
    requires CountInv(Step(s, l), ref) && ProgressInv(Step(s, l))
    requires |InFlightSet(Step(s, l), ref)| <= k
    ensures CeilingInv(Step(s, l), ref, m, k)
  {
    PipelineFrame(s, l);
    var s' := Step(s, l);
    assert s' == DoAuthenticate(s, l.w, l.token, l.view);
    var token := TokenRef(l.token);
    if ReadCount(s.records[token], token).Malformed? {
    } else if token == ref {
      CountRead(s.records[ref], ref, CommitsSince(s.history, ref));
      CeilingRead(s, s', l.w, ref, m, k);
    } else {
      CeilingFrame(s, s', l.w, ref, m, k);
    }
  }

  /** Loading the view reads the record's current count and its ceiling. */
  lemma LoadViewReads(s: State, w: nat, c: int, m: int)
    requires w in s.requests && s.requests[w].view in s.records
    requires var ref := s.requests[w].view;
             && CountIs(s.records[ref], ref, c)
             && Objects(s.records[ref], Subject(ref), MAX_VIEW_RETRIEVALS) == {Num(m)}
    ensures DoLoadView(s, w) ==
            SetRequest(s, w, s.requests[w].(seenView := Some(P.ViewState(c, Some(m))), pc := ViewLoaded))
  {
    var ref := s.requests[w].view;
    CountRead(s.records[ref], ref, c);
    LimitRead(s.records[ref], ref, m);
  }

  lemma LoadViewElsewhere(s: State, w: nat)
    requires w in s.requests
    ensures OnlyRequest(s, DoLoadView(s, w), w) && w in DoLoadView(s, w).requests
    ensures var r, r' := s.requests[w], DoLoadView(s, w).requests[w];
            || (r'.pc.Finished? && r' == r.(pc := r'.pc))
            || (r'.pc.ViewLoaded? && r'.seenView.Some? && r' == r.(seenView := r'.seenView, pc := r'.pc))
  {
    hide Loaded;
    LoadedShape(s, s.requests[w]);
  }

  lemma DeniedUnread(s: State, r: Request)
    requires r.view !in s.records
    ensures Loaded(s, r) == r.(pc := Finished(Denied))
  {
  }

  lemma CeilingLoadView(s: State, w: nat, ref: Ref, m: int, k: int)
    requires CeilingInv(s, ref, m, k) && Enabled(s, LoadView(w))
    requires CountInv(DoLoadView(s, w), ref) && ProgressInv(DoLoadView(s, w))
    requires LimitIs(s, ref, m) && |InFlightSet(DoLoadView(s, w), ref)| <= k
    ensures CeilingInv(DoLoadView(s, w), ref, m, k)
  {
    hide Loaded, CountIs;
    var s' := DoLoadView(s, w);
    var r := s.requests[w];
    assert Shape(r);
    LoadViewElsewhere(s, w);
    assert Concerned(r, ref) ==> Decided(r, ref, m);
    if r.view == ref && ref in s.records {
      LoadViewReads(s, w, CommitsSince(s.history, ref), m);
      assert Decided(s'.requests[w], ref, m);
      CeilingRead(s, s', w, ref, m, k);
    } else {
      if r.view == ref {
        assert Loaded(s, r) == r.(pc := Finished(Denied)) by { DeniedUnread(s, r); }
      }
      CeilingFrame(s, s', w, ref, m, k);
    }
  }

  lemma LimitRead(g: Graph, ref: Ref, m: int)
    requires Objects(g, Subject(ref), MAX_VIEW_RETRIEVALS) == {Num(m)}
    ensures ReadInt(g, Subject(ref), MAX_VIEW_RETRIEVALS) == Number(m)
  {
    assert Num(m) in Objects(g, Subject(ref), MAX_VIEW_RETRIEVALS);
  }

  lemma CeilingDecide(s: State, l: Label, ref: Ref, m: int, k: int)
    requires CeilingInv(s, ref, m, k) && l.Decide? && Enabled(s, l) && LimitIs(s, ref, m)
    requires CountInv(Step(s, l), ref) && ProgressInv(Step(s, l))
    ensures CeilingInv(Step(s, l), ref, m, k)
  {
    hide CommitsSince, CountIs, EtagOf;
    PipelineFrame(s, l);
    var s' := Step(s, l);
    var r := s.requests[l.w];
    assert s' == DoDecide(s, l.w, l.now);
    assert Shape(r);
    assert Concerned(r, ref) ==> Decided(r, ref, m);
    CeilingFrame(s, s', l.w, ref, m, k);
  }

  lemma CeilingTail(s: State, l: Label, ref: Ref, m: int, k: int)
    requires CeilingInv(s, ref, m, k) && Enabled(s, l) && (l.Record? || l.Abandon? || l.Append?)
    requires CountInv(Step(s, l), ref) && ProgressInv(Step(s, l))
    ensures CeilingInv(Step(s, l), ref, m, k)
  {
    hide CommitsSince, CountIs, EtagOf;
    PipelineFrame(s, l);
    var s' := Step(s, l);
    var r := s.requests[l.w];
    assert Concerned(r, ref) ==> Decided(r, ref, m);
    match l {
      case Record(w, now) => assert s' == DoRecord(s, w, now);
      case Abandon(w) => assert s' == Goto(s, w, Finished(Aborted));
      case Append(w, id) => assert s' == DoAppend(s, w, id);
    }
    CeilingFrame(s, s', l.w, ref, m, k);
  }

  lemma CeilingLoopStep(s: State, l: Label, ref: Ref, m: int, k: int)
    requires CeilingInv(s, ref, m, k) && Enabled(s, l) && (l.Fetch? || l.Guard? || l.Replace?)
    requires CountInv(Step(s, l), ref) && ProgressInv(Step(s, l))
    ensures CeilingInv(Step(s, l), ref, m, k)
  {
    match l
    case Fetch(w, copy) =>
      FetchMoves(s, w, copy);
      CeilingLoopFrame(s, DoFetch(s, w, copy), w, ref, m, k);
    case Guard(w, body) =>
      GuardMoves(s, w, body);
      CeilingLoopFrame(s, DoGuard(s, w, body), w, ref, m, k);
    case Replace(w, stored) =>
      if Unchanged(s, s.requests[w].pc.ref, s.requests[w].pc.phase.tag) {
        CeilingCommit(s, w, stored, ref, m, k);
      } else {
        RetryMoves(s, w);
        CeilingLoopFrame(s, Retry(s, w), w, ref, m, k);
      }
  }

  /** These steps touch no request and bring no record of ref into being. */
  lemma OutsideKeeps(s: State, l: Label, ref: Ref)
    requires Enabled(s, l) && (l.OwnerDelete? || l.OwnerPolicy? || l.RawGuard? || l.RawReplace?)
    requires forall p :: p in s.puts ==> s.puts[p].ref != ref
    ensures var s' := Step(s, l);
            && s'.requests == s.requests
            && (ref in s'.records ==> ref in s.records && CommitsSince(s'.history, ref) == CommitsSince(s.history, ref))
  {
    hide EtagOf, GuardPut, Iso;
    match l {
      case OwnerDelete(deleted) => HistoryAppend(s.history, Deleted(deleted));
      case RawReplace(p, stored) => HistoryAppend(s.history, Wrote(s.puts[p].ref, Raw(p), stored));
      case _ =>
    }
  }

  lemma CeilingOutside(s: State, l: Label, ref: Ref, m: int, k: int)
    requires CeilingInv(s, ref, m, k) && Enabled(s, l) && (l.RawGuard? ==> l.ref != ref)
    requires l.OwnerDelete? || l.OwnerPolicy? || l.RawGuard? || l.RawReplace?
    requires CountInv(Step(s, l), ref) && ProgressInv(Step(s, l))
    ensures CeilingInv(Step(s, l), ref, m, k)
  {
    hide Step, Enabled, RequestsDecided, WithinCeiling, ProgressInv;
    OutsideKeeps(s, l, ref);
    CeilingOtherEvent(s, Step(s, l), ref, m, k);
  }

  lemma CeilingStep(s: State, l: Label, ref: Ref, m: int, k: int)
    requires m >= 0 && k >= 1
    requires CeilingInv(s, ref, m, k) && (l.RawGuard? ==> l.ref != ref)
    requires LimitIs(s, ref, m) && |InFlightSet(s, ref)| <= k && |InFlightSet(Step(s, l), ref)| <= k
    ensures CeilingInv(Step(s, l), ref, m, k)
  {
    CountStep(s, l, ref);
    ProgressStep(s, l);
    if Enabled(s, l) {
      match l
      case Authenticate(_, _, _) => CeilingAuthenticate(s, l, ref, m, k);
      case LoadView(w) => CeilingLoadView(s, w, ref, m, k);
      case Decide(_, _) => CeilingDecide(s, l, ref, m, k);
      case Replace(_, _) => CeilingLoopStep(s, l, ref, m, k);
      case Fetch(_, _) => CeilingLoopStep(s, l, ref, m, k);
      case Guard(_, _) => CeilingLoopStep(s, l, ref, m, k);
      case OwnerWrite(written, graph) => CeilingOwnerWrite(s, written, graph, ref, m, k);
      case OwnerDelete(_) => CeilingOutside(s, l, ref, m, k);
      case OwnerPolicy(_, _) => CeilingOutside(s, l, ref, m, k);
      case RawGuard(_, _, _, _, _) => CeilingOutside(s, l, ref, m, k);
      case RawReplace(_, _) => CeilingOutside(s, l, ref, m, k);
      case _ => CeilingTail(s, l, ref, m, k);
    }
  }

  lemma {:induction false} CeilingReachable(s0: State, labels: seq<Label>, ref: Ref, m: int, k: int)
    requires Init(s0) && OnlyClientBumps(labels, ref)
    requires m >= 0 && k >= 1 && Bounded(s0, labels, ref, m, k)
    ensures CeilingInv(Exec(s0, labels), ref, m, k)
  {
    if labels == [] {
      assert Pending(s0, ref, m) == {};
    } else {
      var n := |labels| - 1;
      forall i | 0 <= i <= n ensures labels[..n][..i] == labels[..i] {
      }
      CeilingReachable(s0, labels[..n], ref, m, k);
      assert labels[..n + 1] == labels;
      CeilingStep(Exec(s0, labels[..n]), labels[n], ref, m, k);
    }
  }

  /**
   The counter never exceeds the ceiling by more than the requests in flight minus one, and under
   a ceiling of zero it stays zero.
   */
  lemma CeilingUnderConcurrency(s0: State, labels: seq<Label>, ref: Ref, m: int, k: int)
    requires Init(s0) && OnlyClientBumps(labels, ref)
    requires m >= 0 && k >= 1 && Bounded(s0, labels, ref, m, k)
    ensures var s := Exec(s0, labels);
            ref in s.records ==> exists c :: CountIs(s.records[ref], ref, c) && 0 <= c <= Most(m, k)
  {
    CeilingReachable(s0, labels, ref, m, k);
    var s := Exec(s0, labels);
    if ref in s.records {
      assert CountIs(s.records[ref], ref, CommitsSince(s.history, ref));
    }
  }
}

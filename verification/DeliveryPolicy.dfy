/**
 The access policy in the running system.  What a decision does to a request is said over the
 stored policy, the grant's record and the view's record as they were read; and in every
 interleaving whatever a request writes or logs follows a decision that the policy allowed.
 */
module DeliveryPolicy {
  import opened Options
  import opened Rdf
  import opened Preconditions
  import opened Vocabulary
  import opened Delivery
  import opened DeliveryProgress
  import opened DeliverySuccess
  import DeliveryBudget
  import P = Policy

  // --------------------------------------------------------------------- what is decided

  /** Seconds are kept as whole microseconds; a grant never used holds the epoch, zero. */
  ghost predicate MayServe(s: State, r: Request, now: int)
    requires r.seenView.Some?
  {
    && (r.token.uri in s.policies ==>
          var p := s.policies[r.token.uri];
          && (p.expiresAt.Some? ==> now <= p.expiresAt.value)
          && (p.validFrom.Some? ==> p.validFrom.value <= now)
          && (p.validUntil.Some? ==> now <= p.validUntil.value)
          && (p.maxRetrievals.Some? ==> r.grant.enforcementCount < p.maxRetrievals.value)
          && (p.minInterval.Some? && r.grant.lastUsedAt != 0 ==>
                r.grant.lastUsedAt + p.minInterval.value * 1_000_000 <= now))
    && (r.seenView.value.maxRetrievals.Some? ==> r.seenView.value.retrievalCount < r.seenView.value.maxRetrievals.value)
  }

  /** A decision clears the request exactly when it may be served, ends it otherwise, and does nothing else. */
  lemma DecideIff(s: State, w: nat, now: int)
    requires w in s.requests && s.requests[w].pc.ViewLoaded? && s.requests[w].seenView.Some?
    ensures var r := s.requests[w];
            Step(s, Decide(w, now)) ==
            s.(requests := s.requests[w := r.(pc := if MayServe(s, r, now) then Cleared else Finished(Denied))])
  {
    var r := s.requests[w];
    P.AllowedIff(r.grant, if r.token.uri in s.policies then Some(s.policies[r.token.uri]) else None, r.seenView.value, now);
    hide P.CheckPolicy;
  }

  /** The one number, or the one instant, recorded of a subject. */
  ghost predicate OnlyObject(g: Graph, s: Term, p: Term, o: Term) {
    Triple(s, p, o) in g && forall t :: t in g && t.s == s && t.p == p ==> t.o == o
  }

  ghost predicate NoObject(g: Graph, s: Term, p: Term) {
    forall t :: t in g ==> !(t.s == s && t.p == p)
  }

  lemma OnlyIsObjects(g: Graph, s: Term, p: Term, o: Term)
    requires OnlyObject(g, s, p, o)
    ensures Objects(g, s, p) == {o}
  {
    assert Triple(s, p, o).o in Objects(g, s, p);
  }

  /** Authentication reads the grant's count and date of last use from its record, and nothing else changes. */
  lemma AuthenticateReads(s: State, w: nat, token: string, view: string, count: int, used: int)
    requires w !in s.requests && TokenRef(token) in s.records
    requires OnlyObject(s.records[TokenRef(token)], Iri(token), Iri(POD + "enforcementCount"), Num(count))
    requires OnlyObject(s.records[TokenRef(token)], Iri(token), Iri(POD + "lastUsedAt"), Instant(used))
    ensures Step(s, Authenticate(w, token, view)) ==
            s.(requests := s.requests[w := Request(TokenRef(token), ViewRef(view), P.Grant(count, used), None,
                                                  0, 0, false, false, false, Authenticated)])
  {
    var g := s.records[TokenRef(token)];
    OnlyIsObjects(g, Iri(token), ENFORCEMENT_COUNT, Num(count));
    OnlyIsObjects(g, Iri(token), LAST_USED_AT, Instant(used));
    assert Num(count) in {Num(count)} && Instant(used) in {Instant(used)};
  }

  /** A view without a record is refused. */
  lemma NoViewIsDenied(s: State, w: nat)
    requires w in s.requests && s.requests[w].pc.Authenticated? && s.requests[w].view !in s.records
    ensures Step(s, LoadView(w)) == s.(requests := s.requests[w := s.requests[w].(pc := Finished(Denied))])
  {
    hide ReadCount, ReadInt;
  }

  /** A view without a ceiling, or with one, is read with its count. */
  lemma LoadViewReads(s: State, w: nat, count: int, ceiling: Option<int>)
    requires w in s.requests && s.requests[w].pc.Authenticated? && s.requests[w].view in s.records
    requires s.requests[w].view.ViewRef?
    requires var g, v := s.records[s.requests[w].view], Iri(s.requests[w].view.uri);
             && OnlyObject(g, v, Iri(POD + "viewRetrievalCount"), Num(count))
             && match ceiling
                case None => NoObject(g, v, Iri(POD + "maxViewRetrievals"))
                case Some(m) => OnlyObject(g, v, Iri(POD + "maxViewRetrievals"), Num(m))
    ensures Step(s, LoadView(w)) ==
            s.(requests := s.requests[w := s.requests[w].(seenView := Some(P.ViewState(count, ceiling)), pc := ViewLoaded)])
  {
    var r := s.requests[w];
    var g, v := s.records[r.view], Iri(r.view.uri);
    OnlyIsObjects(g, v, VIEW_RETRIEVAL_COUNT, Num(count));
    assert Num(count) in {Num(count)};
    match ceiling
    case None => assert Objects(g, v, MAX_VIEW_RETRIEVALS) == {};
    case Some(m) =>
      OnlyIsObjects(g, v, MAX_VIEW_RETRIEVALS, Num(m));
      assert Num(m) in {Num(m)};
  }

  /** A conditional enforcement PUT is let through exactly on a record whose tag it names, changing no other field. */
  lemma RawGuardIff(s: State, p: nat, ref: Ref, body: Graph, ifMatch: IfMatch<Etag>, ifNoneMatchAny: bool)
    requires p !in s.puts
    ensures var s' := Step(s, RawGuard(p, ref, body, ifMatch, ifNoneMatchAny));
            if && ref in s.records && !ifNoneMatchAny
               && (ifMatch.AnyTag? || ifMatch == Tag(EtagOf(s.records[ref])))
               && Iso(OutOfScope(s.records[ref], ref), OutOfScope(body, ref))
            then s' == s.(puts := s.puts[p := RawPut(ref, body, EtagOf(s.records[ref]))])
            else s' == s
  {
    if ref in s.records {
      SatisfiedIff(ifMatch, ifNoneMatchAny, Present(EtagOf(s.records[ref])));
    }
    hide EtagOf, Iso, OutOfScope, CheckPreconditions;
  }

  // ---------------------------------------------------------------- what a decision allows

  /** The request is past its decision: cleared, in its bumps or about to log, or has bumped or logged. */
  predicate PastDecision(r: Request) {
    r.pc.Cleared? || r.pc.Bumping? || r.pc.Logging? || r.tokenBumped || r.viewBumped || r.logged
  }

  /** r as it is now was read and judged as q was. */
  predicate SameReads(q: Request, r: Request) {
    q.token == r.token && q.view == r.view && q.grant == r.grant && q.seenView == r.seenView
  }

  /** Step n of the run decided on w, for which the policy then in force allowed what w had read. */
  ghost predicate AllowedAt(s0: State, labels: seq<Label>, n: nat, w: nat, r: Request)
    requires n < |labels|
  {
    var s := Exec(s0, labels[..n]);
    && labels[n].Decide? && labels[n].w == w
    && w in s.requests && s.requests[w].pc.ViewLoaded? && s.requests[w].seenView.Some?
    && SameReads(s.requests[w], r)
    && MayServe(s, s.requests[w], labels[n].now)
  }

  ghost predicate WasAllowed(s0: State, labels: seq<Label>, w: nat, r: Request) {
    exists n :: 0 <= n < |labels| && AllowedAt(s0, labels, n, w, r)
  }

  /** A request comes past its decision only by a decision that allows it. */
  lemma PastStep(s: State, l: Label, w: nat)
    requires ProgressInv(s)
    requires w in Step(s, l).requests && PastDecision(Step(s, l).requests[w])
    ensures || (w in s.requests && PastDecision(s.requests[w]) && SameReads(s.requests[w], Step(s, l).requests[w]))
            || (&& l.Decide? && l.w == w && w in s.requests && s.requests[w].pc.ViewLoaded? && s.requests[w].seenView.Some?
                && SameReads(s.requests[w], Step(s, l).requests[w]) && MayServe(s, s.requests[w], l.now))
  {
    if Enabled(s, l) {
      if StepOf(l, w) {
        PastOwnStep(s, l, w);
      } else if w in s.requests {
        OthersKeep(s, l, w);
      } else {
        NoNewRequest(s, l, w);
      }
    }
  }

  lemma NoNewRequest(s: State, l: Label, w: nat)
    requires w !in s.requests && !StepOf(l, w)
    ensures w !in Step(s, l).requests
  {
    hide DoFetch, DoGuard, DoReplace, DoAuthenticate, DoLoadView, DoDecide, DoRecord, DoAppend, EtagOf, GuardPut, Iso, Seeded;
    if Enabled(s, l) {
      if Pipeline(l) {
        PipelineFrame(s, l);
      } else {
        match l
        case Fetch(v, copy) => NewFetch(s, v, copy, w);
        case Guard(v, body) => NewGuard(s, v, body, w);
        case Replace(v, stored) => NewReplace(s, v, stored, w);
        case _ =>
      }
    }
  }

  lemma NewFetch(s: State, v: nat, copy: Graph, w: nat)
    requires InPhase(s, v) && w !in s.requests
    ensures w !in DoFetch(s, v, copy).requests
  {
    hide ReadCount, Bumped, EtagOf;
  }

  lemma NewGuard(s: State, v: nat, body: Graph, w: nat)
    requires InPhase(s, v) && s.requests[v].pc.phase.Writing? && w !in s.requests
    ensures w !in DoGuard(s, v, body).requests
  {
    hide GuardPut;
  }

  lemma NewReplace(s: State, v: nat, stored: Graph, w: nat)
    requires InPhase(s, v) && s.requests[v].pc.phase.Replacing? && w !in s.requests
    ensures w !in DoReplace(s, v, stored).requests
  {
    hide Unchanged;
  }

  lemma PastOwnStep(s: State, l: Label, w: nat)
    requires Enabled(s, l) && StepOf(l, w) && (w in s.requests ==> Shape(s.requests[w]))
    requires w in Step(s, l).requests && PastDecision(Step(s, l).requests[w])
    ensures || (w in s.requests && PastDecision(s.requests[w]) && SameReads(s.requests[w], Step(s, l).requests[w]))
            || (&& l.Decide? && l.w == w && w in s.requests && s.requests[w].pc.ViewLoaded? && s.requests[w].seenView.Some?
                && SameReads(s.requests[w], Step(s, l).requests[w]) && MayServe(s, s.requests[w], l.now))
  {
    hide ReadCount, ReadInt, ReadLastUsed, Bumped, EtagOf, GuardPut, Unchanged, Iso, MayServe, Judged;
    match l
    case LoadView(_) => LoadedShape(s, s.requests[w]);
    case Decide(_, now) => DecideIff(s, w, now);
    case Fetch(_, copy) => PastFetch(s, w, copy);
    case Guard(_, body) => PastGuard(s, w, body);
    case Replace(_, stored) => PastReplace(s, w, stored);
    case _ =>
  }

  lemma PastFetch(s: State, w: nat, copy: Graph)
    requires InPhase(s, w)
    ensures w in DoFetch(s, w, copy).requests && SameReads(s.requests[w], DoFetch(s, w, copy).requests[w])
  {
    hide ReadCount, Bumped, EtagOf;
  }

  lemma PastGuard(s: State, w: nat, body: Graph)
    requires InPhase(s, w) && s.requests[w].pc.phase.Writing?
    ensures w in DoGuard(s, w, body).requests && SameReads(s.requests[w], DoGuard(s, w, body).requests[w])
  {
    hide GuardPut, SameReads;
    match GuardPut(s, s.requests[w].pc.ref, body, Tag(s.requests[w].pc.phase.tag), false)
    case Passed(etag) =>
      var pc := s.requests[w].pc;
      MovesPc(s, w, Bumping(pc.ref, pc.attempt, Replacing(body, etag, pc.phase.readAt)));
    case Stale412 => PastRetry(s, w);
    case _ => MovesPc(s, w, Finished(Aborted));
  }

  lemma MovesPc(s: State, w: nat, pc: Pc)
    requires w in s.requests
    ensures w in Goto(s, w, pc).requests && SameReads(s.requests[w], Goto(s, w, pc).requests[w])
  {
  }

  lemma PastRetry(s: State, w: nat)
    requires InPhase(s, w)
    ensures w in Retry(s, w).requests && SameReads(s.requests[w], Retry(s, w).requests[w])
  {
  }

  lemma PastReplace(s: State, w: nat, stored: Graph)
    requires InPhase(s, w) && s.requests[w].pc.phase.Replacing?
    ensures w in DoReplace(s, w, stored).requests && SameReads(s.requests[w], DoReplace(s, w, stored).requests[w])
  {
    hide Unchanged, Retry;
    PastRetry(s, w);
  }

  lemma AllowedLater(s0: State, labels: seq<Label>, l: Label, w: nat, q: Request, r: Request)
    requires WasAllowed(s0, labels, w, q) && SameReads(q, r)
    ensures WasAllowed(s0, labels + [l], w, r)
  {
    hide Exec, MayServe;
    var n :| 0 <= n < |labels| && AllowedAt(s0, labels, n, w, q);
    assert (labels + [l])[..n] == labels[..n];
    assert AllowedAt(s0, labels + [l], n, w, r);
  }

  /**
   In every interleaving a request that is cleared, bumps, logs or has done so was judged by a
   decision that the policy of its grant, the grant's and the view's ceilings allowed.
   */
  lemma {:induction false} PastWasAllowed(s0: State, labels: seq<Label>, w: nat)
    requires Init(s0)
    requires w in Exec(s0, labels).requests && PastDecision(Exec(s0, labels).requests[w])
    ensures WasAllowed(s0, labels, w, Exec(s0, labels).requests[w])
  {
    if labels != [] {
      hide Step, MayServe;
      var m := |labels| - 1;
      var before, l := labels[..m], labels[m];
      var s, s' := Exec(s0, before), Exec(s0, labels);
      assert labels == before + [l];
      ProgressReachable(s0, before);
      PastStep(s, l, w);
      if w in s.requests && PastDecision(s.requests[w]) && SameReads(s.requests[w], s'.requests[w]) {
        PastWasAllowed(s0, before, w);
        AllowedLater(s0, before, l, w, s.requests[w], s'.requests[w]);
      } else {
        assert AllowedAt(s0, labels, m, w, s'.requests[w]);
      }
    }
  }

  /** Whatever the engine wrote was written for a request that a decision had allowed. */
  lemma WrittenWasAllowed(s0: State, labels: seq<Label>, i: nat)
    requires Init(s0) && i < |Exec(s0, labels).history|
    requires var e := Exec(s0, labels).history[i]; e.Wrote? && e.writer.Engine?
    ensures var s := Exec(s0, labels);
            var w := s.history[i].writer.request;
            w in s.requests && WasAllowed(s0, labels, w, s.requests[w])
            && s.history[i].ref in {s.requests[w].token, s.requests[w].view}
  {
    hide Exec, WasAllowed;
    var s := Exec(s0, labels);
    var e := s.history[i];
    var w := e.writer.request;
    ProgressReachable(s0, labels);
    if CommitsBy(s.history, e.ref, w) == 0 {
      DeliveryBudget.NoCommitNoEvent(s.history, e.ref, w, i);
      assert false;
    }
    assert CommitsBy(s.history, e.ref, w) == ExpectedCommits(s, e.ref, w);
    PastWasAllowed(s0, labels, w);
  }

  // ------------------------------------------------------------------------------ the log

  /** Every entry is that of a request that logged it. */
  ghost predicate LogIsServed(s: State) {
    forall id :: id in s.log ==> exists w :: EntryOf(s, id, w)
  }

  ghost predicate EntryOf(s: State, id: string, w: nat) {
    && w in s.requests && s.requests[w].logged && id in s.log
    && s.log[id] == Entry(s.requests[w].view.uri, s.requests[w].token.uri, s.requests[w].recordedAt)
  }

  /** A request that has logged is finished, and stays as it is. */
  lemma LoggedStays(s: State, l: Label, w: nat)
    requires ProgressInv(s) && w in s.requests && s.requests[w].logged
    ensures w in Step(s, l).requests && Step(s, l).requests[w] == s.requests[w]
  {
    hide DoFetch, DoGuard, DoReplace, DoAuthenticate, DoLoadView, DoDecide, DoRecord, DoAppend, EtagOf, GuardPut, Iso, Seeded;
    assert Shape(s.requests[w]);
    if StepOf(l, w) {
      assert !Enabled(s, l);
    } else {
      OthersKeep(s, l, w);
    }
  }

  lemma LogOfStep(s: State, l: Label)
    ensures Enabled(s, l) && l.Append? ==>
              var r := s.requests[l.w];
              && Step(s, l).log == s.log[l.entryId := Entry(r.view.uri, r.token.uri, r.recordedAt)]
              && l.w in Step(s, l).requests
              && Step(s, l).requests[l.w] == r.(logged := true, pc := Finished(Delivered))
    ensures !(Enabled(s, l) && l.Append?) ==> Step(s, l).log == s.log
  {
    hide DoFetch, DoGuard, DoReplace, EtagOf, GuardPut, Iso, Seeded, DoAuthenticate, DoLoadView, DoDecide;
    if Enabled(s, l) {
      if l.Append? {
      } else if Pipeline(l) {
        PipelineFrame(s, l);
      } else {
        match l
        case Fetch(v, copy) => LogFetch(s, v, copy);
        case Guard(v, body) => LogGuard(s, v, body);
        case Replace(v, stored) => LogReplace(s, v, stored);
        case _ =>
      }
    }
  }

  lemma LogFetch(s: State, w: nat, copy: Graph)
    requires InPhase(s, w)
    ensures DoFetch(s, w, copy).log == s.log
  {
    hide ReadCount, Bumped, EtagOf;
  }

  lemma LogGuard(s: State, w: nat, body: Graph)
    requires InPhase(s, w) && s.requests[w].pc.phase.Writing?
    ensures DoGuard(s, w, body).log == s.log
  {
    hide GuardPut;
  }

  lemma LogReplace(s: State, w: nat, stored: Graph)
    requires InPhase(s, w) && s.requests[w].pc.phase.Replacing?
    ensures DoReplace(s, w, stored).log == s.log
  {
    hide Unchanged;
  }

  lemma LogServedStep(s: State, l: Label)
    requires ProgressInv(s) && LogIsServed(s)
    ensures LogIsServed(Step(s, l))
  {
    hide Step, ProgressInv;
    var s' := Step(s, l);
    LogOfStep(s, l);
    forall id | id in s'.log ensures exists w :: EntryOf(s', id, w) {
      if Enabled(s, l) && l.Append? && l.entryId == id {
        assert EntryOf(s', id, l.w);
      } else {
        var w :| EntryOf(s, id, w);
        LoggedStays(s, l, w);
        assert EntryOf(s', id, w);
      }
    }
  }

  lemma {:induction false} LogServedReachable(s0: State, labels: seq<Label>)
    requires Init(s0)
    ensures LogIsServed(Exec(s0, labels))
  {
    if labels != [] {
      hide Step, LogIsServed;
      LogServedReachable(s0, labels[..|labels| - 1]);
      ProgressReachable(s0, labels[..|labels| - 1]);
      LogServedStep(Exec(s0, labels[..|labels| - 1]), labels[|labels| - 1]);
    }
  }

  /** No delivery is logged but for a request that logged it, after a decision that allowed it. */
  lemma LoggedWasAllowed(s0: State, labels: seq<Label>, id: string)
    requires Init(s0) && id in Exec(s0, labels).log
    ensures var s := Exec(s0, labels);
            exists w :: && w in s.requests && s.requests[w].pc == Finished(Delivered)
                        && s.log[id] == Entry(s.requests[w].view.uri, s.requests[w].token.uri, s.requests[w].recordedAt)
                        && WasAllowed(s0, labels, w, s.requests[w])
  {
    hide Exec, WasAllowed;
    var s := Exec(s0, labels);
    LogServedReachable(s0, labels);
    ProgressReachable(s0, labels);
    var w :| EntryOf(s, id, w);
    assert Shape(s.requests[w]);
    PastWasAllowed(s0, labels, w);
  }
}

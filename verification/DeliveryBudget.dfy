/**
 The retry budget.  Every 412 a bump receives is chargeable to a write or delete of the record
 by someone else inside that attempt's window, so running out of attempts takes ten of them,
 and ten contenders that commit once each all succeed.
 */
module DeliveryBudget {
  import opened Rdf
  import opened Preconditions
  import opened Delivery
  import opened DeliveryProgress
  import opened DeliveryScope

  ghost predicate ByOther(e: Event, ref: Ref, w: nat) {
    e.ref == ref && (e.Wrote? ==> e.writer != Engine(w))
  }

  /** Writes and deletes of ref by anyone but request w, from position lo of the history on. */
  ghost function Others(history: seq<Event>, lo: nat, ref: Ref, w: nat): nat {
    if |history| <= lo then 0
    else
      Others(history[..|history| - 1], lo, ref, w)
      + (if ByOther(history[|history| - 1], ref, w) then 1 else 0)
  }

  lemma OthersAppend(h: seq<Event>, e: Event, lo: nat, ref: Ref, w: nat)
    requires lo <= |h|
    ensures Others(h + [e], lo, ref, w) == Others(h, lo, ref, w) + (if ByOther(e, ref, w) then 1 else 0)
  {
    HistoryAppend(h, e);
  }

  // ----------------------------------------------------------------------- invariant

  /** The record still carries the tag the attempt read, or someone else changed it since. */
  ghost predicate Fresh(s: State, ref: Ref, w: nat, tag: Etag, readAt: nat) {
    Unchanged(s, ref, tag) || Others(s.history, readAt, ref, w) >= 1
  }

  /** attempt 412s so far have been paid for before position at. */
  ghost predicate Paid(s: State, r: Request, w: nat, ref: Ref, attempt: nat, at: nat) {
    && r.since <= at <= |s.history|
    && Others(s.history, r.since, ref, w) >= attempt + Others(s.history, at, ref, w)
  }

  ghost predicate Budgeted(s: State, w: nat, r: Request) {
    match r.pc
    case Bumping(ref, attempt, Reading) =>
      r.since <= |s.history| && Others(s.history, r.since, ref, w) >= attempt
    case Bumping(ref, attempt, Writing(_, tag, readAt)) =>
      Paid(s, r, w, ref, attempt, readAt) && Fresh(s, ref, w, tag, readAt)
    case Bumping(ref, attempt, Replacing(_, tag, readAt)) =>
      Paid(s, r, w, ref, attempt, readAt) && Fresh(s, ref, w, tag, readAt)
    case Finished(Contended(ref)) =>
      r.since <= |s.history| && Others(s.history, r.since, ref, w) >= MAX_RETRIES
    case _ => true
  }

  ghost predicate AttemptsInRange(r: Request) {
    r.pc.Bumping? ==> r.pc.attempt < MAX_RETRIES
  }

  ghost predicate BudgetInv(s: State) {
    forall w :: w in s.requests ==> Budgeted(s, w, s.requests[w]) && AttemptsInRange(s.requests[w])
  }

  // --------------------------------------------------------------------------- steps

  lemma BudgetFrame(s: State, s': State, w: nat)
    requires BudgetInv(s) && OnlyRequest(s, s', w)
    requires w in s'.requests ==> Budgeted(s', w, s'.requests[w]) && AttemptsInRange(s'.requests[w])
    ensures BudgetInv(s')
  {
    forall v | v in s'.requests ensures Budgeted(s', v, s'.requests[v]) {
      if v != w {
        assert Budgeted(s, v, s.requests[v]);
      }
    }
  }

  /** A stale tag has been paid for. */
  lemma StaleIsPaid(s: State, w: nat)
    requires BudgetInv(s) && InPhase(s, w) && !s.requests[w].pc.phase.Reading?
    requires !Unchanged(s, s.requests[w].pc.ref, s.requests[w].pc.phase.tag)
    ensures var pc := s.requests[w].pc;
            && s.requests[w].since <= |s.history| && pc.phase.readAt <= |s.history|
            && Others(s.history, pc.phase.readAt, pc.ref, w) >= 1
            && Others(s.history, s.requests[w].since, pc.ref, w) >= pc.attempt + 1
  {
    assert Budgeted(s, w, s.requests[w]);
  }

  lemma BudgetRetry(s: State, w: nat)
    requires BudgetInv(s) && InPhase(s, w) && !s.requests[w].pc.phase.Reading?
    requires !Unchanged(s, s.requests[w].pc.ref, s.requests[w].pc.phase.tag)
    ensures BudgetInv(Retry(s, w))
  {
    StaleIsPaid(s, w);
    hide BudgetInv, Unchanged, Others, Fresh, Paid;
    var pc := s.requests[w].pc;
    if pc.attempt + 1 < MAX_RETRIES {
      BudgetGoto(s, w, Bumping(pc.ref, pc.attempt + 1, Reading));
    } else {
      BudgetGoto(s, w, Finished(Contended(pc.ref)));
    }
  }

  /** Someone's write leaves every other request's books balanced. */
  lemma BudgetedAfterEvent(s: State, s': State, v: nat, r: Request, e: Event)
    requires Budgeted(s, v, r)
    requires s'.history == s.history + [e]
    requires forall ref :: ref != e.ref ==> (ref in s'.records <==> ref in s.records)
    requires forall ref :: ref != e.ref && ref in s.records ==> s'.records[ref] == s.records[ref]
    requires e.Wrote? ==> e.writer != Engine(v)
    ensures Budgeted(s', v, r)
  {
    match r.pc
    case Bumping(ref, attempt, phase) =>
      OthersAppend(s.history, e, r.since, ref, v);
      if !phase.Reading? {
        OthersAppend(s.history, e, phase.readAt, ref, v);
      }
    case Finished(Contended(ref)) => OthersAppend(s.history, e, r.since, ref, v);
    case _ =>
  }

  lemma BudgetWrite(s: State, written: Ref, writer: Writer, g: Graph)
    requires BudgetInv(s) && !writer.Engine?
    ensures BudgetInv(Write(s, written, writer, g))
  {
    var s' := Write(s, written, writer, g);
    forall v | v in s'.requests ensures Budgeted(s', v, s'.requests[v]) {
      BudgetedAfterEvent(s, s', v, s.requests[v], Wrote(written, writer, g));
    }
  }

  lemma BudgetCommit(s: State, w: nat, g: Graph)
    requires BudgetInv(s) && InPhase(s, w)
    ensures BudgetInv(Advance(Write(s, s.requests[w].pc.ref, Engine(w), g), w))
  {
    var ref := s.requests[w].pc.ref;
    var written := Write(s, ref, Engine(w), g);
    var s' := Advance(written, w);
    forall v | v in s'.requests ensures Budgeted(s', v, s'.requests[v]) && AttemptsInRange(s'.requests[v]) {
      if v != w {
        BudgetedAfterEvent(s, s', v, s.requests[v], Wrote(ref, Engine(w), g));
      }
    }
  }

  lemma BudgetDelete(s: State, deleted: Ref)
    requires BudgetInv(s) && Enabled(s, OwnerDelete(deleted))
    ensures BudgetInv(Step(s, OwnerDelete(deleted)))
  {
    var s' := Step(s, OwnerDelete(deleted));
    forall v | v in s'.requests ensures Budgeted(s', v, s'.requests[v]) {
      BudgetedAfterEvent(s, s', v, s.requests[v], Deleted(deleted));
    }
  }

  lemma BudgetFetch(s: State, w: nat, copy: Graph)
    requires BudgetInv(s) && Enabled(s, Fetch(w, copy))
    ensures BudgetInv(DoFetch(s, w, copy))
  {
    var s' := DoFetch(s, w, copy);
    assert Budgeted(s, w, s.requests[w]);
    SetRequestFrame(s, w, s'.requests[w]);
    BudgetFrame(s, s', w);
  }

  lemma BudgetGoto(s: State, w: nat, pc: Pc)
    requires BudgetInv(s) && w in s.requests
    requires Budgeted(s, w, s.requests[w].(pc := pc)) && (pc.Bumping? ==> pc.attempt < MAX_RETRIES)
    ensures BudgetInv(Goto(s, w, pc))
  {
    var s' := Goto(s, w, pc);
    SetRequestFrame(s, w, s'.requests[w]);
    assert Budgeted(s', w, s'.requests[w]) by {
      assert s'.history == s.history && s'.records == s.records;
    }
    BudgetFrame(s, s', w);
  }

  lemma BudgetGuard(s: State, w: nat, body: Graph)
    requires BudgetInv(s) && Enabled(s, Guard(w, body))
    ensures BudgetInv(DoGuard(s, w, body))
  {
    var pc := s.requests[w].pc;
    assert Budgeted(s, w, s.requests[w]);
    match GuardPut(s, pc.ref, body, Tag(pc.phase.tag), false)
    case Passed(etag) =>
      BudgetGoto(s, w, Bumping(pc.ref, pc.attempt, Replacing(body, etag, pc.phase.readAt)));
    case Stale412 => BudgetRetry(s, w);
    case _ => BudgetGoto(s, w, Finished(Aborted));
  }

  lemma BudgetPipeline(s: State, l: Label)
    requires BudgetInv(s) && Pipeline(l) && Enabled(s, l)
    ensures BudgetInv(Step(s, l))
  {
    PipelineFrame(s, l);
    var s' := Step(s, l);
    if l.Record? {
      assert s' == DoRecord(s, l.w, l.now);
      assert Others(s.history, |s.history|, s.requests[l.w].token, l.w) == 0;
    }
    assert l.w in s'.requests ==> Budgeted(s', l.w, s'.requests[l.w]) && AttemptsInRange(s'.requests[l.w]) by {
      PipelineOutcome(s, l);
    }
    BudgetFrame(s, s', l.w);
  }

  /** Outside the loops a request is never put at risk of the budget. */
  lemma PipelineOutcome(s: State, l: Label)
    requires BudgetInv(s) && Pipeline(l) && Enabled(s, l)
    ensures l.w in Step(s, l).requests ==>
              Budgeted(Step(s, l), l.w, Step(s, l).requests[l.w]) && AttemptsInRange(Step(s, l).requests[l.w])
  {
    hide Step, Others;
    PipelineFrame(s, l);
  }

  lemma BudgetStep(s: State, l: Label)
    requires BudgetInv(s)
    ensures BudgetInv(Step(s, l))
  {
    if Enabled(s, l) {
      match l
      case Fetch(w, copy) => BudgetFetch(s, w, copy);
      case Guard(w, body) => BudgetGuard(s, w, body);
      case Replace(w, stored) =>
        if Unchanged(s, s.requests[w].pc.ref, s.requests[w].pc.phase.tag) {
          BudgetCommit(s, w, stored);
        } else {
          BudgetRetry(s, w);
        }
      case OwnerWrite(written, graph) => BudgetWrite(s, written, Owner, graph);
      case OwnerDelete(deleted) => BudgetDelete(s, deleted);
      case OwnerPolicy(_, _) =>
      case RawGuard(p, put, body, ifMatch, any) =>
      case RawReplace(p, stored) =>
        if Unchanged(s, s.puts[p].ref, s.puts[p].expected) {
          BudgetWrite(s, s.puts[p].ref, Raw(p), stored);
        }
      case _ => BudgetPipeline(s, l);
    }
  }

  lemma {:induction false} BudgetReachable(s0: State, labels: seq<Label>)
    requires Init(s0)
    ensures BudgetInv(Exec(s0, labels))
  {
    if labels != [] {
      BudgetReachable(s0, labels[..|labels| - 1]);
      BudgetStep(Exec(s0, labels[..|labels| - 1]), labels[|labels| - 1]);
    }
  }

  // ------------------------------------------------------------------------ theorems

  /**
   In every reachable state a 412 at the guard or at the replace means that the window of this
   attempt holds a write or delete by someone else, besides those that paid for earlier 412s.
   */
  lemma EveryStaleIsForeign(s0: State, labels: seq<Label>, w: nat)
    requires Init(s0)
    requires InPhase(Exec(s0, labels), w) && !Exec(s0, labels).requests[w].pc.phase.Reading?
    requires var s := Exec(s0, labels); !Unchanged(s, s.requests[w].pc.ref, s.requests[w].pc.phase.tag)
    ensures var s := Exec(s0, labels);
            var pc := s.requests[w].pc;
            && pc.phase.readAt <= |s.history|
            && Others(s.history, pc.phase.readAt, pc.ref, w) >= 1
            && Others(s.history, s.requests[w].since, pc.ref, w) >= pc.attempt + 1
  {
    BudgetReachable(s0, labels);
    StaleIsPaid(Exec(s0, labels), w);
  }

  /** A bump that contended out saw at least ten foreign writes or deletes during its loop. */
  lemma ContendedOutCostsTen(s0: State, labels: seq<Label>, w: nat)
    requires Init(s0)
    ensures var s := Exec(s0, labels);
            w in s.requests && s.requests[w].pc.Finished? && s.requests[w].pc.outcome.Contended? ==>
              Others(s.history, s.requests[w].since, s.requests[w].pc.outcome.ref, w) >= 10
  {
    BudgetReachable(s0, labels);
    var s := Exec(s0, labels);
    if w in s.requests {
      assert Budgeted(s, w, s.requests[w]);
    }
  }

  lemma {:induction false} NoCommitNoEvent(h: seq<Event>, ref: Ref, a: nat, i: nat)
    requires CommitsBy(h, ref, a) == 0 && i < |h|
    ensures !(h[i].ref == ref && h[i].Wrote? && h[i].writer == Engine(a))
  {
    if i < |h| - 1 {
      NoCommitNoEvent(h[..|h| - 1], ref, a, i);
    }
  }

  /** The foreign changes to ref from lo on were all made by requests in contenders. */
  ghost predicate OnlyAmong(h: seq<Event>, lo: nat, ref: Ref, w: nat, contenders: set<nat>) {
    forall i :: lo <= i < |h| && ByOther(h[i], ref, w) ==>
      h[i].Wrote? && h[i].writer.Engine? && h[i].writer.request in contenders
  }

  /** Contenders that commit at most once each displace another at most once each. */
  lemma {:induction false} DisplacementBound(h: seq<Event>, lo: nat, ref: Ref, w: nat, contenders: set<nat>)
    requires OnlyAmong(h, lo, ref, w, contenders)
    requires forall a :: a in contenders ==> CommitsBy(h, ref, a) <= 1
    ensures Others(h, lo, ref, w) <= |contenders|
  {
    if lo < |h| {
      var before, e := h[..|h| - 1], h[|h| - 1];
      forall a | a in contenders ensures CommitsBy(before, ref, a) <= CommitsBy(h, ref, a) {
      }
      if ByOther(e, ref, w) {
        var a := e.writer.request;
        var rest := contenders - {a};
        assert CommitsBy(before, ref, a) == 0;
        forall i | lo <= i < |before| && ByOther(before[i], ref, w)
          ensures before[i].Wrote? && before[i].writer.Engine? && before[i].writer.request in rest
        {
          assert before[i] == h[i];
          NoCommitNoEvent(before, ref, a, i);
        }
        DisplacementBound(before, lo, ref, w, rest);
        assert |rest| == |contenders| - 1;
      } else {
        assert OnlyAmong(before, lo, ref, w, contenders) by {
          forall i | lo <= i < |before| ensures before[i] == h[i] {
          }
        }
        DisplacementBound(before, lo, ref, w, contenders);
      }
    }
  }

  /** If at most ten requests change a record while one of them bumps it, that one never contends out. */
  lemma TenContendersSucceed(s0: State, labels: seq<Label>, w: nat, ref: Ref, contenders: set<nat>)
    requires Init(s0)
    requires w in contenders && |contenders| <= 10
    requires var s := Exec(s0, labels);
             w in s.requests && OnlyAmong(s.history, s.requests[w].since, ref, w, contenders)
    ensures Exec(s0, labels).requests[w].pc != Finished(Contended(ref))
  {
    var s := Exec(s0, labels);
    BudgetReachable(s0, labels);
    ProgressReachable(s0, labels);
    var others := contenders - {w};
    var lo := s.requests[w].since;
    forall i | lo <= i < |s.history| && ByOther(s.history[i], ref, w)
      ensures s.history[i].writer.request in others
    {
    }
    forall a | a in others ensures CommitsBy(s.history, ref, a) <= 1 {
      assert CommitsBy(s.history, ref, a) == ExpectedCommits(s, ref, a);
    }
    DisplacementBound(s.history, lo, ref, w, others);
    assert Budgeted(s, w, s.requests[w]);
  }

  // ------------------------------------------------------------------------ no refusals

  /** What a bump submits agrees out of scope with what it read, under the tag it read it with. */
  ghost predicate Honest(s: State) {
    forall w :: w in s.requests && s.requests[w].pc.Bumping? && s.requests[w].pc.phase.Writing? ==>
      Anchored(s.requests[w].pc.phase.tag, s.requests[w].pc.phase.submitted, s.requests[w].pc.ref)
  }

  lemma FetchIsHonest(read: Graph, copy: Graph, ref: Ref, count: int, now: int)
    requires Iso(read, copy)
    ensures Anchored(EtagOf(read), Bumped(copy, ref, count, now), ref)
  {
    ScopeIso(read, copy, ref);
    BumpedOutOfScope(copy, ref, count, now);
    assert SameOutOfScope(read, Bumped(copy, ref, count, now), ref);
  }

  /** Only the request that moves has to be looked at. */
  lemma HonestFrame(s: State, s': State, w: nat)
    requires Honest(s) && forall v :: v != w && v in s'.requests ==> v in s.requests && s'.requests[v] == s.requests[v]
    requires w in s'.requests && s'.requests[w].pc.Bumping? && s'.requests[w].pc.phase.Writing? ==>
               Anchored(s'.requests[w].pc.phase.tag, s'.requests[w].pc.phase.submitted, s'.requests[w].pc.ref)
    ensures Honest(s')
  {
  }

  lemma HonestFetch(s: State, w: nat, copy: Graph)
    requires Honest(s) && Enabled(s, Fetch(w, copy))
    ensures Honest(DoFetch(s, w, copy))
  {
    var ref := s.requests[w].pc.ref;
    if ref in s.records {
      var count := ReadCount(copy, ref);
      hide ReadCount, Bumped, Anchored, Iso;
      if count.Number? {
        FetchIsHonest(s.records[ref], copy, ref, count.n, s.requests[w].recordedAt);
      }
    }
    HonestFrame(s, DoFetch(s, w, copy), w);
  }

  lemma HonestGuard(s: State, w: nat, body: Graph)
    requires Honest(s) && Enabled(s, Guard(w, body))
    ensures Honest(DoGuard(s, w, body))
  {
    hide Anchored, Iso, GuardPut;
    var pc := s.requests[w].pc;
    match GuardPut(s, pc.ref, body, Tag(pc.phase.tag), false)
    case Passed(etag) => HonestGoto(s, w, Bumping(pc.ref, pc.attempt, Replacing(body, etag, pc.phase.readAt)));
    case Stale412 =>
      HonestGoto(s, w, Bumping(pc.ref, pc.attempt + 1, Reading));
      HonestGoto(s, w, Finished(Contended(pc.ref)));
    case _ => HonestGoto(s, w, Finished(Aborted));
  }

  lemma HonestGoto(s: State, w: nat, pc: Pc)
    requires Honest(s) && w in s.requests && (pc.Bumping? ==> !pc.phase.Writing?)
    ensures Honest(Goto(s, w, pc))
  {
    HonestFrame(s, Goto(s, w, pc), w);
  }

  lemma HonestReplace(s: State, w: nat, stored: Graph)
    requires Honest(s) && Enabled(s, Replace(w, stored))
    ensures Honest(DoReplace(s, w, stored))
  {
    hide Honest, Unchanged, Anchored, Iso;
    var pc := s.requests[w].pc;
    var written := Write(s, pc.ref, Engine(w), stored);
    SameRequests(s, written);
    HonestAdvance(written, w);
    HonestGoto(s, w, Bumping(pc.ref, pc.attempt + 1, Reading));
    HonestGoto(s, w, Finished(Contended(pc.ref)));
  }

  lemma HonestAdvance(s: State, w: nat)
    requires Honest(s) && InPhase(s, w)
    ensures Honest(Advance(s, w))
  {
    HonestFrame(s, Advance(s, w), w);
  }

  lemma HonestStep(s: State, l: Label)
    requires Honest(s)
    ensures Honest(Step(s, l))
  {
    hide Honest, Anchored, Bumped, Iso, GuardPut, DoFetch, DoGuard, DoReplace, Unchanged, ReadCount;
    if Enabled(s, l) {
      match l
      case Fetch(w, copy) => HonestFetch(s, w, copy);
      case Guard(w, body) => HonestGuard(s, w, body);
      case Replace(w, stored) => HonestReplace(s, w, stored);
      case OwnerWrite(_, _) => SameRequests(s, Step(s, l));
      case OwnerDelete(_) => SameRequests(s, Step(s, l));
      case OwnerPolicy(_, _) => SameRequests(s, Step(s, l));
      case RawGuard(_, _, _, _, _) => SameRequests(s, Step(s, l));
      case RawReplace(_, _) => SameRequests(s, Step(s, l));
      case _ =>
        PipelineFrame(s, l);
        HonestPipeline(s, Step(s, l), l.w);
    }
  }

  lemma SameRequests(s: State, s': State)
    requires Honest(s) && s'.requests == s.requests
    ensures Honest(s')
  {
  }

  lemma HonestPipeline(s: State, s': State, w: nat)
    requires Honest(s) && OnlyRequest(s, s', w) && (w in s'.requests ==> OutsideLoops(s'.requests[w], |s.history|))
    ensures Honest(s')
  {
    HonestFrame(s, s', w);
  }

  lemma {:induction false} HonestReachable(s0: State, labels: seq<Label>)
    requires Init(s0)
    ensures Honest(Exec(s0, labels))
  {
    if labels != [] {
      HonestReachable(s0, labels[..|labels| - 1]);
      HonestStep(Exec(s0, labels[..|labels| - 1]), labels[|labels| - 1]);
    }
  }

  /** A tag that still matches anchors what is submitted to what is stored. */
  lemma AnchoredAgrees(current: Graph, tag: Etag, submitted: Graph, body: Graph, ref: Ref)
    requires Anchored(tag, submitted, ref) && EtagOf(current) == tag && Iso(submitted, body)
    ensures SameOutOfScope(current, body, ref)
  {
    ReplaceKeepsScope(current, tag, submitted, body, ref);
  }

  /** The engine's own bump is never answered 403 or 428, in any interleaving with anything. */
  lemma BumpIsNeverForbidden(s0: State, labels: seq<Label>, w: nat, body: Graph)
    requires Init(s0) && Enabled(Exec(s0, labels), Guard(w, body))
    ensures var s := Exec(s0, labels);
            var pc := s.requests[w].pc;
            var answer := GuardPut(s, pc.ref, body, Tag(pc.phase.tag), false);
            answer.NotFound404? || answer.Stale412? || answer.Passed?
  {
    HonestReachable(s0, labels);
    var s := Exec(s0, labels);
    var pc := s.requests[w].pc;
    if pc.ref in s.records && EtagOf(s.records[pc.ref]) == pc.phase.tag {
      AnchoredAgrees(s.records[pc.ref], pc.phase.tag, pc.phase.submitted, body, pc.ref);
    }
  }
}

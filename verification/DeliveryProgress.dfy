/**
 Each request commits each of its two bumps at most once, in order, and logs only after both:
 the history agrees with how far every request has come.
 */
module DeliveryProgress {
  import opened Rdf
  import opened Preconditions
  import opened Delivery

  /** Request r has had its bump of ref answered 200. */
  predicate HasBumped(r: Request, ref: Ref) {
    (ref == r.token && r.tokenBumped) || (ref == r.view && r.viewBumped)
  }

  ghost predicate Shape(r: Request) {
    && r.token.TokenRef? && r.view.ViewRef?
    && match r.pc
       case Bumping(ref, _, _) =>
         && !r.viewBumped && !r.logged
         && (if r.tokenBumped then ref == r.view else ref == r.token)
       case Logging => r.tokenBumped && r.viewBumped && !r.logged
       case Finished(outcome) =>
         (r.viewBumped ==> r.tokenBumped) && (r.logged ==> r.viewBumped) && (outcome.Delivered? <==> r.logged)
       case _ => !r.tokenBumped && !r.viewBumped && !r.logged
  }

  /** Bumps of ref by request w in the history. */
  ghost function CommitsBy(history: seq<Event>, ref: Ref, w: nat): nat {
    if history == [] then 0
    else
      var e := history[|history| - 1];
      CommitsBy(history[..|history| - 1], ref, w)
      + (if e.ref == ref && e.Wrote? && e.writer == Engine(w) then 1 else 0)
  }

  ghost function ExpectedCommits(s: State, ref: Ref, w: nat): nat {
    if w in s.requests && HasBumped(s.requests[w], ref) then 1 else 0
  }

  ghost predicate ProgressInv(s: State) {
    && (forall w :: w in s.requests ==> Shape(s.requests[w]))
    && (forall w, ref :: CommitsBy(s.history, ref, w) == ExpectedCommits(s, ref, w))
  }

  lemma ProgressFrame(s: State, s': State, w: nat)
    requires ProgressInv(s) && OnlyRequest(s, s', w)
    requires w in s'.requests ==> Shape(s'.requests[w])
    requires forall ref :: ExpectedCommits(s', ref, w) == ExpectedCommits(s, ref, w)
    ensures ProgressInv(s')
  {
    forall v, ref ensures CommitsBy(s'.history, ref, v) == ExpectedCommits(s', ref, v) {
      assert CommitsBy(s.history, ref, v) == ExpectedCommits(s, ref, v);
      if v == w {
        assert ExpectedCommits(s', ref, w) == ExpectedCommits(s, ref, w);
      }
    }
  }

  lemma ProgressForeignEvent(s: State, s': State, e: Event)
    requires ProgressInv(s)
    requires s'.requests == s.requests && s'.history == s.history + [e]
    requires e.Wrote? ==> !e.writer.Engine?
    ensures ProgressInv(s')
  {
    HistoryAppend(s.history, e);
    forall v, ref ensures CommitsBy(s'.history, ref, v) == ExpectedCommits(s', ref, v) {
      assert CommitsBy(s.history, ref, v) == ExpectedCommits(s, ref, v);
    }
  }

  lemma ProgressGoto(s: State, w: nat, pc: Pc)
    requires ProgressInv(s) && w in s.requests && Shape(s.requests[w].(pc := pc))
    ensures ProgressInv(Goto(s, w, pc))
  {
    SetRequestFrame(s, w, s.requests[w].(pc := pc));
    ProgressFrame(s, Goto(s, w, pc), w);
  }

  lemma ProgressRetry(s: State, w: nat)
    requires ProgressInv(s) && InPhase(s, w)
    ensures ProgressInv(Retry(s, w))
  {
    SetRequestFrame(s, w, Retry(s, w).requests[w]);
    ProgressFrame(s, Retry(s, w), w);
  }

  lemma ProgressCommit(s: State, w: nat, g: Graph)
    requires ProgressInv(s) && InPhase(s, w)
    ensures ProgressInv(Advance(Write(s, s.requests[w].pc.ref, Engine(w), g), w))
  {
    var done := s.requests[w].pc.ref;
    var e := Wrote(done, Engine(w), g);
    HistoryAppend(s.history, e);
    var s' := Advance(Write(s, done, Engine(w), g), w);
    forall v, ref ensures CommitsBy(s'.history, ref, v) == ExpectedCommits(s', ref, v) {
      assert CommitsBy(s.history, ref, v) == ExpectedCommits(s, ref, v);
    }
  }

  lemma ProgressFetch(s: State, w: nat, copy: Graph)
    requires ProgressInv(s) && Enabled(s, Fetch(w, copy))
    ensures ProgressInv(DoFetch(s, w, copy))
  {
    SetRequestFrame(s, w, DoFetch(s, w, copy).requests[w]);
    ProgressFrame(s, DoFetch(s, w, copy), w);
  }

  lemma ProgressGuard(s: State, w: nat, body: Graph)
    requires ProgressInv(s) && Enabled(s, Guard(w, body))
    ensures ProgressInv(DoGuard(s, w, body))
  {
    var pc := s.requests[w].pc;
    match GuardPut(s, pc.ref, body, Tag(pc.phase.tag), false)
    case Passed(etag) =>
      ProgressGoto(s, w, Bumping(pc.ref, pc.attempt, Replacing(body, etag, pc.phase.readAt)));
    case Stale412 => ProgressRetry(s, w);
    case _ => ProgressGoto(s, w, Finished(Aborted));
  }

  /** What the pipeline steps do to the one request they touch. */
  lemma PipelineShape(s: State, l: Label)
    requires ProgressInv(s) && Pipeline(l) && Enabled(s, l)
    ensures l.w in Step(s, l).requests ==> Shape(Step(s, l).requests[l.w])
    ensures forall ref :: ExpectedCommits(Step(s, l), ref, l.w) == ExpectedCommits(s, ref, l.w)
  {
    hide Loaded, Judged, ReadCount, ReadLastUsed;
    match l
    case Authenticate(w, token, view) => assert Step(s, l) == DoAuthenticate(s, w, token, view);
    case LoadView(w) => LoadedShape(s, s.requests[w]);
    case Decide(w, now) => JudgedShape(s, s.requests[w], now);
    case Record(w, now) => assert Step(s, l) == DoRecord(s, w, now);
    case Abandon(w) => assert Step(s, l) == Goto(s, w, Finished(Aborted));
    case Append(w, entryId) => assert Step(s, l) == DoAppend(s, w, entryId);
  }

  lemma ProgressStep(s: State, l: Label)
    requires ProgressInv(s)
    ensures ProgressInv(Step(s, l))
  {
    if Enabled(s, l) {
      match l
      case Fetch(w, copy) => ProgressFetch(s, w, copy);
      case Guard(w, body) => ProgressGuard(s, w, body);
      case Replace(w, stored) =>
        if Unchanged(s, s.requests[w].pc.ref, s.requests[w].pc.phase.tag) {
          ProgressCommit(s, w, stored);
        } else {
          ProgressRetry(s, w);
        }
      case OwnerWrite(written, graph) => ProgressForeignEvent(s, Step(s, l), Wrote(written, Owner, graph));
      case OwnerDelete(deleted) => ProgressForeignEvent(s, Step(s, l), Deleted(deleted));
      case OwnerPolicy(_, _) => ProgressFrame(s, s, 0);
      case RawGuard(p, put, body, ifMatch, any) =>
      case RawReplace(p, stored) =>
        if Unchanged(s, s.puts[p].ref, s.puts[p].expected) {
          ProgressForeignEvent(s, Step(s, l), Wrote(s.puts[p].ref, Raw(p), stored));
        }
      case _ =>
        PipelineFrame(s, l);
        PipelineShape(s, l);
        ProgressFrame(s, Step(s, l), l.w);
    }
  }

  lemma {:induction false} ProgressReachable(s0: State, labels: seq<Label>)
    requires Init(s0)
    ensures ProgressInv(Exec(s0, labels))
  {
    if labels != [] {
      ProgressReachable(s0, labels[..|labels| - 1]);
      ProgressStep(Exec(s0, labels[..|labels| - 1]), labels[|labels| - 1]);
    }
  }
}

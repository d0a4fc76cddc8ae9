/**
 The rate limit of a grant in the running system.  If the requests of a grant come one after
 another, the dates of last use that the engine stores on its record, since the owner last wrote
 it, are at least the policy's interval apart, whatever else happens to other records, other
 grants and this one's own record in between.
 */
module DeliveryRate {
  import opened Options
  import opened Rdf
  import opened Preconditions
  import opened Delivery
  import opened DeliveryCounts
  import opened DeliveryProgress
  import P = Policy

  ghost predicate DateIs(g: Graph, ref: Ref, d: int) {
    Objects(g, Subject(ref), LAST_USED_AT) == {Instant(d)}
  }

  /** The dates the engine stored on ref since the owner's last write or delete of it. */
  ghost function Dates(history: seq<Event>, ref: Ref): seq<int> {
    if history == [] then []
    else
      var before, e := history[..|history| - 1], history[|history| - 1];
      if e.ref != ref then Dates(before, ref)
      else if e.Wrote? && e.writer.Engine? then Dates(before, ref) + [ReadLastUsed(e.graph, ref)]
      else []
  }

  function LastOf(dates: seq<int>): int {
    if dates == [] then P.UNIX_EPOCH else dates[|dates| - 1]
  }

  /** Whole seconds past the first one, up to t, each at least m seconds after the one before. */
  predicate Spaced(dates: seq<int>, m: int, t: int) {
    && (forall k :: 0 <= k < |dates| ==> P.MICROS <= dates[k] <= t && dates[k] % P.MICROS == 0)
    && (forall k :: 0 < k < |dates| ==> dates[k] >= dates[k - 1] + m * P.MICROS)
  }

  predicate Waited(r: Request, m: int, now: int) {
    r.grant.lastUsedAt == P.UNIX_EPOCH || r.grant.lastUsedAt + m * P.MICROS <= now
  }

  /** What an unfinished request of the grant has read, waited for and is about to store. */
  ghost predicate RequestRate(r: Request, ref: Ref, m: int, t: int, dates: seq<int>) {
    r.token == ref && !r.pc.Finished? && !r.tokenBumped ==>
      && (dates != [] ==> r.grant.lastUsedAt == LastOf(dates))
      && (r.pc.Cleared? ==> Waited(r, m, t))
      && (r.pc.Bumping? ==>
            && r.pc.ref == ref && Waited(r, m, r.recordedAt) && P.MICROS <= r.recordedAt <= t
            && (!r.pc.phase.Reading? ==> DateIs(r.pc.phase.submitted, ref, P.ToWholeSecond(r.recordedAt))))
  }

  ghost predicate RateInv(s: State, ref: Ref, m: int, t: int) {
    && P.MICROS <= t
    && Spaced(Dates(s.history, ref), m, t)
    && (ref in s.records ==> DateIs(s.records[ref], ref, LastOf(Dates(s.history, ref))))
    && (forall p :: p in s.puts ==> s.puts[p].ref != ref)
    && (forall w :: w in s.requests ==> RequestRate(s.requests[w], ref, m, t, Dates(s.history, ref)))
  }

  predicate Open(s: State, w: nat, ref: Ref) {
    w in s.requests && s.requests[w].token == ref && !s.requests[w].pc.Finished?
  }

  /** Of the grant's requests at most one is not finished. */
  ghost predicate Alone(s: State, ref: Ref) {
    forall v: nat, w: nat :: Open(s, v, ref) && Open(s, w, ref) ==> v == w
  }

  ghost predicate IntervalIs(s: State, ref: Ref, m: int) {
    ref.uri in s.policies && s.policies[ref.uri].minInterval == Some(m)
  }

  // --------------------------------------------------------------------------- the clock

  /** The clock as last read by the engine, from the second second of the epoch on. */
  function Latest(labels: seq<Label>): int {
    if labels == [] then P.MICROS
    else
      match labels[|labels| - 1]
      case Decide(_, now) => now
      case Record(_, now) => now
      case _ => Latest(labels[..|labels| - 1])
  }

  /** It never runs backwards. */
  predicate Clocked(labels: seq<Label>) {
    labels == [] || (Latest(labels[..|labels| - 1]) <= Latest(labels) && Clocked(labels[..|labels| - 1]))
  }

  // ------------------------------------------------------------------------------ dates

  lemma DateRead(g: Graph, ref: Ref, d: int)
    requires DateIs(g, ref, d)
    ensures ReadLastUsed(g, ref) == d
  {
    assert Instant(d) in Objects(g, Subject(ref), LAST_USED_AT);
  }

  lemma DateIso(g: Graph, h: Graph, ref: Ref, d: int)
    requires Iso(g, h) && DateIs(g, ref, d)
    ensures DateIs(h, ref, d)
  {
    ObjectsIso(g, h, Subject(ref), LAST_USED_AT, Instant(d));
  }

  lemma DatesAppend(history: seq<Event>, e: Event, ref: Ref)
    ensures Dates(history + [e], ref) ==
            if e.ref != ref then Dates(history, ref)
            else if e.Wrote? && e.writer.Engine? then Dates(history, ref) + [ReadLastUsed(e.graph, ref)]
            else []
  {
    HistoryAppend(history, e);
  }

  /** A date stored after the interval was waited for extends the spaced ones. */
  lemma SpacedOn(dates: seq<int>, m: int, t: int, r: Request)
    requires Spaced(dates, m, t) && (dates != [] ==> r.grant.lastUsedAt == LastOf(dates))
    requires Waited(r, m, r.recordedAt) && P.MICROS <= r.recordedAt <= t
    ensures Spaced(dates + [P.ToWholeSecond(r.recordedAt)], m, t)
  {
    var d := P.ToWholeSecond(r.recordedAt);
    P.WholeSecondMonotone(P.MICROS, r.recordedAt, 1);
    if dates != [] {
      var last := LastOf(dates);
      P.WholeSecondMonotone(last + m * P.MICROS, r.recordedAt, last / P.MICROS + m);
    }
    var more := dates + [d];
    forall k | 0 < k < |more| ensures more[k] >= more[k - 1] + m * P.MICROS {
      if k < |dates| {
        assert more[k] == dates[k] && more[k - 1] == dates[k - 1];
      }
    }
  }

  // ----------------------------------------------------------------------------- frames

  lemma RateLater(r: Request, ref: Ref, m: int, t: int, t': int, dates: seq<int>)
    requires RequestRate(r, ref, m, t, dates) && t <= t'
    ensures RequestRate(r, ref, m, t', dates)
  {
  }

  /** Only one request has to be looked at. */
  lemma RateFrame(s: State, s': State, w: nat, ref: Ref, m: int, t: int, t': int)
    requires RateInv(s, ref, m, t) && t <= t' && OnlyRequest(s, s', w)
    requires w in s'.requests ==> RequestRate(s'.requests[w], ref, m, t', Dates(s.history, ref))
    ensures RateInv(s', ref, m, t')
  {
    hide RequestRate, DateIs, Dates;
    forall v | v in s'.requests ensures RequestRate(s'.requests[v], ref, m, t', Dates(s'.history, ref)) {
      if v != w {
        RateLater(s.requests[v], ref, m, t, t', Dates(s.history, ref));
      }
    }
  }

  lemma RateGoto(s: State, w: nat, pc: Pc, ref: Ref, m: int, t: int)
    requires RateInv(s, ref, m, t) && w in s.requests
    requires RequestRate(s.requests[w].(pc := pc), ref, m, t, Dates(s.history, ref))
    ensures RateInv(Goto(s, w, pc), ref, m, t)
  {
    SetRequestFrame(s, w, s.requests[w].(pc := pc));
    hide RateInv, RequestRate;
    RateFrame(s, Goto(s, w, pc), w, ref, m, t, t);
  }

  // ------------------------------------------------------------------------------- steps

  lemma RateAuthenticate(s: State, w: nat, token: string, view: string, ref: Ref, m: int, t: int)
    requires RateInv(s, ref, m, t) && Enabled(s, Authenticate(w, token, view))
    ensures RateInv(Step(s, Authenticate(w, token, view)), ref, m, t)
  {
    var l := Authenticate(w, token, view);
    PipelineFrame(s, l);
    if TokenRef(token) == ref {
      DateRead(s.records[ref], ref, LastOf(Dates(s.history, ref)));
    }
    assert Step(s, l) == DoAuthenticate(s, w, token, view);
    hide RateInv, ReadLastUsed, ReadCount, Dates;
    RateFrame(s, Step(s, l), w, ref, m, t, t);
  }

  lemma RateLoadView(s: State, w: nat, ref: Ref, m: int, t: int)
    requires RateInv(s, ref, m, t) && Enabled(s, LoadView(w))
    ensures RateInv(DoLoadView(s, w), ref, m, t)
  {
    hide Loaded, Dates, DateIs;
    LoadedShape(s, s.requests[w]);
    SetRequestFrame(s, w, Loaded(s, s.requests[w]));
    RateFrame(s, DoLoadView(s, w), w, ref, m, t, t);
  }

  /** Who passes the policy has waited for the interval since the date that was read. */
  lemma RateDecide(s: State, w: nat, now: int, ref: Ref, m: int, t: int)
    requires RateInv(s, ref, m, t) && Enabled(s, Decide(w, now)) && t <= now && ref.TokenRef? && IntervalIs(s, ref, m)
    ensures RateInv(DoDecide(s, w, now), ref, m, now)
  {
    hide Dates, DateIs;
    var r := s.requests[w];
    var policy := if r.token.uri in s.policies then Some(s.policies[r.token.uri]) else None;
    P.AllowedIff(r.grant, policy, r.seenView.value, now);
    hide P.CheckPolicy;
    SetRequestFrame(s, w, Judged(s, r, now));
    assert RequestRate(r, ref, m, t, Dates(s.history, ref));
    RateFrame(s, DoDecide(s, w, now), w, ref, m, t, now);
  }

  lemma RateRecord(s: State, w: nat, now: int, ref: Ref, m: int, t: int)
    requires RateInv(s, ref, m, t) && Enabled(s, Record(w, now)) && t <= now
    ensures RateInv(DoRecord(s, w, now), ref, m, now)
  {
    hide Dates, DateIs;
    var r := s.requests[w];
    assert RequestRate(r, ref, m, t, Dates(s.history, ref));
    SetRequestFrame(s, w, DoRecord(s, w, now).requests[w]);
    RateFrame(s, DoRecord(s, w, now), w, ref, m, t, now);
  }

  lemma RateRetry(s: State, w: nat, ref: Ref, m: int, t: int)
    requires RateInv(s, ref, m, t) && InPhase(s, w)
    ensures RateInv(Retry(s, w), ref, m, t)
  {
    hide Dates, DateIs;
    var pc := s.requests[w].pc;
    assert RequestRate(s.requests[w], ref, m, t, Dates(s.history, ref));
    if pc.attempt + 1 < MAX_RETRIES {
      RateGoto(s, w, Bumping(pc.ref, pc.attempt + 1, Reading), ref, m, t);
    } else {
      RateGoto(s, w, Finished(Contended(pc.ref)), ref, m, t);
    }
  }

  lemma RateFetch(s: State, w: nat, copy: Graph, ref: Ref, m: int, t: int)
    requires RateInv(s, ref, m, t) && Enabled(s, Fetch(w, copy)) && ref.TokenRef?
    ensures RateInv(DoFetch(s, w, copy), ref, m, t)
  {
    hide Dates, Iso;
    var r := s.requests[w];
    assert RequestRate(r, ref, m, t, Dates(s.history, ref));
    RateGoto(s, w, Finished(Aborted), ref, m, t);
    if r.pc.ref in s.records && !ReadCount(copy, r.pc.ref).Malformed? {
      var n := ReadCount(copy, r.pc.ref).n;
      if r.pc.ref == ref {
        BumpedDate(copy, ref, n, r.recordedAt);
      }
      hide RateInv, ReadCount, Bumped, EtagOf;
      var phase := Writing(Bumped(copy, r.pc.ref, n, r.recordedAt), EtagOf(s.records[r.pc.ref]), |s.history|);
      RateGoto(s, w, Bumping(r.pc.ref, r.pc.attempt, phase), ref, m, t);
    }
  }

  lemma RateGuard(s: State, w: nat, body: Graph, ref: Ref, m: int, t: int)
    requires RateInv(s, ref, m, t) && Enabled(s, Guard(w, body))
    ensures RateInv(DoGuard(s, w, body), ref, m, t)
  {
    var r := s.requests[w];
    var pc := r.pc;
    assert RequestRate(r, ref, m, t, Dates(s.history, ref));
    if DateIs(pc.phase.submitted, ref, P.ToWholeSecond(r.recordedAt)) {
      DateIso(pc.phase.submitted, body, ref, P.ToWholeSecond(r.recordedAt));
    }
    hide Dates, Iso, DateIs, GuardPut;
    match GuardPut(s, pc.ref, body, Tag(pc.phase.tag), false)
    case Passed(etag) => RateGoto(s, w, Bumping(pc.ref, pc.attempt, Replacing(body, etag, pc.phase.readAt)), ref, m, t);
    case Stale412 => RateRetry(s, w, ref, m, t);
    case _ => RateGoto(s, w, Finished(Aborted), ref, m, t);
  }

  /** A commit of the grant's one unfinished request stores a date the interval after the last. */
  lemma RateCommit(s: State, w: nat, g: Graph, ref: Ref, m: int, t: int)
    requires RateInv(s, ref, m, t) && InPhase(s, w) && s.requests[w].pc.ref == ref && Shape(s.requests[w]) && Alone(s, ref)
    requires ref.TokenRef? && DateIs(g, ref, P.ToWholeSecond(s.requests[w].recordedAt))
    ensures RateInv(Advance(Write(s, ref, Engine(w), g), w), ref, m, t)
  {
    hide Dates, DateIs, ReadLastUsed;
    var r, s' := s.requests[w], Advance(Write(s, ref, Engine(w), g), w);
    var dates, d := Dates(s.history, ref), P.ToWholeSecond(r.recordedAt);
    assert RequestRate(r, ref, m, t, dates) && r.token == ref && !r.tokenBumped;
    DatesAppend(s.history, Wrote(ref, Engine(w), g), ref);
    DateRead(g, ref, d);
    SpacedOn(dates, m, t, r);
    assert Dates(s'.history, ref) == dates + [d] && LastOf(dates + [d]) == d;
    forall v | v in s'.requests ensures RequestRate(s'.requests[v], ref, m, t, dates + [d]) {
      if v != w {
        assert s'.requests[v] == s.requests[v];
        assert Open(s, w, ref) && (Open(s, v, ref) ==> v == w);
      }
    }
  }

  /** What happens to another record changes none of this. */
  lemma RateElsewhere(s: State, s': State, e: Event, ref: Ref, m: int, t: int)
    requires RateInv(s, ref, m, t) && e.ref != ref && s'.history == s.history + [e]
    requires s'.requests == s.requests && s'.puts == s.puts
    requires ref in s'.records ==> ref in s.records && s'.records[ref] == s.records[ref]
    ensures RateInv(s', ref, m, t)
  {
    hide DateIs, RequestRate;
    DatesAppend(s.history, e, ref);
  }

  /** The owner's write or delete starts afresh. */
  lemma RateAfresh(s: State, s': State, e: Event, ref: Ref, m: int, t: int)
    requires RateInv(s, ref, m, t) && e.ref == ref && s'.history == s.history + [e] && !(e.Wrote? && e.writer.Engine?)
    requires s'.requests == s.requests && s'.puts == s.puts
    requires ref in s'.records ==> DateIs(s'.records[ref], ref, P.UNIX_EPOCH)
    ensures RateInv(s', ref, m, t)
  {
    hide DateIs;
    DatesAppend(s.history, e, ref);
    assert Dates(s'.history, ref) == [];
    forall w | w in s'.requests ensures RequestRate(s'.requests[w], ref, m, t, []) {
      assert RequestRate(s.requests[w], ref, m, t, Dates(s.history, ref));
    }
  }

  lemma RateReplace(s: State, w: nat, stored: Graph, ref: Ref, m: int, t: int)
    requires RateInv(s, ref, m, t) && ProgressInv(s) && Alone(s, ref) && Enabled(s, Replace(w, stored)) && ref.TokenRef?
    ensures RateInv(DoReplace(s, w, stored), ref, m, t)
  {
    hide Dates, Iso;
    var r := s.requests[w];
    var pc := r.pc;
    assert RequestRate(r, ref, m, t, Dates(s.history, ref)) && Shape(r);
    if !Unchanged(s, pc.ref, pc.phase.tag) {
      RateRetry(s, w, ref, m, t);
    } else if pc.ref == ref {
      DateIso(pc.phase.submitted, stored, ref, P.ToWholeSecond(r.recordedAt));
      RateCommit(s, w, stored, ref, m, t);
    } else {
      var written := Write(s, pc.ref, Engine(w), stored);
      hide DateIs;
      RateElsewhere(s, written, Wrote(pc.ref, Engine(w), stored), ref, m, t);
      SetRequestFrame(written, w, Advance(written, w).requests[w]);
      RateFrame(written, Advance(written, w), w, ref, m, t, t);
    }
  }

  lemma RateStep(s: State, l: Label, ref: Ref, m: int, t: int, t': int)
    requires RateInv(s, ref, m, t) && ProgressInv(s) && Alone(s, ref) && IntervalIs(s, ref, m) && ref.TokenRef?
    requires l.RawGuard? ==> l.ref != ref
    requires t <= t' && (l.Decide? || l.Record? ==> t' == l.now)
    ensures RateInv(Step(s, l), ref, m, t')
  {
    RateInTime(s, ref, m, t, t');
    hide RateInv, ProgressInv, Alone, IntervalIs, DoFetch, DoGuard, DoReplace, DoLoadView, DoDecide, DoRecord, DoAuthenticate,
         DoRawGuard, DoAppend, Iso;
    if Enabled(s, l) {
      match l
      case Authenticate(w, token, view) => RateAuthenticate(s, w, token, view, ref, m, t');
      case LoadView(w) => RateLoadView(s, w, ref, m, t');
      case Decide(w, now) => RateDecide(s, w, now, ref, m, t);
      case Record(w, now) => RateRecord(s, w, now, ref, m, t);
      case Fetch(w, copy) => RateFetch(s, w, copy, ref, m, t');
      case Guard(w, body) => RateGuard(s, w, body, ref, m, t');
      case Replace(w, stored) => RateReplace(s, w, stored, ref, m, t');
      case _ => RateOther(s, l, ref, m, t');
    }
  }

  lemma RateInTime(s: State, ref: Ref, m: int, t: int, t': int)
    requires RateInv(s, ref, m, t) && t <= t'
    ensures RateInv(s, ref, m, t')
  {
    RateFrame(s, s, 0, ref, m, t, t');
  }

  lemma RateOther(s: State, l: Label, ref: Ref, m: int, t: int)
    requires RateInv(s, ref, m, t) && Enabled(s, l) && ref.TokenRef?
    requires !l.Authenticate? && !l.LoadView? && !l.Decide? && !l.Record? && !l.Fetch? && !l.Guard? && !l.Replace?
    requires l.RawGuard? ==> l.ref != ref
    ensures RateInv(Step(s, l), ref, m, t)
  {
    hide Dates, DateIs, Iso, EtagOf, GuardPut;
    match l
    case Abandon(w) =>
      RateGoto(s, w, Finished(Aborted), ref, m, t);
    case Append(w, id) =>
      AppendFrame(s, w, id);
      RateFrame(s, DoAppend(s, w, id), w, ref, m, t, t);
    case OwnerWrite(written, graph) =>
      if written == ref {
        SeededDate(graph, ref);
        RateAfresh(s, Step(s, l), Wrote(ref, Owner, graph), ref, m, t);
      } else {
        RateElsewhere(s, Step(s, l), Wrote(written, Owner, graph), ref, m, t);
      }
    case OwnerDelete(deleted) =>
      if deleted == ref {
        RateAfresh(s, Step(s, l), Deleted(ref), ref, m, t);
      } else {
        RateElsewhere(s, Step(s, l), Deleted(deleted), ref, m, t);
      }
    case RawReplace(p, stored) =>
      if Unchanged(s, s.puts[p].ref, s.puts[p].expected) {
        RateElsewhere(s, Step(s, l), Wrote(s.puts[p].ref, Raw(p), stored), ref, m, t);
      }
    case _ =>
  }

  lemma SeededDate(g: Graph, ref: Ref)
    requires Seeded(g, ref) && ref.TokenRef?
    ensures DateIs(g, ref, P.UNIX_EPOCH)
  {
  }

  // -------------------------------------------------------------------------------- runs

  /** The requests of the grant come one after another, and its policy keeps its interval. */
  ghost predicate OneByOne(s0: State, labels: seq<Label>, ref: Ref, m: int) {
    forall n :: 0 <= n <= |labels| ==> Alone(Exec(s0, labels[..n]), ref) && IntervalIs(Exec(s0, labels[..n]), ref, m)
  }

  lemma {:induction false} RateReachable(s0: State, labels: seq<Label>, ref: Ref, m: int)
    requires Init(s0) && OnlyClientBumps(labels, ref) && ref.TokenRef?
    requires OneByOne(s0, labels, ref, m) && Clocked(labels)
    ensures RateInv(Exec(s0, labels), ref, m, Latest(labels))
  {
    hide Alone, IntervalIs, Step, ProgressInv, RequestRate, DateIs;
    if labels != [] {
      var n := |labels| - 1;
      var earlier := labels[..n];
      forall i | 0 <= i <= n ensures earlier[..i] == labels[..i] {
      }
      RateReachable(s0, earlier, ref, m);
      hide RateInv;
      ProgressReachable(s0, earlier);
      assert earlier[..n] == earlier;
      RateStep(Exec(s0, earlier), labels[n], ref, m, Latest(earlier), Latest(labels));
    }
  }

  /**
   In every state of such a run neighbouring dates of last use, stored since the owner last wrote
   the grant, are at least the interval apart, and the record holds the last of them.
   */
  lemma RateLimitInRuns(s0: State, labels: seq<Label>, ref: Ref, m: int)
    requires Init(s0) && OnlyClientBumps(labels, ref) && ref.TokenRef?
    requires OneByOne(s0, labels, ref, m) && Clocked(labels)
    ensures var s := Exec(s0, labels);
            var dates := Dates(s.history, ref);
            && (forall k :: 0 < k < |dates| ==> dates[k] >= dates[k - 1] + m * P.MICROS)
            && (ref in s.records ==> DateIs(s.records[ref], ref, LastOf(dates)))
            && |dates| == CommitsSince(s.history, ref)
  {
    RateReachable(s0, labels, ref, m);
    DatesCount(Exec(s0, labels).history, ref);
  }

  lemma {:induction false} DatesCount(history: seq<Event>, ref: Ref)
    ensures |Dates(history, ref)| == CommitsSince(history, ref)
  {
    if history != [] {
      DatesCount(history[..|history| - 1], ref);
    }
  }
}

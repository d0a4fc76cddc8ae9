/**
 Delivery accounting.  The access log never runs ahead of the counters: what separates a
 record's committed bumps from its log entries is exactly the requests that have bumped it and
 have not appended their entry, whether still on the way or aborted in between.  The statistics
 computed from the log add up to its size, per view and per grant.
 */
module DeliveryLog {
  import opened Rdf
  import opened Preconditions
  import opened Delivery
  import opened DeliveryCounts
  import opened DeliveryProgress

  /** Bumps of ref answered 200, over the whole history. */
  function Committed(history: seq<Event>, ref: Ref): nat {
    if history == [] then 0
    else
      var e := history[|history| - 1];
      Committed(history[..|history| - 1], ref)
      + (if e.ref == ref && e.Wrote? && e.writer.Engine? then 1 else 0)
  }

  predicate Names(e: Entry, ref: Ref) {
    if ref.TokenRef? then e.token == ref.uri else e.view == ref.uri
  }

  function Entries(log: map<string, Entry>, ref: Ref): set<string> {
    set id | id in log && Names(log[id], ref)
  }

  function Bumpers(s: State, ref: Ref): set<nat> {
    set w | w in s.requests && HasBumped(s.requests[w], ref)
  }

  predicate HasLogged(r: Request, ref: Ref) {
    r.logged && (r.token == ref || r.view == ref)
  }

  function Loggers(s: State, ref: Ref): set<nat> {
    set w | w in s.requests && HasLogged(s.requests[w], ref)
  }

  /** Deliveries between the bump of ref and the log append, or aborted between them. */
  function Unlogged(s: State, ref: Ref): set<nat> {
    set w | w in s.requests && HasBumped(s.requests[w], ref) && !s.requests[w].logged
  }

  /** Every appended entry gets a URI no earlier entry has. */
  ghost predicate FreshEntryIds(s0: State, labels: seq<Label>) {
    forall n :: 0 <= n < |labels| && labels[n].Append? ==>
      labels[n].entryId !in Exec(s0, labels[..n]).log
  }

  ghost predicate LogCounts(s: State, ref: Ref) {
    && Committed(s.history, ref) == |Bumpers(s, ref)|
    && |Entries(s.log, ref)| == |Loggers(s, ref)|
  }

  ghost predicate LogInv(s: State, ref: Ref) {
    ProgressInv(s) && LogCounts(s, ref)
  }

  // --------------------------------------------------------------------------- steps

  lemma LogSame(s: State, s': State, ref: Ref)
    requires LogInv(s, ref) && ProgressInv(s')
    requires s'.log == s.log && Committed(s'.history, ref) == Committed(s.history, ref)
    requires Bumpers(s', ref) == Bumpers(s, ref) && Loggers(s', ref) == Loggers(s, ref)
    ensures LogInv(s', ref)
  {
  }

  lemma LogFrame(s: State, s': State, w: nat, ref: Ref)
    requires LogInv(s, ref) && ProgressInv(s') && OnlyRequest(s, s', w) && s'.log == s.log
    requires (w in s'.requests && s'.requests[w].logged) <==> (w in s.requests && s.requests[w].logged)
    requires w in s.requests ==> w in s'.requests && s'.requests[w].token == s.requests[w].token
    requires w in s.requests ==> s'.requests[w].view == s.requests[w].view
    ensures LogInv(s', ref)
  {
    assert ExpectedCommits(s', ref, w) == ExpectedCommits(s, ref, w) by {
      assert CommitsBy(s.history, ref, w) == ExpectedCommits(s, ref, w);
      assert CommitsBy(s'.history, ref, w) == ExpectedCommits(s', ref, w);
    }
    assert Bumpers(s', ref) == Bumpers(s, ref);
    assert Loggers(s', ref) == Loggers(s, ref);
    LogSame(s, s', ref);
  }

  lemma AdvanceBumps(s: State, w: nat, ref: Ref)
    requires InPhase(s, w) && Shape(s.requests[w])
    ensures var r, r' := s.requests[w], Advance(s, w).requests[w];
            && (HasBumped(r', ref) <==> HasBumped(r, ref) || ref == r.pc.ref)
            && (r.pc.ref == ref ==> !HasBumped(r, ref))
            && r'.logged == r.logged && r'.token == r.token && r'.view == r.view
  {
  }

  lemma LogCommit(s: State, w: nat, g: Graph, ref: Ref)
    requires LogCounts(s, ref) && InPhase(s, w) && Shape(s.requests[w])
    ensures LogCounts(Advance(Write(s, s.requests[w].pc.ref, Engine(w), g), w), ref)
  {
    var done := s.requests[w].pc.ref;
    HistoryAppend(s.history, Wrote(done, Engine(w), g));
    var written := Write(s, done, Engine(w), g);
    var s' := Advance(written, w);
    AdvanceBumps(written, w, ref);
    assert written.requests == s.requests;
    AdvanceFrame(written, w);
    assert s'.history == written.history && s'.log == s.log;
    hide Names, Shape, Advance, Write, HasBumped;
    MarkedBy(s, s', w, done, ref);
    assert Committed(s'.history, ref) == Committed(s.history, ref) + if done == ref then 1 else 0;
  }

  lemma AdvanceFrame(s: State, w: nat)
    requires InPhase(s, w)
    ensures OnlyRequest(s, Advance(s, w), w) && w in Advance(s, w).requests && Advance(s, w).log == s.log
  {
  }

  /** The sets of requests that bumped and that logged after one more bump. */
  lemma MarkedBy(s: State, s': State, w: nat, done: Ref, ref: Ref)
    requires w in s.requests && w in s'.requests
    requires forall v :: v != w ==> (v in s'.requests <==> v in s.requests)
    requires forall v :: v != w && v in s'.requests ==> s'.requests[v] == s.requests[v]
    requires HasLogged(s'.requests[w], ref) <==> HasLogged(s.requests[w], ref)
    requires HasBumped(s'.requests[w], ref) <==> HasBumped(s.requests[w], ref) || ref == done
    requires done == ref ==> !HasBumped(s.requests[w], ref)
    ensures |Loggers(s', ref)| == |Loggers(s, ref)|
    ensures |Bumpers(s', ref)| == |Bumpers(s, ref)| + if done == ref then 1 else 0
  {
    hide HasLogged, HasBumped;
    assert Loggers(s', ref) == Loggers(s, ref);
    assert Bumpers(s', ref) == if done == ref then Bumpers(s, ref) + {w} else Bumpers(s, ref);
  }

  lemma AppendMarks(s: State, w: nat, entryId: string, ref: Ref)
    requires w in s.requests && Shape(s.requests[w]) && s.requests[w].pc.Logging?
    ensures var r, r' := s.requests[w], DoAppend(s, w, entryId).requests[w];
            && (HasBumped(r', ref) <==> HasBumped(r, ref))
            && !HasLogged(r, ref)
            && (HasLogged(r', ref) <==> r.token == ref || r.view == ref)
            && (Names(Entry(r.view.uri, r.token.uri, r.recordedAt), ref) <==> r.token == ref || r.view == ref)
  {
  }

  lemma EntriesAppend(log: map<string, Entry>, id: string, e: Entry, ref: Ref)
    requires id !in log
    ensures |Entries(log[id := e], ref)| == |Entries(log, ref)| + (if Names(e, ref) then 1 else 0)
  {
    var after := Entries(log[id := e], ref);
    if Names(e, ref) {
      assert after == Entries(log, ref) + {id};
    } else {
      assert after == Entries(log, ref);
    }
  }

  lemma LoggersAppend(s: State, s': State, w: nat, ref: Ref)
    requires OnlyRequest(s, s', w) && w in s.requests && w in s'.requests
    requires !HasLogged(s.requests[w], ref)
    requires HasBumped(s'.requests[w], ref) <==> HasBumped(s.requests[w], ref)
    ensures Bumpers(s', ref) == Bumpers(s, ref)
    ensures |Loggers(s', ref)| == |Loggers(s, ref)| + (if HasLogged(s'.requests[w], ref) then 1 else 0)
  {
    if HasLogged(s'.requests[w], ref) {
      assert Loggers(s', ref) == Loggers(s, ref) + {w};
    } else {
      assert Loggers(s', ref) == Loggers(s, ref);
    }
  }

  lemma LogAppend(s: State, w: nat, entryId: string, ref: Ref)
    requires LogCounts(s, ref) && w in s.requests && Shape(s.requests[w])
    requires s.requests[w].pc.Logging? && entryId !in s.log
    requires OnlyRequest(s, DoAppend(s, w, entryId), w)
    ensures LogCounts(DoAppend(s, w, entryId), ref)
  {
    var r := s.requests[w];
    AppendMarks(s, w, entryId, ref);
    EntriesAppend(s.log, entryId, Entry(r.view.uri, r.token.uri, r.recordedAt), ref);
    LoggersAppend(s, DoAppend(s, w, entryId), w, ref);
  }

  lemma LogForeign(s: State, s': State, e: Event, ref: Ref)
    requires LogInv(s, ref) && ProgressInv(s')
    requires s'.requests == s.requests && s'.log == s.log && s'.history == s.history + [e]
    requires e.Wrote? ==> !e.writer.Engine?
    ensures LogInv(s', ref)
  {
    HistoryAppend(s.history, e);
    LogSame(s, s', ref);
  }

  lemma GuardKeepsLog(s: State, w: nat, body: Graph)
    requires Enabled(s, Guard(w, body))
    ensures exists pc :: DoGuard(s, w, body) == Goto(s, w, pc)
  {
    var pc := s.requests[w].pc;
    match GuardPut(s, pc.ref, body, Tag(pc.phase.tag), false)
    case Passed(etag) =>
      assert DoGuard(s, w, body) == Goto(s, w, Bumping(pc.ref, pc.attempt, Replacing(body, etag, pc.phase.readAt)));
    case Stale412 => RetryKeepsLog(s, w);
    case _ => assert DoGuard(s, w, body) == Goto(s, w, Finished(Aborted));
  }

  lemma RetryKeepsLog(s: State, w: nat)
    requires InPhase(s, w)
    ensures exists pc :: Retry(s, w) == Goto(s, w, pc)
  {
    var pc := s.requests[w].pc;
    assert Retry(s, w) == Goto(s, w, Bumping(pc.ref, pc.attempt + 1, Reading))
        || Retry(s, w) == Goto(s, w, Finished(Contended(pc.ref)));
  }

  lemma LogGoto(s: State, w: nat, pc: Pc, ref: Ref)
    requires LogInv(s, ref) && w in s.requests && ProgressInv(Goto(s, w, pc))
    ensures LogInv(Goto(s, w, pc), ref)
  {
    SetRequestFrame(s, w, s.requests[w].(pc := pc));
    LogFrame(s, Goto(s, w, pc), w, ref);
  }

  lemma LogLoopStep(s: State, l: Label, ref: Ref)
    requires LogInv(s, ref) && Enabled(s, l) && (l.Fetch? || l.Guard? || l.Replace?)
    requires ProgressInv(Step(s, l))
    ensures LogInv(Step(s, l), ref)
  {
    match l
    case Fetch(w, copy) =>
      var pc := DoFetch(s, w, copy).requests[w].pc;
      assert DoFetch(s, w, copy) == Goto(s, w, pc);
      LogGoto(s, w, pc, ref);
    case Guard(w, body) =>
      GuardKeepsLog(s, w, body);
      var pc :| DoGuard(s, w, body) == Goto(s, w, pc);
      LogGoto(s, w, pc, ref);
    case Replace(w, stored) =>
      if Unchanged(s, s.requests[w].pc.ref, s.requests[w].pc.phase.tag) {
        LogCommit(s, w, stored, ref);
      } else {
        RetryKeepsLog(s, w);
        var pc :| Retry(s, w) == Goto(s, w, pc);
        LogGoto(s, w, pc, ref);
      }
  }

  lemma LogStep(s: State, l: Label, ref: Ref)
    requires LogInv(s, ref)
    requires l.Append? ==> l.entryId !in s.log
    ensures LogInv(Step(s, l), ref)
  {
    hide GuardPut, LogCounts;
    ProgressStep(s, l);
    if Enabled(s, l) {
      match l
      case Fetch(_, _) => LogLoopStep(s, l, ref);
      case Guard(_, _) => LogLoopStep(s, l, ref);
      case Replace(_, _) => LogLoopStep(s, l, ref);
      case Append(w, entryId) =>
        PipelineFrame(s, l);
        LogAppend(s, w, entryId, ref);
      case OwnerWrite(written, graph) => LogForeign(s, Step(s, l), Wrote(written, Owner, graph), ref);
      case OwnerDelete(deleted) => LogForeign(s, Step(s, l), Deleted(deleted), ref);
      case OwnerPolicy(_, _) => LogSame(s, Step(s, l), ref);
      case RawGuard(_, _, _, _, _) => LogSame(s, Step(s, l), ref);
      case RawReplace(p, stored) =>
        if Unchanged(s, s.puts[p].ref, s.puts[p].expected) {
          LogForeign(s, Step(s, l), Wrote(s.puts[p].ref, Raw(p), stored), ref);
        }
      case _ =>
        PipelineFrame(s, l);
        LogFrame(s, Step(s, l), l.w, ref);
    }
  }

  lemma {:induction false} LogReachable(s0: State, labels: seq<Label>, ref: Ref)
    requires Init(s0) && FreshEntryIds(s0, labels)
    ensures LogInv(Exec(s0, labels), ref)
  {
    if labels == [] {
      assert Bumpers(s0, ref) == {} && Loggers(s0, ref) == {} && Entries(s0.log, ref) == {};
    } else {
      var n := |labels| - 1;
      forall i | 0 <= i <= n ensures labels[..n][..i] == labels[..i] {
      }
      LogReachable(s0, labels[..n], ref);
      LogStep(Exec(s0, labels[..n]), labels[n], ref);
    }
  }

  /** Committed bumps are logged deliveries plus exactly the unlogged ones. */
  lemma DeliveryAccounting(s0: State, labels: seq<Label>, ref: Ref)
    requires Init(s0) && FreshEntryIds(s0, labels)
    ensures var s := Exec(s0, labels);
            Committed(s.history, ref) == |Entries(s.log, ref)| + |Unlogged(s, ref)|
  {
    hide Exec, Committed, Entries, Unlogged;
    LogReachable(s0, labels, ref);
    BumpersSplit(Exec(s0, labels), ref);
  }

  lemma LoggedIsBumped(r: Request, ref: Ref)
    requires Shape(r) && HasLogged(r, ref)
    ensures HasBumped(r, ref)
  {
  }

  lemma BumpersSplit(s: State, ref: Ref)
    requires ProgressInv(s)
    ensures |Bumpers(s, ref)| == |Loggers(s, ref)| + |Unlogged(s, ref)|
  {
    hide CommitsBy, ExpectedCommits;
    forall w | w in Loggers(s, ref) ensures w in Bumpers(s, ref) {
      LoggedIsBumped(s.requests[w], ref);
    }
    assert Unlogged(s, ref) == Bumpers(s, ref) - Loggers(s, ref);
    assert Bumpers(s, ref) == Loggers(s, ref) + Unlogged(s, ref);
  }

  // ------------------------------------------------------------ counters and the log

  /** Writes and deletes of ref by the owner. */
  function OwnerEvents(history: seq<Event>, ref: Ref): nat {
    if history == [] then 0
    else
      var e := history[|history| - 1];
      OwnerEvents(history[..|history| - 1], ref)
      + (if e.ref == ref && (e.Wrote? ==> e.writer.Owner?) then 1 else 0)
  }

  ghost predicate SoloInv(s: State, ref: Ref) {
    && (forall p :: p in s.puts ==> s.puts[p].ref != ref)
    && (ref in s.records ==> OwnerEvents(s.history, ref) >= 1)
    && (OwnerEvents(s.history, ref) == 0 ==> Committed(s.history, ref) == 0)
    && (OwnerEvents(s.history, ref) <= 1 ==> CommitsSince(s.history, ref) == Committed(s.history, ref))
  }

  lemma SoloEvent(s: State, s': State, e: Event, ref: Ref)
    requires SoloInv(s, ref) && s'.history == s.history + [e] && s'.puts == s.puts
    requires ref in s'.records && ref !in s.records ==> e.ref == ref && e.Wrote? && e.writer.Owner?
    requires e.ref == ref && e.Wrote? && e.writer.Engine? ==> ref in s.records
    requires e.ref == ref && e.Wrote? ==> !e.writer.Raw?
    ensures SoloInv(s', ref)
  {
    hide Objects;
    HistoryAppend(s.history, e);
  }

  /** Steps that write no record. */
  ghost predicate Quiet(l: Label) {
    Pipeline(l) || l.Fetch? || l.Guard? || l.OwnerPolicy? || l.RawGuard?
  }

  lemma QuietKeeps(s: State, l: Label)
    requires Enabled(s, l) && Quiet(l)
    ensures Step(s, l).history == s.history && Step(s, l).records == s.records
    ensures forall p :: p in Step(s, l).puts && p !in s.puts ==> l.RawGuard? && Step(s, l).puts[p].ref == l.ref
    ensures forall p :: p in Step(s, l).puts && p in s.puts ==> Step(s, l).puts[p] == s.puts[p]
  {
    hide ReadInt, ReadCount, ReadLastUsed, P.CheckPolicy, GuardPut;
    if Pipeline(l) {
      PipelineFrame(s, l);
    } else if l.Guard? {
      GuardKeepsLog(s, l.w, l.body);
    } else if l.Fetch? {
      assert Step(s, l) == DoFetch(s, l.w, l.copy);
    }
  }

  lemma SoloReplace(s: State, w: nat, stored: Graph, ref: Ref)
    requires SoloInv(s, ref) && Enabled(s, Replace(w, stored))
    ensures SoloInv(DoReplace(s, w, stored), ref)
  {
    hide Committed, CommitsSince, OwnerEvents;
    var done := s.requests[w].pc.ref;
    if Unchanged(s, done, s.requests[w].pc.phase.tag) {
      SoloEvent(s, DoReplace(s, w, stored), Wrote(done, Engine(w), stored), ref);
    } else {
      RetryKeepsLog(s, w);
    }
  }

  lemma SoloStep(s: State, l: Label, ref: Ref)
    requires SoloInv(s, ref) && (l.RawGuard? ==> l.ref != ref)
    ensures SoloInv(Step(s, l), ref)
  {
    hide Committed, CommitsSince, OwnerEvents;
    if Enabled(s, l) {
      if Quiet(l) {
        hide Step, Enabled;
        QuietKeeps(s, l);
      } else {
        hide DoReplace;
        match l
        case Replace(w, stored) => SoloReplace(s, w, stored, ref);
        case OwnerWrite(written, graph) => SoloEvent(s, Step(s, l), Wrote(written, Owner, graph), ref);
        case OwnerDelete(deleted) => SoloEvent(s, Step(s, l), Deleted(deleted), ref);
        case RawReplace(p, stored) =>
          if Unchanged(s, s.puts[p].ref, s.puts[p].expected) {
            SoloEvent(s, Step(s, l), Wrote(s.puts[p].ref, Raw(p), stored), ref);
          }
      }
    }
  }

  lemma {:induction false} SoloReachable(s0: State, labels: seq<Label>, ref: Ref)
    requires Init(s0) && OnlyClientBumps(labels, ref)
    ensures SoloInv(Exec(s0, labels), ref)
  {
    if labels != [] {
      SoloReachable(s0, labels[..|labels| - 1], ref);
      SoloStep(Exec(s0, labels[..|labels| - 1]), labels[|labels| - 1], ref);
    }
  }

  /**
   With the record written once by the owner and not touched by them since, the stored counter
   is the number of log entries plus the deliveries not logged.
   */
  lemma CounterAgainstLog(s0: State, labels: seq<Label>, ref: Ref)
    requires Init(s0) && FreshEntryIds(s0, labels) && OnlyClientBumps(labels, ref)
    requires OwnerEvents(Exec(s0, labels).history, ref) == 1
    ensures var s := Exec(s0, labels);
            ref in s.records ==>
              CountIs(s.records[ref], ref, |Entries(s.log, ref)| + |Unlogged(s, ref)|)
  {
    DeliveryAccounting(s0, labels, ref);
    NoBumpLostOrDoubled(s0, labels, ref);
    SoloReachable(s0, labels, ref);
  }

  // ---------------------------------------------------------------------- statistics

  /** SELECT ?k (COUNT(?e) AS ?count) ... GROUP BY ?k: one row per key that occurs. */
  function CountBy(log: map<string, Entry>, key: Entry -> string): map<string, nat> {
    var keys := set id | id in log :: key(log[id]);
    map k | k in keys :: |EntriesWith(log, key, {k})|
  }

  function EntriesWith(log: map<string, Entry>, key: Entry -> string, keys: set<string>): set<string> {
    set id | id in log && key(log[id]) in keys
  }

  ghost function SumOf(counts: map<string, nat>): nat
    decreases counts.Keys
  {
    if counts.Keys == {} then 0
    else
      var k :| k in counts.Keys;
      counts[k] + SumOf(counts - {k})
  }

  lemma {:induction false} SumOverKeys(log: map<string, Entry>, key: Entry -> string, counts: map<string, nat>)
    requires forall k :: k in counts ==> counts[k] == |EntriesWith(log, key, {k})|
    ensures SumOf(counts) == |EntriesWith(log, key, counts.Keys)|
    decreases counts.Keys
  {
    if counts.Keys == {} {
      assert EntriesWith(log, key, {}) == {};
    } else {
      var k :| k in counts.Keys && SumOf(counts) == counts[k] + SumOf(counts - {k});
      var rest := counts - {k};
      SumOverKeys(log, key, rest);
      var one, others := EntriesWith(log, key, {k}), EntriesWith(log, key, rest.Keys);
      assert one * others == {};
      assert EntriesWith(log, key, counts.Keys) == one + others;
    }
  }

  /** The total is the sum of the per-view counts and the sum of the per-grant counts. */
  lemma StatisticsAddUp(log: map<string, Entry>)
    ensures SumOf(CountBy(log, (e: Entry) => e.view)) == |log|
    ensures SumOf(CountBy(log, (e: Entry) => e.token)) == |log|
  {
    CountByAddsUp(log, (e: Entry) => e.view);
    CountByAddsUp(log, (e: Entry) => e.token);
  }

  lemma CountByAddsUp(log: map<string, Entry>, key: Entry -> string)
    ensures SumOf(CountBy(log, key)) == |log|
  {
    var counts := CountBy(log, key);
    SumOverKeys(log, key, counts);
    assert EntriesWith(log, key, counts.Keys) == log.Keys;
    assert |log.Keys| == |log|;
  }

  /** A row of the statistics is the number of log entries naming that view or grant. */
  lemma StatisticsRow(log: map<string, Entry>, ref: Ref)
    ensures var rows := CountBy(log, (e: Entry) => if ref.TokenRef? then e.token else e.view);
            |Entries(log, ref)| == if ref.uri in rows then rows[ref.uri] else 0
  {
    var key := (e: Entry) => if ref.TokenRef? then e.token else e.view;
    assert Entries(log, ref) == EntriesWith(log, key, {ref.uri});
    if ref.uri !in CountBy(log, key) {
      assert Entries(log, ref) == {};
    }
  }
}

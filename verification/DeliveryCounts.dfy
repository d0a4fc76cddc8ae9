/**
 No bump is lost or doubled: in every interleaving a record's counter equals the number of
 bumps answered 200 since the owner last wrote the record.
 */
module DeliveryCounts {
  import opened Rdf
  import opened Delivery
  import opened Preconditions
  import opened Vocabulary
  import P = Policy

  /** Engine writes to ref after the owner's last write or delete of it. */
  function CommitsSince(history: seq<Event>, ref: Ref): nat {
    if history == [] then 0
    else
      var before, e := history[..|history| - 1], history[|history| - 1];
      if e.ref != ref then CommitsSince(before, ref)
      else if e.Wrote? && e.writer.Engine? then CommitsSince(before, ref) + 1
      else 0
  }

  /** No raw enforcement PUT is ever submitted for ref; the engine's own client is the only bumper. */
  ghost predicate OnlyClientBumps(labels: seq<Label>, ref: Ref) {
    forall l :: l in labels && l.RawGuard? ==> l.ref != ref
  }

  ghost predicate CountReadAs(tag: Etag, submitted: Graph, ref: Ref, read: Graph, c: int) {
    tag == EtagOf(read) && CountIs(read, ref, c) && CountIs(submitted, ref, c + 1)
  }

  ghost predicate PhaseCounts(ref: Ref, phase: Phase) {
    phase.Reading? || exists read, c :: CountReadAs(phase.tag, phase.submitted, ref, read, c)
  }

  ghost predicate CountInv(s: State, ref: Ref) {
    && (ref in s.records ==> CountIs(s.records[ref], ref, CommitsSince(s.history, ref)))
    && (forall w :: w in s.requests && s.requests[w].pc.Bumping? && s.requests[w].pc.ref == ref
          ==> PhaseCounts(ref, s.requests[w].pc.phase))
    && (forall p :: p in s.puts ==> s.puts[p].ref != ref)
  }

  lemma CountIso(g: Graph, h: Graph, ref: Ref, c: int)
    requires Iso(g, h) && CountIs(g, ref, c)
    ensures CountIs(h, ref, c)
  {
    ObjectsIso(g, h, Subject(ref), Counter(ref), Num(c));
  }

  lemma CountUnique(g: Graph, ref: Ref, c: int, d: int)
    requires CountIs(g, ref, c) && CountIs(g, ref, d)
    ensures c == d
  {
    assert Num(c) in {Num(d)};
  }

  lemma CountRead(g: Graph, ref: Ref, c: int)
    requires CountIs(g, ref, c)
    ensures ReadCount(g, ref) == Number(c)
  {
    assert Num(c) in Objects(g, Subject(ref), Counter(ref));
  }

  lemma BumpedCounts(g: Graph, ref: Ref, c: int, now: int)
    ensures CountIs(Bumped(g, ref, c, now), ref, c + 1)
  {
    var b := Bumped(g, ref, c, now);
    assert Triple(Subject(ref), Counter(ref), Num(c + 1)) in b;
    assert LAST_USED_AT != Counter(ref) by {
      assert LAST_USED_AT.iri[|POD|] == 'l';
      assert ENFORCEMENT_COUNT.iri[|POD|] == 'e';
      assert VIEW_RETRIEVAL_COUNT.iri[|POD|] == 'v';
    }
    forall x ensures x in Objects(b, Subject(ref), Counter(ref)) <==> x == Num(c + 1) {
      if x == Num(c + 1) {
        assert Triple(Subject(ref), Counter(ref), x).o in Objects(b, Subject(ref), Counter(ref));
      }
    }
  }

  /** A bumped grant was last used now, to the second, and at no other time. */
  lemma BumpedDate(g: Graph, ref: Ref, count: int, now: int)
    requires ref.TokenRef?
    ensures Objects(Bumped(g, ref, count, now), Subject(ref), LAST_USED_AT) == {Instant(P.ToWholeSecond(now))}
  {
    var b := Bumped(g, ref, count, now);
    var v := Triple(Subject(ref), LAST_USED_AT, Instant(P.ToWholeSecond(now)));
    FieldsDiffer();
    assert v in b;
    assert forall u :: u in b && u.s == Subject(ref) && u.p == LAST_USED_AT ==> u == v;
    assert Instant(P.ToWholeSecond(now)) in Objects(b, Subject(ref), LAST_USED_AT);
  }

  lemma FieldsDiffer()
    ensures ENFORCEMENT_COUNT != LAST_USED_AT
  {
    var n := |POD|;
    assert ENFORCEMENT_COUNT.iri[n] == 'e';
    assert LAST_USED_AT.iri[n] == 'l';
  }

  /** The client read c, whatever copy it was served, and submits c + 1. */
  lemma FetchCounts(s: State, ref: Ref, copy: Graph, now: int)
    requires ref in s.records && CountInv(s, ref) && Iso(s.records[ref], copy)
    ensures var c := CommitsSince(s.history, ref);
            && ReadCount(copy, ref) == Number(c)
            && CountReadAs(EtagOf(s.records[ref]), Bumped(copy, ref, c, now), ref, s.records[ref], c)
  {
    var c := CommitsSince(s.history, ref);
    CountIso(s.records[ref], copy, ref, c);
    CountRead(copy, ref, c);
    BumpedCounts(copy, ref, c, now);
  }

  lemma PhaseCountsCopy(ref: Ref, phase: Phase, body: Graph, at: nat)
    requires !phase.Reading? && PhaseCounts(ref, phase) && Iso(phase.submitted, body)
    ensures PhaseCounts(ref, Replacing(body, phase.tag, at))
  {
    var read, c :| CountReadAs(phase.tag, phase.submitted, ref, read, c);
    CountIso(phase.submitted, body, ref, c + 1);
    assert CountReadAs(phase.tag, body, ref, read, c);
  }

  /** A tag that still matches means the count is still the one that was read. */
  lemma CommitCounts(current: Graph, n: int, ref: Ref, phase: Phase, stored: Graph)
    requires CountIs(current, ref, n)
    requires !phase.Reading? && PhaseCounts(ref, phase)
    requires EtagOf(current) == phase.tag && Iso(phase.submitted, stored)
    ensures CountIs(stored, ref, n + 1)
  {
    var read, c :| CountReadAs(phase.tag, phase.submitted, ref, read, c);
    SameTagSameCount(current, read, ref, n, c);
    CountIso(phase.submitted, stored, ref, c + 1);
  }

  lemma SameTagSameCount(current: Graph, read: Graph, ref: Ref, n: int, c: int)
    requires EtagOf(current) == EtagOf(read)
    requires CountIs(current, ref, n) && CountIs(read, ref, c)
    ensures n == c
  {
    EtagIdentifiesUpToIso(current, read);
    CountIso(current, read, ref, n);
    CountUnique(read, ref, n, c);
  }

  ghost predicate PcCounts(pc: Pc, ref: Ref) {
    pc.Bumping? && pc.ref == ref ==> PhaseCounts(ref, pc.phase)
  }

  lemma CountGoto(s: State, w: nat, pc: Pc, ref: Ref)
    requires CountInv(s, ref) && w in s.requests && PcCounts(pc, ref)
    ensures CountInv(Goto(s, w, pc), ref)
  {
  }

  lemma CountRetry(s: State, w: nat, ref: Ref)
    requires CountInv(s, ref) && InPhase(s, w)
    ensures CountInv(Retry(s, w), ref)
  {
  }

  lemma CountAdvance(s: State, w: nat, ref: Ref)
    requires CountInv(s, ref) && InPhase(s, w)
    ensures CountInv(Advance(s, w), ref)
  {
  }

  lemma CountWrite(s: State, written: Ref, writer: Writer, g: Graph, ref: Ref)
    requires CountInv(s, ref)
    requires written == ref ==>
               CountIs(g, ref, if writer.Engine? then CommitsSince(s.history, ref) + 1 else 0)
    ensures CountInv(Write(s, written, writer, g), ref)
  {
    HistoryAppend(s.history, Wrote(written, writer, g));
  }

  lemma CountFetch(s: State, w: nat, copy: Graph, ref: Ref)
    requires CountInv(s, ref) && Enabled(s, Fetch(w, copy))
    ensures CountInv(DoFetch(s, w, copy), ref)
  {
    var r := s.requests[w];
    if r.pc.ref in s.records {
      if r.pc.ref == ref {
        FetchCounts(s, ref, copy, r.recordedAt);
        var c := CommitsSince(s.history, ref);
        var phase := Writing(Bumped(copy, ref, c, r.recordedAt), EtagOf(s.records[ref]), |s.history|);
        assert CountReadAs(phase.tag, phase.submitted, ref, s.records[ref], c);
        CountGoto(s, w, Bumping(ref, r.pc.attempt, phase), ref);
      }
    }
  }

  lemma GuardKeepsTag(s: State, ref: Ref, body: Graph, tag: Etag)
    ensures var g := GuardPut(s, ref, body, Tag(tag), false); g.Passed? ==> g.etag == tag
  {
  }

  lemma CountGuard(s: State, w: nat, body: Graph, ref: Ref)
    requires CountInv(s, ref) && Enabled(s, Guard(w, body))
    ensures CountInv(DoGuard(s, w, body), ref)
  {
    var pc := s.requests[w].pc;
    GuardKeepsTag(s, pc.ref, body, pc.phase.tag);
    if pc.ref == ref {
      PhaseCountsCopy(ref, pc.phase, body, pc.phase.readAt);
    }
    match GuardPut(s, pc.ref, body, Tag(pc.phase.tag), false)
    case Passed(etag) =>
      CountGoto(s, w, Bumping(pc.ref, pc.attempt, Replacing(body, etag, pc.phase.readAt)), ref);
    case Stale412 => CountRetry(s, w, ref);
    case _ => CountGoto(s, w, Finished(Aborted), ref);
  }

  lemma CountReplace(s: State, w: nat, stored: Graph, ref: Ref)
    requires CountInv(s, ref) && Enabled(s, Replace(w, stored))
    ensures CountInv(DoReplace(s, w, stored), ref)
  {
    var pc := s.requests[w].pc;
    if Unchanged(s, pc.ref, pc.phase.tag) {
      if pc.ref == ref {
        CommitCounts(s.records[ref], CommitsSince(s.history, ref), ref, pc.phase, stored);
      }
      CountWrite(s, pc.ref, Engine(w), stored, ref);
      CountAdvance(Write(s, pc.ref, Engine(w), stored), w, ref);
    } else {
      CountRetry(s, w, ref);
    }
  }

  lemma CountOwnerDelete(s: State, deleted: Ref, ref: Ref)
    requires CountInv(s, ref) && Enabled(s, OwnerDelete(deleted))
    ensures CountInv(Step(s, OwnerDelete(deleted)), ref)
  {
    HistoryAppend(s.history, Deleted(deleted));
  }

  lemma CountFrame(s: State, s': State, w: nat, ref: Ref)
    requires CountInv(s, ref) && OnlyRequest(s, s', w)
    requires w in s'.requests ==> PcCounts(s'.requests[w].pc, ref)
    ensures CountInv(s', ref)
  {
  }

  lemma CountStep(s: State, l: Label, ref: Ref)
    requires CountInv(s, ref)
    requires l.RawGuard? ==> l.ref != ref
    ensures CountInv(Step(s, l), ref)
  {
    if Enabled(s, l) {
      match l
      case Fetch(w, copy) => CountFetch(s, w, copy, ref);
      case Guard(w, body) => CountGuard(s, w, body, ref);
      case Replace(w, stored) => CountReplace(s, w, stored, ref);
      case OwnerWrite(written, graph) => CountWrite(s, written, Owner, graph, ref);
      case OwnerDelete(deleted) => CountOwnerDelete(s, deleted, ref);
      case OwnerPolicy(_, _) =>
      case RawGuard(p, put, body, ifMatch, any) =>
      case RawReplace(p, stored) => CountWrite(s, s.puts[p].ref, Raw(p), stored, ref);
      case _ =>
        PipelineFrame(s, l);
        CountFrame(s, Step(s, l), l.w, ref);
    }
  }

  lemma {:induction false} CountReachable(s0: State, labels: seq<Label>, ref: Ref)
    requires Init(s0) && OnlyClientBumps(labels, ref)
    ensures CountInv(Exec(s0, labels), ref)
  {
    if labels != [] {
      CountReachable(s0, labels[..|labels| - 1], ref);
      CountStep(Exec(s0, labels[..|labels| - 1]), labels[|labels| - 1], ref);
    }
  }

  /** The record's counter is the number of bumps answered 200 since the owner last wrote it. */
  lemma NoBumpLostOrDoubled(s0: State, labels: seq<Label>, ref: Ref)
    requires Init(s0) && OnlyClientBumps(labels, ref)
    ensures var s := Exec(s0, labels);
            ref in s.records ==> CountIs(s.records[ref], ref, CommitsSince(s.history, ref))
  {
    CountReachable(s0, labels, ref);
  }
}

/**
 What an enforcement PUT can never do, whatever graph is submitted and however its steps
 interleave with others: change a triple outside the enforcement fields, or bring a deleted
 record back.  Both follow from the guard's tag being the one the atomic replace re-checks.
 */
module DeliveryScope {
  import opened Rdf
  import opened Preconditions
  import opened Delivery

  datatype OwnerState = NotOwned | Owned(graph: Graph)

  /** What the owner last made of ref: the graph written, or nothing after a delete. */
  function LastByOwner(history: seq<Event>, ref: Ref): OwnerState {
    if history == [] then NotOwned
    else
      var before, e := history[..|history| - 1], history[|history| - 1];
      if e.ref != ref then LastByOwner(before, ref)
      else if e.Deleted? then NotOwned
      else if e.writer.Owner? then Owned(e.graph)
      else LastByOwner(before, ref)
  }

  ghost predicate SameOutOfScope(g: Graph, h: Graph, ref: Ref) {
    Iso(OutOfScope(g, ref), OutOfScope(h, ref))
  }

  /** The submission agrees out of scope with some graph carrying the tag it is anchored to. */
  ghost predicate Anchored(tag: Etag, submitted: Graph, ref: Ref) {
    exists read :: tag == EtagOf(read) && SameOutOfScope(read, submitted, ref)
  }

  ghost predicate PcAnchored(pc: Pc) {
    pc.Bumping? && pc.phase.Replacing? ==> Anchored(pc.phase.tag, pc.phase.submitted, pc.ref)
  }

  ghost predicate RecordMatchesOwner(s: State, ref: Ref) {
    match LastByOwner(s.history, ref)
    case NotOwned => ref !in s.records
    case Owned(g) => ref in s.records && SameOutOfScope(g, s.records[ref], ref)
  }

  ghost predicate ScopeInv(s: State, ref: Ref) {
    && RecordMatchesOwner(s, ref)
    && (forall w :: w in s.requests ==> PcAnchored(s.requests[w].pc))
    && (forall p :: p in s.puts ==> Anchored(s.puts[p].expected, s.puts[p].submitted, s.puts[p].ref))
  }

  lemma ScopeIso(g: Graph, h: Graph, ref: Ref)
    requires Iso(g, h)
    ensures SameOutOfScope(g, h, ref)
  {
    WithoutFieldsIso(g, h, Subject(ref), Fields(ref));
  }

  /** A bump touches enforcement fields only. */
  lemma BumpedOutOfScope(g: Graph, ref: Ref, count: int, now: int)
    ensures OutOfScope(Bumped(g, ref, count, now), ref) == OutOfScope(g, ref)
  {
  }

  lemma ScopeReflexive(g: Graph, ref: Ref)
    ensures SameOutOfScope(g, g, ref)
  {
    IsoReflexive(OutOfScope(g, ref));
  }

  lemma ScopeTransitive(g: Graph, h: Graph, k: Graph, ref: Ref)
    requires SameOutOfScope(g, h, ref) && SameOutOfScope(h, k, ref)
    ensures SameOutOfScope(g, k, ref)
  {
    IsoTransitive(OutOfScope(g, ref), OutOfScope(h, ref), OutOfScope(k, ref));
  }

  /** If the tag still matches at the replace, what is stored agrees with what was there. */
  lemma ReplaceKeepsScope(current: Graph, tag: Etag, submitted: Graph, stored: Graph, ref: Ref)
    requires Anchored(tag, submitted, ref) && EtagOf(current) == tag && Iso(submitted, stored)
    ensures SameOutOfScope(current, stored, ref)
  {
    var read :| tag == EtagOf(read) && SameOutOfScope(read, submitted, ref);
    EtagIdentifiesUpToIso(current, read);
    ScopeIso(current, read, ref);
    ScopeTransitive(current, read, submitted, ref);
    ScopeIso(submitted, stored, ref);
    ScopeTransitive(current, submitted, stored, ref);
  }

  lemma ScopeWriteByEngine(s: State, written: Ref, writer: Writer, g: Graph, ref: Ref)
    requires ScopeInv(s, ref) && !writer.Owner?
    requires written in s.records && SameOutOfScope(s.records[written], g, written)
    ensures ScopeInv(Write(s, written, writer, g), ref)
  {
    HistoryAppend(s.history, Wrote(written, writer, g));
    if written == ref && LastByOwner(s.history, ref).Owned? {
      ScopeTransitive(LastByOwner(s.history, ref).graph, s.records[ref], g, ref);
    }
  }

  lemma ScopeOwnerWrite(s: State, written: Ref, g: Graph, ref: Ref)
    requires ScopeInv(s, ref)
    ensures ScopeInv(Write(s, written, Owner, g), ref)
  {
    hide Iso, OutOfScope, Anchored;
    var s' := Write(s, written, Owner, g);
    HistoryAppend(s.history, Wrote(written, Owner, g));
    ScopeReflexive(g, ref);
    assert RecordMatchesOwner(s', ref);
    assert s'.requests == s.requests && s'.puts == s.puts;
  }

  lemma ScopeOwnerDelete(s: State, deleted: Ref, ref: Ref)
    requires ScopeInv(s, ref) && Enabled(s, OwnerDelete(deleted))
    ensures ScopeInv(Step(s, OwnerDelete(deleted)), ref)
  {
    HistoryAppend(s.history, Deleted(deleted));
  }

  lemma ScopeFrame(s: State, s': State, w: nat, ref: Ref)
    requires ScopeInv(s, ref) && OnlyRequest(s, s', w)
    requires w in s'.requests ==> PcAnchored(s'.requests[w].pc)
    ensures ScopeInv(s', ref)
  {
  }

  lemma ScopeGoto(s: State, w: nat, pc: Pc, ref: Ref)
    requires ScopeInv(s, ref) && w in s.requests && PcAnchored(pc)
    ensures ScopeInv(Goto(s, w, pc), ref)
  {
    SetRequestFrame(s, w, s.requests[w].(pc := pc));
    ScopeFrame(s, Goto(s, w, pc), w, ref);
  }

  lemma ScopeRetry(s: State, w: nat, ref: Ref)
    requires ScopeInv(s, ref) && InPhase(s, w)
    ensures ScopeInv(Retry(s, w), ref)
  {
    var pc := s.requests[w].pc;
    if pc.attempt + 1 < MAX_RETRIES {
      ScopeGoto(s, w, Bumping(pc.ref, pc.attempt + 1, Reading), ref);
    } else {
      ScopeGoto(s, w, Finished(Contended(pc.ref)), ref);
    }
  }

  lemma ScopeAdvance(s: State, w: nat, ref: Ref)
    requires ScopeInv(s, ref) && InPhase(s, w)
    ensures ScopeInv(Advance(s, w), ref)
  {
    SetRequestFrame(s, w, Advance(s, w).requests[w]);
    ScopeFrame(s, Advance(s, w), w, ref);
  }

  /** A guard that lets a PUT through has anchored it. */
  lemma PassedIsAnchored(s: State, ref: Ref, body: Graph, ifMatch: IfMatch<Etag>, ifNoneMatchAny: bool)
    ensures var g := GuardPut(s, ref, body, ifMatch, ifNoneMatchAny);
            g.Passed? ==> Anchored(g.etag, body, ref)
  {
    if GuardPut(s, ref, body, ifMatch, ifNoneMatchAny).Passed? {
      assert SameOutOfScope(s.records[ref], body, ref);
    }
  }

  lemma ScopeGuard(s: State, w: nat, body: Graph, ref: Ref)
    requires ScopeInv(s, ref) && Enabled(s, Guard(w, body))
    ensures ScopeInv(DoGuard(s, w, body), ref)
  {
    var pc := s.requests[w].pc;
    PassedIsAnchored(s, pc.ref, body, Tag(pc.phase.tag), false);
    match GuardPut(s, pc.ref, body, Tag(pc.phase.tag), false)
    case Passed(etag) =>
      ScopeGoto(s, w, Bumping(pc.ref, pc.attempt, Replacing(body, etag, pc.phase.readAt)), ref);
    case Stale412 => ScopeRetry(s, w, ref);
    case _ => ScopeGoto(s, w, Finished(Aborted), ref);
  }

  lemma ScopeFetch(s: State, w: nat, copy: Graph, ref: Ref)
    requires ScopeInv(s, ref) && Enabled(s, Fetch(w, copy))
    ensures ScopeInv(DoFetch(s, w, copy), ref)
  {
    SetRequestFrame(s, w, DoFetch(s, w, copy).requests[w]);
    ScopeFrame(s, DoFetch(s, w, copy), w, ref);
  }

  lemma ScopeReplace(s: State, w: nat, stored: Graph, ref: Ref)
    requires ScopeInv(s, ref) && Enabled(s, Replace(w, stored))
    ensures ScopeInv(DoReplace(s, w, stored), ref)
  {
    var pc := s.requests[w].pc;
    if Unchanged(s, pc.ref, pc.phase.tag) {
      ReplaceKeepsScope(s.records[pc.ref], pc.phase.tag, pc.phase.submitted, stored, pc.ref);
      ScopeWriteByEngine(s, pc.ref, Engine(w), stored, ref);
      ScopeAdvance(Write(s, pc.ref, Engine(w), stored), w, ref);
    } else {
      ScopeRetry(s, w, ref);
    }
  }

  lemma ScopeRawReplace(s: State, p: nat, stored: Graph, ref: Ref)
    requires ScopeInv(s, ref) && Enabled(s, RawReplace(p, stored))
    ensures ScopeInv(DoRawReplace(s, p, stored), ref)
  {
    var put := s.puts[p];
    if Unchanged(s, put.ref, put.expected) {
      ReplaceKeepsScope(s.records[put.ref], put.expected, put.submitted, stored, put.ref);
      ScopeWriteByEngine(s, put.ref, Raw(p), stored, ref);
    }
  }

  lemma ScopeStep(s: State, l: Label, ref: Ref)
    requires ScopeInv(s, ref)
    ensures ScopeInv(Step(s, l), ref)
  {
    if Enabled(s, l) {
      match l
      case Fetch(w, copy) => ScopeFetch(s, w, copy, ref);
      case Guard(w, body) => ScopeGuard(s, w, body, ref);
      case Replace(w, stored) => ScopeReplace(s, w, stored, ref);
      case OwnerWrite(written, graph) => ScopeOwnerWrite(s, written, graph, ref);
      case OwnerDelete(deleted) => ScopeOwnerDelete(s, deleted, ref);
      case OwnerPolicy(_, _) =>
      case RawGuard(p, put, body, ifMatch, any) => PassedIsAnchored(s, put, body, ifMatch, any);
      case RawReplace(p, stored) => ScopeRawReplace(s, p, stored, ref);
      case _ =>
        PipelineFrame(s, l);
        ScopeFrame(s, Step(s, l), l.w, ref);
    }
  }

  lemma {:induction false} ScopeReachable(s0: State, labels: seq<Label>, ref: Ref)
    requires Init(s0)
    ensures ScopeInv(Exec(s0, labels), ref)
  {
    if labels != [] {
      ScopeReachable(s0, labels[..|labels| - 1], ref);
      ScopeStep(Exec(s0, labels[..|labels| - 1]), labels[|labels| - 1], ref);
    }
  }

  /**
   Whatever is submitted through the enforcement PUT: the record is there exactly when the
   owner wrote it and has not deleted it since, and its triples outside the enforcement fields
   are, up to blank-node naming, the ones the owner last wrote.
   */
  lemma EnforcementStaysInScope(s0: State, labels: seq<Label>, ref: Ref)
    requires Init(s0)
    ensures var s := Exec(s0, labels);
            match LastByOwner(s.history, ref)
            case NotOwned => ref !in s.records
            case Owned(g) => ref in s.records && Iso(OutOfScope(g, ref), OutOfScope(s.records[ref], ref))
  {
    ScopeReachable(s0, labels, ref);
  }

  /** After a delete, no in-flight enforcement PUT brings the record back: only the owner can. */
  lemma {:induction false} DeletedStaysDeleted(s: State, labels: seq<Label>, ref: Ref)
    requires ref !in s.records
    requires forall l :: l in labels && l.OwnerWrite? ==> l.ref != ref
    ensures ref !in Exec(s, labels).records
  {
    if labels != [] {
      var before, l := labels[..|labels| - 1], labels[|labels| - 1];
      DeletedStaysDeleted(s, before, ref);
      AbsentStep(Exec(s, before), l, ref);
    }
  }

  lemma AbsentStep(s: State, l: Label, ref: Ref)
    requires ref !in s.records && (l.OwnerWrite? ==> l.ref != ref)
    ensures ref !in Step(s, l).records
  {
    if Enabled(s, l) && Pipeline(l) {
      PipelineFrame(s, l);
    }
  }
}

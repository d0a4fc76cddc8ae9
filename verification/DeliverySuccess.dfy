/**
 A bump among at most ten contenders succeeds.  Each step a request takes in the loop moves it on to
 a later step of the attempt, to the next attempt, or out of the loop with the bump done; there are
 ten attempts of three steps, and running out of them would take more contenders.
 */
module DeliverySuccess {
  import opened Rdf
  import opened Preconditions
  import opened Delivery
  import opened DeliveryProgress
  import opened DeliveryScope
  import opened DeliveryBudget

  /** How far the loop has come: three steps in each attempt. */
  function Place(pc: Pc): nat
    requires pc.Bumping?
  {
    3 * pc.attempt + match pc.phase case Reading => 0 case Writing(_, _, _) => 1 case Replacing(_, _, _) => 2
  }

  /** A step of the loop moves on in it, completes the bump, or, writing nothing, contends out. */
  ghost predicate GoesOn(s: State, s': State, w: nat)
    requires InPhase(s, w)
  {
    && w in s'.requests
    && var r, r' := s.requests[w], s'.requests[w];
       || (!r'.pc.Finished? && r'.token == r.token && r'.view == r.view
           && (if r.pc.ref.TokenRef? then r'.tokenBumped else r'.viewBumped))
       || (r'.pc.Bumping? && r'.pc.ref == r.pc.ref && r'.since == r.since && Place(r.pc) < Place(r'.pc))
       || (r'.pc == Finished(Contended(r.pc.ref)) && s'.history == s.history && r'.since == r.since)
  }

  lemma LoopFetch(s: State, w: nat, copy: Graph)
    requires InPhase(s, w) && s.requests[w].pc.phase.Reading?
    requires s.requests[w].pc.ref in s.records && !ReadCount(copy, s.requests[w].pc.ref).Malformed?
    ensures GoesOn(s, DoFetch(s, w, copy), w)
  {
    hide ReadCount, Bumped;
  }

  lemma LoopGuard(s: State, w: nat, body: Graph)
    requires InPhase(s, w) && s.requests[w].pc.phase.Writing?
    requires var pc := s.requests[w].pc;
             var answer := GuardPut(s, pc.ref, body, Tag(pc.phase.tag), false);
             s.requests[w].pc.ref in s.records && (answer.NotFound404? || answer.Stale412? || answer.Passed?)
    ensures GoesOn(s, DoGuard(s, w, body), w)
  {
  }

  lemma LoopReplace(s: State, w: nat, stored: Graph)
    requires InPhase(s, w) && s.requests[w].pc.phase.Replacing?
    ensures GoesOn(s, DoReplace(s, w, stored), w)
  {
    hide Unchanged;
  }

  lemma LoopStep(s: State, l: Label, w: nat)
    requires InPhase(s, w) && (l.Fetch? || l.Guard? || l.Replace?) && l.w == w && Enabled(s, l)
    requires s.requests[w].pc.ref in s.records
    requires l.Fetch? ==> !ReadCount(l.copy, s.requests[w].pc.ref).Malformed?
    requires l.Guard? ==>
               var pc := s.requests[w].pc;
               var answer := GuardPut(s, pc.ref, l.body, Tag(pc.phase.tag), false);
               answer.NotFound404? || answer.Stale412? || answer.Passed?
    ensures GoesOn(s, Step(s, l), w)
  {
    hide ReadCount, GuardPut, GoesOn, DoFetch, DoGuard, DoReplace;
    match l
    case Fetch(_, copy) => LoopFetch(s, w, copy);
    case Guard(_, body) => LoopGuard(s, w, body);
    case Replace(_, stored) => LoopReplace(s, w, stored);
  }

  /**
   With at most ten contenders and no other writer each step of a bump's loop, as long as the
   record is there and its count is a number, moves the request on in the loop or completes the bump.
   */
  lemma TenContendersGoOn(s0: State, labels: seq<Label>, w: nat, l: Label, contenders: set<nat>)
    requires Init(s0) && w in contenders && |contenders| <= 10
    requires var s := Exec(s0, labels);
             && InPhase(s, w) && (l.Fetch? || l.Guard? || l.Replace?) && l.w == w && Enabled(s, l)
             && OnlyAmong(s.history, s.requests[w].since, s.requests[w].pc.ref, w, contenders)
             && s.requests[w].pc.ref in s.records
             && (l.Fetch? ==> !ReadCount(l.copy, s.requests[w].pc.ref).Malformed?)
    ensures w in Exec(s0, labels + [l]).requests
    ensures var r, r' := Exec(s0, labels).requests[w], Exec(s0, labels + [l]).requests[w];
            && !r'.pc.Finished?
            && (HasBumped(r', r.pc.ref) || (r'.pc.Bumping? && r'.pc.ref == r.pc.ref && r'.since == r.since && Place(r.pc) < Place(r'.pc)))
  {
    hide GuardPut, ReadCount, Bumped, Step, Enabled, OnlyAmong, Init;
    var s := Exec(s0, labels);
    assert (labels + [l])[..|labels|] == labels;
    assert Exec(s0, labels + [l]) == Step(s, l);
    hide Exec;
    if l.Guard? {
      BumpIsNeverForbidden(s0, labels, w, l.body);
    }
    var ref := s.requests[w].pc.ref;
    ProgressReachable(s0, labels);
    assert Shape(s.requests[w]);
    LoopStep(s, l, w);
    if Step(s, l).requests[w].pc == Finished(Contended(ref)) {
      TenContendersSucceed(s0, labels + [l], w, ref, contenders);
    }
  }

  // ------------------------------------------------------------------------ whole loops

  predicate StepOf(l: Label, w: nat) {
    match l
    case Authenticate(v, _, _) => v == w
    case LoadView(v) => v == w
    case Decide(v, _) => v == w
    case Record(v, _) => v == w
    case Abandon(v) => v == w
    case Fetch(v, _) => v == w
    case Guard(v, _) => v == w
    case Replace(v, _) => v == w
    case Append(v, _) => v == w
    case _ => false
  }

  /** The request's loop step can be taken, on a record whose count is a number. */
  ghost predicate StepsSoundly(s: State, l: Label, w: nat)
    requires InPhase(s, w)
  {
    && (l.Fetch? || l.Guard? || l.Replace?) && Enabled(s, l)
    && s.requests[w].pc.ref in s.records
    && (l.Fetch? ==> !ReadCount(l.copy, s.requests[w].pc.ref).Malformed?)
  }

  /** The request is in its loop for ref, which it began when the history had this length. */
  ghost predicate InLoop(s: State, w: nat, ref: Ref, since: nat) {
    InPhase(s, w) && s.requests[w].pc.ref == ref && s.requests[w].since == since
  }

  /** From position a of the run on, whatever the request does in its loop it can do, and it is not disturbed by more. */
  ghost predicate SoundFrom(s0: State, labels: seq<Label>, a: nat, w: nat, ref: Ref, since: nat, contenders: set<nat>) {
    forall i :: a <= i < |labels| && InLoop(Exec(s0, labels[..i]), w, ref, since) ==>
      && (StepOf(labels[i], w) ==> StepsSoundly(Exec(s0, labels[..i]), labels[i], w))
      && OnlyAmong(Exec(s0, labels[..i]).history, since, ref, w, contenders)
  }

  /** The steps of w among those from a on. */
  function StepsTaken(labels: seq<Label>, a: nat, w: nat): nat
    decreases |labels|
  {
    if |labels| <= a then 0
    else StepsTaken(labels[..|labels| - 1], a, w) + if StepOf(labels[|labels| - 1], w) then 1 else 0
  }

  /** Nobody else's step touches the request. */
  lemma OthersKeep(s: State, l: Label, w: nat)
    requires w in s.requests && !StepOf(l, w)
    ensures w in Step(s, l).requests && Step(s, l).requests[w] == s.requests[w]
  {
    hide DoFetch, DoGuard, DoReplace, DoAuthenticate, DoLoadView, DoDecide, DoRecord, DoAppend, EtagOf, GuardPut, Iso, Seeded;
    if Enabled(s, l) {
      if Pipeline(l) {
        PipelineFrame(s, l);
      } else {
        match l
        case Fetch(v, copy) => KeepsFetch(s, v, copy, w);
        case Guard(v, body) => KeepsGuard(s, v, body, w);
        case Replace(v, stored) => KeepsReplace(s, v, stored, w);
        case _ =>
      }
    }
  }

  /** The request is as it was. */
  ghost predicate Keeps(s: State, s': State, w: nat) {
    w in s.requests ==> w in s'.requests && s'.requests[w] == s.requests[w]
  }

  lemma KeepsFetch(s: State, v: nat, copy: Graph, w: nat)
    requires InPhase(s, v) && v != w
    ensures Keeps(s, DoFetch(s, v, copy), w)
  {
    hide ReadCount, Bumped, EtagOf;
  }

  lemma KeepsGuard(s: State, v: nat, body: Graph, w: nat)
    requires InPhase(s, v) && s.requests[v].pc.phase.Writing? && v != w
    ensures Keeps(s, DoGuard(s, v, body), w)
  {
    hide GuardPut;
  }

  lemma KeepsReplace(s: State, v: nat, stored: Graph, w: nat)
    requires InPhase(s, v) && s.requests[v].pc.phase.Replacing? && v != w
    ensures Keeps(s, DoReplace(s, v, stored), w)
  {
    hide Unchanged;
  }

  ghost predicate Bumps(s: State, w: nat, ref: Ref) {
    w in s.requests && HasBumped(s.requests[w], ref)
  }

  /** Until the bump is done, every step of the request brings it further. */
  lemma {:induction false} LoopAdvances(
      s0: State, labels: seq<Label>, a: nat, w: nat, ref: Ref, since: nat, contenders: set<nat>)
    requires Init(s0) && a <= |labels| && w in contenders && |contenders| <= 10
    requires InLoop(Exec(s0, labels[..a]), w, ref, since) && SoundFrom(s0, labels, a, w, ref, since, contenders)
    ensures || (exists n :: a <= n <= |labels| && Bumps(Exec(s0, labels[..n]), w, ref))
            || (InLoop(Exec(s0, labels), w, ref, since)
                && Place(Exec(s0, labels).requests[w].pc) >= StepsTaken(labels, a, w))
    decreases |labels|
  {
    hide InLoop, Exec, Step, StepOf, StepsSoundly, OnlyAmong, Place, HasBumped;
    var m := |labels| - 1;
    if |labels| == a {
      assert labels[..a] == labels;
    } else {
      var earlier, l := labels[..m], labels[m];
      forall i | a <= i <= m ensures earlier[..i] == labels[..i] {
      }
      SoundEarlier(s0, labels, a, w, ref, since, contenders);
      LoopAdvances(s0, earlier, a, w, ref, since, contenders);
      if n :| a <= n <= m && Bumps(Exec(s0, earlier[..n]), w, ref) {
        assert Bumps(Exec(s0, labels[..n]), w, ref);
      } else {
        assert earlier[..m] == earlier;
        OneStep(s0, earlier, l, w, ref, since, contenders);
        assert earlier + [l] == labels;
        if Bumps(Exec(s0, labels), w, ref) {
          assert labels[..|labels|] == labels;
        }
      }
    }
  }

  lemma SoundEarlier(s0: State, labels: seq<Label>, a: nat, w: nat, ref: Ref, since: nat, contenders: set<nat>)
    requires a < |labels| && SoundFrom(s0, labels, a, w, ref, since, contenders)
    ensures SoundFrom(s0, labels[..|labels| - 1], a, w, ref, since, contenders)
  {
    hide Exec, StepOf, StepsSoundly, OnlyAmong;
    var earlier := labels[..|labels| - 1];
    forall i | a <= i < |earlier| && InLoop(Exec(s0, earlier[..i]), w, ref, since)
      ensures StepOf(earlier[i], w) ==> StepsSoundly(Exec(s0, earlier[..i]), earlier[i], w)
      ensures OnlyAmong(Exec(s0, earlier[..i]).history, since, ref, w, contenders)
    {
      assert earlier[..i] == labels[..i] && earlier[i] == labels[i];
    }
  }

  /** One more step of the run: of the request itself, or of anyone else. */
  lemma OneStep(s0: State, labels: seq<Label>, l: Label, w: nat, ref: Ref, since: nat, contenders: set<nat>)
    requires Init(s0) && w in contenders && |contenders| <= 10
    requires InLoop(Exec(s0, labels), w, ref, since)
    requires StepOf(l, w) ==> StepsSoundly(Exec(s0, labels), l, w)
    requires OnlyAmong(Exec(s0, labels).history, since, ref, w, contenders)
    ensures var s' := Exec(s0, labels + [l]);
            || Bumps(s', w, ref)
            || (InLoop(s', w, ref, since)
                && Place(s'.requests[w].pc) >=
                   Place(Exec(s0, labels).requests[w].pc) + if StepOf(l, w) then 1 else 0)
  {
    hide Exec, Step, OnlyAmong, Place, HasBumped, Enabled, ReadCount, Init;
    if StepOf(l, w) {
      TenContendersGoOn(s0, labels, w, l, contenders);
    } else {
      OthersKeep(Exec(s0, labels), l, w);
      ExecOne(s0, labels, l);
    }
  }

  lemma ExecOne(s0: State, labels: seq<Label>, l: Label)
    ensures Exec(s0, labels + [l]) == Step(Exec(s0, labels), l)
  {
    assert (labels + [l])[..|labels|] == labels;
  }

  /**
   With at most ten contenders and no other writer a bump is done within thirty steps of its own,
   ten attempts of a GET and the two halves of a PUT each, whatever the others do in between; as
   long as the record is there and its count is a number.
   */
  lemma TenContendersAllSucceed(
      s0: State, labels: seq<Label>, a: nat, w: nat, ref: Ref, since: nat, contenders: set<nat>)
    requires Init(s0) && a <= |labels| && w in contenders && |contenders| <= 10
    requires InLoop(Exec(s0, labels[..a]), w, ref, since) && SoundFrom(s0, labels, a, w, ref, since, contenders)
    requires StepsTaken(labels, a, w) >= 30
    ensures exists n :: a <= n <= |labels| && Bumps(Exec(s0, labels[..n]), w, ref)
  {
    LoopAdvances(s0, labels, a, w, ref, since, contenders);
    var s := Exec(s0, labels);
    BudgetReachable(s0, labels);
    assert w in s.requests ==> AttemptsInRange(s.requests[w]);
  }
}

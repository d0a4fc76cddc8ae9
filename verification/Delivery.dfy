/**
 The delivery-enforcement protocol between the view engine and the storage server, as a state
 machine whose steps are the atomic actions of either side.

 A consumer request authenticates (reading the grant's record), loads the view record, takes
 the policy decision on those two possibly stale reads, and then records the delivery: it
 bumps the grant's counter, bumps the view's counter and appends a log entry.  Each bump is a
 loop of at most ten attempts.  An attempt is three separate steps: the client's GET, the
 storage server's guard on the conditional PUT, and the locked compare-and-replace.  Owner
 writes and deletes, policy changes and arbitrary enforcement PUTs by the engine credential
 may happen between any two steps.

 Step is total: a label that is not enabled changes nothing.  Every sequence of labels is
 therefore an interleaving, and Exec of all sequences gives every reachable state.

 A graph that travels as text is re-parsed at the other end, so what arrives is an isomorphic
 copy; the labels carry that copy.  The history field records every write and delete of a
 record, in order; it is only ever read by the properties.
 */
module Delivery {
  import opened Options
  import opened Rdf
  import opened Preconditions
  import opened Vocabulary
  import P = Policy

  // ------------------------------------------------------------------------- records

  datatype Ref = TokenRef(uri: string) | ViewRef(uri: string)

  const ENFORCEMENT_COUNT := Iri(POD + "enforcementCount")
  const LAST_USED_AT := Iri(POD + "lastUsedAt")
  const VIEW_RETRIEVAL_COUNT := Iri(POD + "viewRetrievalCount")
  const MAX_VIEW_RETRIEVALS := Iri(POD + "maxViewRetrievals")

  const MAX_RETRIES: nat := 10

  function Subject(ref: Ref): Term {
    Iri(ref.uri)
  }

  function Counter(ref: Ref): Term {
    if ref.TokenRef? then ENFORCEMENT_COUNT else VIEW_RETRIEVAL_COUNT
  }

  /** The only fields an enforcement PUT may change on a record of this kind. */
  function Fields(ref: Ref): set<Term> {
    if ref.TokenRef? then {ENFORCEMENT_COUNT, LAST_USED_AT} else {VIEW_RETRIEVAL_COUNT}
  }

  function OutOfScope(g: Graph, ref: Ref): Graph {
    WithoutFields(g, Subject(ref), Fields(ref))
  }

  datatype IntReading = Missing | Number(n: int) | Malformed

  /** graph.value then int(str(..)): any one of the objects is read. */
  ghost function ReadInt(g: Graph, s: Term, p: Term): IntReading {
    var os := Objects(g, s, p);
    if os == {} then Missing
    else
      var o :| o in os;
      if o.Num? then Number(o.value) else Malformed
  }

  ghost function ReadCount(g: Graph, ref: Ref): IntReading {
    var r := ReadInt(g, Subject(ref), Counter(ref));
    if r.Missing? then Number(0) else r
  }

  ghost function ReadLastUsed(g: Graph, ref: Ref): int {
    var os := Objects(g, Subject(ref), LAST_USED_AT);
    if os == {} then P.UNIX_EPOCH
    else
      var o :| o in os;
      if o.Instant? then o.micros else P.UNIX_EPOCH
  }

  /** The client's in-place edit of the graph it read. */
  function Bumped(g: Graph, ref: Ref, count: int, now: int): Graph {
    OutOfScope(g, ref)
    + {Triple(Subject(ref), Counter(ref), Num(count + 1))}
    + (if ref.TokenRef? then {Triple(Subject(ref), LAST_USED_AT, Instant(P.ToWholeSecond(now)))} else {})
  }

  /** The record holds exactly one count, c. */
  ghost predicate CountIs(g: Graph, ref: Ref, c: int) {
    Objects(g, Subject(ref), Counter(ref)) == {Num(c)}
  }

  // --------------------------------------------------------------------------- state

  datatype Writer = Owner | Engine(request: nat) | Raw(put: nat)

  datatype Event = Wrote(ref: Ref, writer: Writer, graph: Graph) | Deleted(ref: Ref)

  datatype Outcome = Delivered | Denied | Aborted | Contended(ref: Ref)

  /** readAt is the length of the history when the attempt's GET was served. */
  datatype Phase =
    | Reading
    | Writing(submitted: Graph, tag: Etag, readAt: nat)
    | Replacing(submitted: Graph, tag: Etag, readAt: nat)

  datatype Pc =
    | Authenticated
    | ViewLoaded
    | Cleared
    | Bumping(ref: Ref, attempt: nat, phase: Phase)
    | Logging
    | Finished(outcome: Outcome)

  /** since is the length of the history when the current bump loop began. */
  datatype Request = Request(
    token: Ref,
    view: Ref,
    grant: P.Grant,
    seenView: Option<P.ViewState>,
    recordedAt: int,
    since: nat,
    tokenBumped: bool,
    viewBumped: bool,
    logged: bool,
    pc: Pc)

  datatype RawPut = RawPut(ref: Ref, submitted: Graph, expected: Etag)

  datatype Entry = Entry(view: string, token: string, at: int)

  datatype State = State(
    records: map<Ref, Graph>,
    policies: map<string, P.PolicyRecord>,
    requests: map<nat, Request>,
    puts: map<nat, RawPut>,
    log: map<string, Entry>,
    history: seq<Event>)

  ghost predicate Init(s: State) {
    s.records == map[] && s.requests == map[] && s.puts == map[] && s.log == map[] && s.history == []
  }

  // --------------------------------------------------------------------------- steps

  datatype Label =
    | Authenticate(w: nat, token: string, view: string)
    | LoadView(w: nat)
    | Decide(w: nat, now: int)
    | Record(w: nat, now: int)
    | Abandon(w: nat)
    | Fetch(w: nat, copy: Graph)
    | Guard(w: nat, body: Graph)
    | Replace(w: nat, stored: Graph)
    | Append(w: nat, entryId: string)
    | OwnerWrite(ref: Ref, graph: Graph)
    | OwnerDelete(ref: Ref)
    | OwnerPolicy(token: string, policy: Option<P.PolicyRecord>)
    | RawGuard(p: nat, ref: Ref, body: Graph, ifMatch: IfMatch<Etag>, ifNoneMatchAny: bool)
    | RawReplace(p: nat, stored: Graph)

  /** The owner's writes seed the counter at zero, and a grant's lastUsedAt at the epoch. */
  ghost predicate Seeded(g: Graph, ref: Ref) {
    && CountIs(g, ref, 0)
    && (ref.TokenRef? ==> Objects(g, Subject(ref), LAST_USED_AT) == {Instant(P.UNIX_EPOCH)})
  }

  ghost predicate InPhase(s: State, w: nat) {
    w in s.requests && s.requests[w].pc.Bumping?
  }

  ghost predicate Enabled(s: State, l: Label) {
    match l
    case Authenticate(w, token, view) => w !in s.requests && TokenRef(token) in s.records
    case LoadView(w) => w in s.requests && s.requests[w].pc.Authenticated?
    case Decide(w, now) => w in s.requests && s.requests[w].pc.ViewLoaded? && s.requests[w].seenView.Some?
    case Record(w, now) => w in s.requests && s.requests[w].pc.Cleared?
    case Abandon(w) => w in s.requests && !s.requests[w].pc.Finished?
    case Fetch(w, copy) =>
      && InPhase(s, w) && s.requests[w].pc.phase.Reading?
      && (s.requests[w].pc.ref in s.records ==> Iso(s.records[s.requests[w].pc.ref], copy))
    case Guard(w, body) =>
      InPhase(s, w) && s.requests[w].pc.phase.Writing? && Iso(s.requests[w].pc.phase.submitted, body)
    case Replace(w, stored) =>
      InPhase(s, w) && s.requests[w].pc.phase.Replacing? && Iso(s.requests[w].pc.phase.submitted, stored)
    case Append(w, entryId) => w in s.requests && s.requests[w].pc.Logging?
    case OwnerWrite(ref, graph) => Seeded(graph, ref)
    case OwnerDelete(ref) => ref in s.records
    case OwnerPolicy(token, policy) => true
    case RawGuard(p, ref, body, ifMatch, ifNoneMatchAny) => p !in s.puts
    case RawReplace(p, stored) => p in s.puts && Iso(s.puts[p].submitted, stored)
  }

  ghost function SetRequest(s: State, w: nat, r: Request): State {
    s.(requests := s.requests[w := r])
  }

  ghost function Goto(s: State, w: nat, pc: Pc): State
    requires w in s.requests
  {
    SetRequest(s, w, s.requests[w].(pc := pc))
  }

  ghost function DoAuthenticate(s: State, w: nat, token: string, view: string): State
    requires TokenRef(token) in s.records
  {
    var ref := TokenRef(token);
    var count := ReadCount(s.records[ref], ref);
    if count.Malformed? then s
    else
      var grant := P.Grant(count.n, ReadLastUsed(s.records[ref], ref));
      SetRequest(s, w, Request(ref, ViewRef(view), grant, None, 0, 0, false, false, false, Authenticated))
  }

  /** The request after the view record was read; without a ceiling the count is not looked at. */
  ghost function Loaded(s: State, r: Request): Request {
    if r.view !in s.records then r.(pc := Finished(Denied))
    else
      var g := s.records[r.view];
      var count := ReadCount(g, r.view);
      var limit := ReadInt(g, Subject(r.view), MAX_VIEW_RETRIEVALS);
      if limit.Missing? then r.(seenView := Some(P.ViewState(if count.Number? then count.n else 0, None)), pc := ViewLoaded)
      else if limit.Malformed? || count.Malformed? then r.(pc := Finished(Aborted))
      else r.(seenView := Some(P.ViewState(count.n, Some(limit.n))), pc := ViewLoaded)
  }

  ghost function DoLoadView(s: State, w: nat): State
    requires w in s.requests
  {
    SetRequest(s, w, Loaded(s, s.requests[w]))
  }

  /** The request after the policy decision on what it read. */
  ghost function Judged(s: State, r: Request, now: int): Request
    requires r.seenView.Some?
  {
    var policy := if r.token.uri in s.policies then Some(s.policies[r.token.uri]) else None;
    if P.CheckPolicy(r.grant, policy, r.seenView.value, now).Allowed? then r.(pc := Cleared)
    else r.(pc := Finished(Denied))
  }

  ghost function DoDecide(s: State, w: nat, now: int): State
    requires w in s.requests && s.requests[w].seenView.Some?
  {
    SetRequest(s, w, Judged(s, s.requests[w], now))
  }

  ghost function DoRecord(s: State, w: nat, now: int): State
    requires w in s.requests
  {
    var r := s.requests[w];
    SetRequest(s, w, r.(recordedAt := now, since := |s.history|, pc := Bumping(r.token, 0, Reading)))
  }

  ghost function DoFetch(s: State, w: nat, copy: Graph): State
    requires InPhase(s, w)
  {
    var r := s.requests[w];
    var ref := r.pc.ref;
    if ref !in s.records then Goto(s, w, Finished(Aborted))
    else
      var count := ReadCount(copy, ref);
      if count.Malformed? then Goto(s, w, Finished(Aborted))
      else
        var edited := Bumped(copy, ref, count.n, r.recordedAt);
        Goto(s, w, Bumping(ref, r.pc.attempt, Writing(edited, EtagOf(s.records[ref]), |s.history|)))
  }

  /** A 412 uses up one attempt. */
  ghost function Retry(s: State, w: nat): State
    requires InPhase(s, w)
  {
    var pc := s.requests[w].pc;
    if pc.attempt + 1 < MAX_RETRIES
    then Goto(s, w, Bumping(pc.ref, pc.attempt + 1, Reading))
    else Goto(s, w, Finished(Contended(pc.ref)))
  }

  datatype GuardResult = NotFound404 | Stale412 | Required428 | Forbidden403 | Passed(etag: Etag)

  /** The server's first half of an enforcement PUT: existence, precondition, scope. */
  ghost function GuardPut(s: State, ref: Ref, body: Graph, ifMatch: IfMatch<Etag>, ifNoneMatchAny: bool): GuardResult {
    if ref !in s.records then NotFound404
    else
      var etag := EtagOf(s.records[ref]);
      match CheckPreconditions(ifMatch, ifNoneMatchAny, Present(etag))
      case Failed412 => Stale412
      case Required428 => GuardResult.Required428
      case Satisfied =>
        if Iso(OutOfScope(s.records[ref], ref), OutOfScope(body, ref)) then Passed(etag) else Forbidden403
  }

  ghost function DoGuard(s: State, w: nat, body: Graph): State
    requires InPhase(s, w) && s.requests[w].pc.phase.Writing?
  {
    var pc := s.requests[w].pc;
    match GuardPut(s, pc.ref, body, Tag(pc.phase.tag), false)
    case Passed(etag) => Goto(s, w, Bumping(pc.ref, pc.attempt, Replacing(body, etag, pc.phase.readAt)))
    case Stale412 => Retry(s, w)
    case _ => Goto(s, w, Finished(Aborted))
  }

  /** The server's second half: one lock hold spans the read, the comparison and the write. */
  ghost predicate Unchanged(s: State, ref: Ref, expected: Etag) {
    ref in s.records && EtagOf(s.records[ref]) == expected
  }

  ghost function Write(s: State, ref: Ref, writer: Writer, g: Graph): State {
    s.(records := s.records[ref := g], history := s.history + [Wrote(ref, writer, g)])
  }

  /** After the token's bump comes the view's, after the view's the log entry. */
  ghost function Advance(s: State, w: nat): State
    requires InPhase(s, w)
  {
    var r := s.requests[w];
    SetRequest(s, w,
      if r.pc.ref.TokenRef?
      then r.(tokenBumped := true, since := |s.history|, pc := Bumping(r.view, 0, Reading))
      else r.(viewBumped := true, pc := Logging))
  }

  ghost function DoReplace(s: State, w: nat, stored: Graph): State
    requires InPhase(s, w) && s.requests[w].pc.phase.Replacing?
  {
    var pc := s.requests[w].pc;
    if Unchanged(s, pc.ref, pc.phase.tag)
    then Advance(Write(s, pc.ref, Engine(w), stored), w)
    else Retry(s, w)
  }

  ghost function DoAppend(s: State, w: nat, entryId: string): State
    requires w in s.requests
  {
    var r := s.requests[w];
    var appended := s.(log := s.log[entryId := Entry(r.view.uri, r.token.uri, r.recordedAt)]);
    SetRequest(appended, w, r.(logged := true, pc := Finished(Delivered)))
  }

  ghost function DoRawGuard(s: State, p: nat, ref: Ref, body: Graph, ifMatch: IfMatch<Etag>, ifNoneMatchAny: bool): State {
    match GuardPut(s, ref, body, ifMatch, ifNoneMatchAny)
    case Passed(etag) => s.(puts := s.puts[p := RawPut(ref, body, etag)])
    case _ => s
  }

  ghost function DoRawReplace(s: State, p: nat, stored: Graph): State
    requires p in s.puts
  {
    var put := s.puts[p];
    if Unchanged(s, put.ref, put.expected)
    then Write(s, put.ref, Raw(p), stored)
    else s
  }

  ghost function Step(s: State, l: Label): State {
    if !Enabled(s, l) then s else
    match l
    case Authenticate(w, token, view) => DoAuthenticate(s, w, token, view)
    case LoadView(w) => DoLoadView(s, w)
    case Decide(w, now) => DoDecide(s, w, now)
    case Record(w, now) => DoRecord(s, w, now)
    case Abandon(w) => Goto(s, w, Finished(Aborted))
    case Fetch(w, copy) => DoFetch(s, w, copy)
    case Guard(w, body) => DoGuard(s, w, body)
    case Replace(w, stored) => DoReplace(s, w, stored)
    case Append(w, entryId) => DoAppend(s, w, entryId)
    case OwnerWrite(ref, graph) => Write(s, ref, Owner, graph)
    case OwnerDelete(ref) => s.(records := s.records - {ref}, history := s.history + [Deleted(ref)])
    case OwnerPolicy(token, policy) =>
      s.(policies := if policy.Some? then s.policies[token := policy.value] else s.policies - {token})
    case RawGuard(p, ref, body, ifMatch, ifNoneMatchAny) => DoRawGuard(s, p, ref, body, ifMatch, ifNoneMatchAny)
    case RawReplace(p, stored) => DoRawReplace(s, p, stored)
  }

  ghost function Exec(s: State, labels: seq<Label>): State {
    if labels == [] then s
    else Step(Exec(s, labels[..|labels| - 1]), labels[|labels| - 1])
  }

  // ------------------------------------------------------------------------- frames

  /** s' differs from s at most in request w and in the log. */
  ghost predicate OnlyRequest(s: State, s': State, w: nat) {
    && s'.records == s.records && s'.puts == s.puts && s'.history == s.history
    && s'.policies == s.policies
    && (forall v :: v != w ==> (v in s'.requests <==> v in s.requests))
    && (forall v :: v != w && v in s'.requests ==> s'.requests[v] == s.requests[v])
  }

  ghost predicate Pipeline(l: Label) {
    l.Authenticate? || l.LoadView? || l.Decide? || l.Record? || l.Abandon? || l.Append?
  }

  lemma HistoryAppend(h: seq<Event>, e: Event)
    ensures (h + [e])[..|h + [e]| - 1] == h && (h + [e])[|h + [e]| - 1] == e
  {
  }

  lemma SetRequestFrame(s: State, w: nat, r: Request)
    ensures OnlyRequest(s, SetRequest(s, w, r), w)
  {
  }

  /** Not in a loop except at its very start, and not contended out. */
  predicate OutsideLoops(r: Request, now: nat) {
    && (r.pc.Bumping? ==> r.pc.phase.Reading? && r.pc.attempt == 0 && r.since == now)
    && (r.pc.Finished? ==> !r.pc.outcome.Contended?)
  }

  /** One request moved on outside the loops, keeping its grant, its view and its log mark. */
  ghost predicate MovedOn(s: State, s': State, w: nat) {
    && OnlyRequest(s, s', w) && s'.log == s.log
    && w in s.requests && w in s'.requests
    && s'.requests[w].token == s.requests[w].token && s'.requests[w].view == s.requests[w].view
    && s'.requests[w].logged == s.requests[w].logged
    && OutsideLoops(s'.requests[w], |s.history|)
  }

  lemma MovesOn(s: State, w: nat, r: Request)
    requires w in s.requests && r.token == s.requests[w].token && r.view == s.requests[w].view
    requires r.logged == s.requests[w].logged && OutsideLoops(r, |s.history|)
    ensures MovedOn(s, SetRequest(s, w, r), w)
  {
  }

  /** Reading the view either ends the request or moves it on with what it read. */
  lemma LoadedShape(s: State, r: Request)
    ensures var r' := Loaded(s, r);
            || r' == r.(pc := Finished(Denied)) || r' == r.(pc := Finished(Aborted))
            || (r'.seenView.Some? && r' == r.(seenView := r'.seenView, pc := ViewLoaded))
  {
    hide ReadInt, ReadCount;
  }

  lemma JudgedShape(s: State, r: Request, now: int)
    requires r.seenView.Some?
    ensures Judged(s, r, now) == r.(pc := Cleared) || Judged(s, r, now) == r.(pc := Finished(Denied))
  {
    hide P.CheckPolicy;
  }

  lemma AuthenticateFrame(s: State, w: nat, token: string, view: string)
    requires TokenRef(token) in s.records && w !in s.requests
    ensures var s' := DoAuthenticate(s, w, token, view);
            && OnlyRequest(s, s', w) && s'.log == s.log
            && (w in s'.requests ==> OutsideLoops(s'.requests[w], |s.history|) && !s'.requests[w].logged)
  {
    hide ReadCount, ReadLastUsed;
  }

  lemma AppendFrame(s: State, w: nat, entryId: string)
    requires w in s.requests
    ensures OnlyRequest(s, DoAppend(s, w, entryId), w)
    ensures OutsideLoops(DoAppend(s, w, entryId).requests[w], |s.history|)
  {
  }

  /** The steps outside the bump loops touch one request, and start a loop only at its first read. */
  lemma PipelineFrame(s: State, l: Label)
    requires Pipeline(l) && Enabled(s, l)
    ensures OnlyRequest(s, Step(s, l), l.w)
    ensures l.w in Step(s, l).requests ==> OutsideLoops(Step(s, l).requests[l.w], |s.history|)
    ensures !l.Append? ==> Step(s, l).log == s.log
    ensures !l.Append? && !l.Authenticate? ==> MovedOn(s, Step(s, l), l.w)
    ensures l.Authenticate? && l.w in Step(s, l).requests ==> !Step(s, l).requests[l.w].logged
  {
    hide DoAuthenticate, Loaded, Judged, DoAppend;
    match l
    case Authenticate(w, token, view) =>
      AuthenticateFrame(s, w, token, view);
      StepAuthenticate(s, w, token, view);
    case LoadView(w) =>
      LoadedShape(s, s.requests[w]);
      MovesOn(s, w, Loaded(s, s.requests[w]));
    case Decide(w, now) =>
      JudgedShape(s, s.requests[w], now);
      MovesOn(s, w, Judged(s, s.requests[w], now));
    case Record(w, now) =>
      MovesOn(s, w, s.requests[w].(recordedAt := now, since := |s.history|, pc := Bumping(s.requests[w].token, 0, Reading)));
    case Abandon(w) =>
      MovesOn(s, w, s.requests[w].(pc := Finished(Aborted)));
    case Append(w, entryId) =>
      AppendFrame(s, w, entryId);
      assert Step(s, l) == DoAppend(s, w, entryId);
  }

  lemma StepAuthenticate(s: State, w: nat, token: string, view: string)
    requires Enabled(s, Authenticate(w, token, view))
    ensures Step(s, Authenticate(w, token, view)) == DoAuthenticate(s, w, token, view)
  {
    hide DoAuthenticate;
  }
}

/**
 The bump as the engine's client runs it: a loop of at most ten attempts, each a GET, an edit of
 the graph read, and a conditional PUT, against a server whose record others may rewrite or delete
 before each of its two halves. The state machine of Delivery has the same parts as single steps.
 */
module EnforcementClient {
  import opened Options
  import opened Rdf
  import opened Preconditions
  import opened Delivery
  import Counts = DeliveryCounts
  import Scope = DeliveryScope
  import P = Policy

  /** The RDF library: one of a set's members, the digest of a graph, and the isomorphism test. */
  datatype Library = Library(pick: set<Term> -> Term, etagOf: Graph -> string, isomorphic: (Graph, Graph) -> bool) {
    ghost predicate Sound() {
      && (forall os: set<Term> :: os != {} ==> pick(os) in os)
      && (forall g: Graph, h: Graph :: etagOf(g) == etagOf(h) <==> Iso(g, h))
      && (forall g: Graph, h: Graph :: isomorphic(g, h) <==> Iso(g, h))
    }
  }

  lemma WithoutNothing(subject: Term, fields: set<Term>)
    ensures WithoutFields({}, subject, fields) == {}
  {
  }

  lemma WithoutStep(g: Graph, t: Triple, subject: Term, fields: set<Term>)
    ensures WithoutFields(g + {t}, subject, fields) ==
            WithoutFields(g, subject, fields) + (if t.s == subject && t.p in fields then {} else {t})
  {
  }

  /** The loop that copies a graph without a subject's fields. */
  method Without(g: Graph, subject: Term, fields: set<Term>) returns (out: Graph)
    ensures out == WithoutFields(g, subject, fields)
  {
    hide WithoutFields;
    out := {};
    assert g - g == {} && WithoutFields({}, subject, fields) == {} by { WithoutNothing(subject, fields); }
    var todo := g;
    while todo != {}
      invariant todo <= g
      invariant out == WithoutFields(g - todo, subject, fields)
      decreases |todo|
    {
      var t :| t in todo;
      assert g - (todo - {t}) == (g - todo) + {t};
      WithoutStep(g - todo, t, subject, fields);
      if !(t.s == subject && t.p in fields) {
        out := out + {t};
      }
      todo := todo - {t};
    }
    assert g - {} == g;
  }

  /** The count a record holds: a missing one is zero, one that is no integer raises. */
  function CountOf(lib: Library, g: Graph, ref: Ref): IntReading {
    var os := Objects(g, Subject(ref), Counter(ref));
    if os == {} then Number(0)
    else
      var o := lib.pick(os);
      if o.Num? then Number(o.value) else Malformed
  }

  datatype Status = Ok200 | Gone404 | Refused403 | Moved412 | Required428 | Raised

  /** The stages a record went through, with so many more at the end. */
  ghost predicate Grew(before: seq<Option<Graph>>, after: seq<Option<Graph>>, more: nat) {
    before <= after && |after| == |before| + more
  }

  lemma GrewNone(a: seq<Option<Graph>>)
    ensures forall b :: Grew(a, b, 0) <==> a == b
  {
  }

  lemma GrewOn(a: seq<Option<Graph>>, b: seq<Option<Graph>>, c: seq<Option<Graph>>, m: nat, n: nat)
    requires Grew(a, b, m) && Grew(b, c, n)
    ensures Grew(a, c, m + n)
  {
  }

  /**
   One record on the server, with every stage it went through, the present one last. Others is
   what the other clients will leave it as, write by write and batch by batch: a batch is applied
   before each half of a request. Foreign counts their writes.
   */
  class Server {
    const lib: Library
    const ref: Ref
    var record: Option<Graph>
    var others: seq<seq<Option<Graph>>>
    ghost var stages: seq<Option<Graph>>
    ghost var foreign: nat

    ghost predicate Valid()
      reads this
    {
      stages != [] && stages[|stages| - 1] == record && lib.Sound()
    }

    constructor (lib: Library, ref: Ref, record: Option<Graph>, others: seq<seq<Option<Graph>>>)
      requires lib.Sound()
      ensures Valid()
      ensures this.lib == lib && this.ref == ref && this.record == record && this.others == others
      ensures stages == [record] && foreign == 0
    {
      this.lib, this.ref, this.record, this.others := lib, ref, record, others;
      stages, foreign := [record], 0;
    }

    /** The others' next batch of writes and deletes. */
    method Interfere()
      requires Valid()
      modifies this
      ensures Valid() && foreign >= old(foreign) && Grew(old(stages), stages, foreign - old(foreign))
    {
      if |others| > 0 {
        var batch := others[0];
        others := others[1..];
        if |batch| > 0 {
          record := batch[|batch| - 1];
          stages := stages + batch;
          foreign := foreign + |batch|;
        }
      }
    }

    method Get() returns (g: Option<Graph>, tag: string)
      requires Valid()
      modifies this
      ensures Valid() && foreign >= old(foreign) && Grew(old(stages), stages, foreign - old(foreign))
      ensures g == record
      ensures g.Some? ==> tag == lib.etagOf(g.value)
    {
      Interfere();
      g := record;
      tag := if g.Some? then lib.etagOf(g.value) else "";
    }

    /**
     The first half of the PUT: existence, then preconditions, then scope. It writes nothing; a body
     it lets through is returned with the tag of the record it was compared with.
     */
    method Guard(body: Graph, ifMatch: IfMatch<string>, ifNoneMatchAny: bool) returns (status: Status, tag: string)
      requires Valid()
      modifies this
      ensures Valid() && foreign >= old(foreign) && Grew(old(stages), stages, foreign - old(foreign))
      ensures status == match record
                case None => Gone404
                case Some(current) =>
                  if ifNoneMatchAny then Moved412
                  else if ifMatch.NoIfMatch? then Status.Required428
                  else if ifMatch.Tag? && ifMatch.etag != lib.etagOf(current) then Moved412
                  else if Iso(OutOfScope(current, ref), OutOfScope(body, ref)) then Ok200
                  else Refused403
      ensures status.Ok200? ==> tag == lib.etagOf(record.value)
    {
      Interfere();
      tag := "";
      if record.None? {
        return Gone404, tag;
      }
      tag := lib.etagOf(record.value);
      var check := CheckPreconditions(ifMatch, ifNoneMatchAny, Present(tag));
      if !check.Satisfied? {
        return if check.Failed412? then Moved412 else Status.Required428, tag;
      }
      var kept := Without(record.value, Subject(ref), Fields(ref));
      var sent := Without(body, Subject(ref), Fields(ref));
      status := if lib.isomorphic(kept, sent) then Ok200 else Refused403;
    }

    /**
     The second half: the comparison and the write in one. It writes exactly when the record, after
     the others' writes, carries the expected tag; the stage before its own is that record.
     */
    method Replace(body: Graph, expected: string) returns (done: bool)
      requires Valid()
      modifies this
      ensures Valid() && foreign >= old(foreign)
      ensures Grew(old(stages), stages, foreign - old(foreign) + if done then 1 else 0)
      ensures done ==> record == Some(body)
      ensures var found := stages[|stages| - if done then 2 else 1];
              done <==> found.Some? && lib.etagOf(found.value) == expected
      ensures foreign == old(foreign) ==>
        (done <==> old(record).Some? && lib.etagOf(old(record).value) == expected)
      ensures foreign == old(foreign) && !done ==> record == old(record)
    {
      Interfere();
      done := record.Some? && lib.etagOf(record.value) == expected;
      if done {
        record := Some(body);
        stages := stages + [record];
      }
    }

    /**
     A PUT answered 200 is the one write of it, over a record of the tag it was sent with; any other
     answer leaves the record to the others.
     */
    method Put(body: Graph, ifMatch: IfMatch<string>, ifNoneMatchAny: bool) returns (status: Status)
      requires Valid()
      modifies this
      ensures Valid() && foreign >= old(foreign) && !status.Raised?
      ensures Grew(old(stages), stages, foreign - old(foreign) + if status.Ok200? then 1 else 0)
      ensures status.Ok200? ==> record == Some(body) && !ifNoneMatchAny && !ifMatch.NoIfMatch?
      ensures status.Ok200? ==>
        var replaced := stages[|stages| - 2];
        replaced.Some? && (ifMatch.Tag? ==> lib.etagOf(replaced.value) == ifMatch.etag)
      ensures status.Required428? ==> ifMatch.NoIfMatch? && !ifNoneMatchAny
      ensures
        && status.Moved412? && !ifNoneMatchAny && old(record).Some?
        && (ifMatch.Tag? ==> lib.etagOf(old(record).value) == ifMatch.etag)
        ==> foreign > old(foreign)
      ensures status.Refused403? ==> ifMatch.Tag? ==>
        exists g :: lib.etagOf(g) == ifMatch.etag && !Iso(OutOfScope(g, ref), OutOfScope(body, ref))
      ensures foreign == old(foreign) && old(record).None? ==> status.Gone404?
      ensures
        && foreign == old(foreign) && old(record).Some?
        && ifMatch == Tag(lib.etagOf(old(record).value)) && !ifNoneMatchAny
        && Iso(OutOfScope(old(record).value, ref), OutOfScope(body, ref))
        ==> status.Ok200?
    {
      hide Iso, OutOfScope, Grew;
      ghost var before, wrote := stages, foreign;
      var tag;
      status, tag := Guard(body, ifMatch, ifNoneMatchAny);
      if status.Ok200? {
        ghost var between, n := stages, foreign - wrote;
        var done := Replace(body, tag);
        GrewOn(before, between, stages, n, foreign - wrote - n + if done then 1 else 0);
        status := if done then Ok200 else Moved412;
      }
    }
  }

  /** The edit of the graph read: the old fields removed, the new ones added. */
  method Edited(g: Graph, ref: Ref, count: int, now: int) returns (out: Graph)
    ensures out == Bumped(g, ref, count, now)
  {
    out := Without(g, Subject(ref), {Counter(ref)});
    if ref.TokenRef? {
      out := Without(out, Subject(ref), {LAST_USED_AT});
    }
    assert out == OutOfScope(g, ref);
    out := out + {Triple(Subject(ref), Counter(ref), Num(count + 1))};
    if ref.TokenRef? {
      out := out + {Triple(Subject(ref), LAST_USED_AT, Instant(P.ToWholeSecond(now)))};
    }
  }

  /** A record that carries the tag of the one read differs from the edit of that one in its scope alone. */
  lemma InScope(lib: Library, read: Graph, ref: Ref, c: int, now: int)
    requires lib.Sound()
    ensures forall g :: lib.etagOf(g) == lib.etagOf(read) ==>
              Iso(OutOfScope(g, ref), OutOfScope(Bumped(read, ref, c, now), ref))
  {
    hide OutOfScope, Bumped;
    Scope.BumpedOutOfScope(read, ref, c, now);
    forall g | lib.etagOf(g) == lib.etagOf(read)
      ensures Iso(OutOfScope(g, ref), OutOfScope(Bumped(read, ref, c, now), ref))
    {
      Scope.ScopeIso(g, read, ref);
    }
  }

  /**
   Delivered: the bump wrote once, over a record the server held, which it left with its count one
   higher, its timestamp set, and nothing else changed. Not delivered: it wrote nothing. Contended
   out: the others wrote at least once in each of ten attempts. It is never refused for its scope,
   and undisturbed it is delivered, unless the record is gone or its count is no number.
   */
  method Bump(server: Server, now: int) returns (status: Status, ghost read: Graph)
    requires server.Valid()
    modifies server
    ensures server.Valid() && server.foreign >= old(server.foreign)
    ensures Grew(old(server.stages), server.stages,
                 server.foreign - old(server.foreign) + if status.Ok200? then 1 else 0)
    ensures status.Ok200? ==>
      var count, replaced := CountOf(server.lib, read, server.ref), server.stages[|server.stages| - 2];
      && replaced.Some? && Iso(read, replaced.value) && count.Number?
      && server.record == Some(Bumped(read, server.ref, count.n, now))
    ensures status.Moved412? ==> server.foreign >= old(server.foreign) + 10
    ensures !status.Required428? && !status.Refused403?
    ensures server.foreign == old(server.foreign) ==>
      status == match old(server.record)
        case None => Gone404
        case Some(g) => if CountOf(server.lib, g, server.ref).Number? then Ok200 else Raised
  {
    hide Iso, OutOfScope, Bumped, CountOf, Grew;
    read := {};
    var attempt := 0;
    ghost var before := server.stages;
    GrewNone(before);
    while attempt < MAX_RETRIES
      invariant attempt <= MAX_RETRIES && server.Valid()
      invariant server.foreign >= old(server.foreign) + attempt
      invariant Grew(old(server.stages), server.stages, server.foreign - old(server.foreign))
    {
      ghost var started, n := server.stages, server.foreign - old(server.foreign);
      var g, tag := server.Get();
      ghost var got, m := server.stages, server.foreign - old(server.foreign) - n;
      GrewOn(before, started, got, n, m);
      if g.None? {
        return Gone404, read;
      }
      read := g.value;
      var count := CountOf(server.lib, g.value, server.ref);
      if !count.Number? {
        return Raised, read;
      }
      var edited := Edited(g.value, server.ref, count.n, now);
      InScope(server.lib, g.value, server.ref, count.n, now);
      status := server.Put(edited, Tag(tag), false);
      GrewOn(before, got, server.stages, n + m,
             server.foreign - old(server.foreign) - n - m + if status.Ok200? then 1 else 0);
      if !status.Moved412? {
        return;
      }
      attempt := attempt + 1;
    }
    status := Moved412;
  }

  // ------------------------------------------------------------------ what a bump amounts to

  /** The count read from a record that holds exactly one is that one. */
  lemma CountOfIs(lib: Library, g: Graph, ref: Ref, c: int)
    requires lib.Sound() && CountIs(g, ref, c)
    ensures CountOf(lib, g, ref) == Number(c)
  {
    assert Num(c) in Objects(g, Subject(ref), Counter(ref));
  }

  /** The client's count of what it read is that of the record it replaces. */
  lemma CountReadIsCurrent(lib: Library, replaced: Graph, read: Graph, ref: Ref, c: int)
    requires lib.Sound() && Iso(read, replaced) && CountIs(replaced, ref, c)
    ensures CountOf(lib, read, ref) == Number(c)
  {
    IsoSymmetric(read, replaced);
    Counts.CountIso(replaced, read, ref, c);
    CountOfIs(lib, read, ref, c);
  }

  /**
   A bump answered 200 raises the replaced record's count by one, dates a grant's last use, and keeps
   all out of its scope.
   */
  lemma BumpRaisesByOne(lib: Library, replaced: Graph, read: Graph, ref: Ref, c: int, now: int)
    requires lib.Sound() && Iso(read, replaced) && CountIs(replaced, ref, c)
    ensures CountOf(lib, read, ref) == Number(c)
    ensures CountIs(Bumped(read, ref, c, now), ref, c + 1)
    ensures Iso(OutOfScope(replaced, ref), OutOfScope(Bumped(read, ref, c, now), ref))
    ensures ref.TokenRef? ==>
      Objects(Bumped(read, ref, c, now), Subject(ref), LAST_USED_AT) == {Instant(P.ToWholeSecond(now))}
  {
    CountReadIsCurrent(lib, replaced, read, ref, c);
    Counts.BumpedCounts(read, ref, c, now);
    Scope.BumpedOutOfScope(read, ref, c, now);
    if ref.TokenRef? {
      Counts.BumpedDate(read, ref, c, now);
    }
    IsoSymmetric(read, replaced);
    Scope.ScopeIso(replaced, read, ref);
  }
}

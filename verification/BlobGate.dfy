/**
 The engine's two endpoints for consumers: what a view's result is delivered as, and exactly when a
 resource is streamed through it.  Nothing is ever streamed that the view's result does not mention.
 */
module BlobGate {
  import opened Options
  import opened Rdf
  import opened Scanner
  import opened Bindings
  import opened Params
  import opened UrlQuery
  import opened Proxy

  /** Every declared parameter that is supplied has a valid value, and those are what is bound. */
  ghost predicate Binds(v: View, raw: map<string, string>, bound: map<string, string>) {
    && (forall d :: d in v.decls && d.name in raw ==> v.valid(d.kind, raw[d.name]))
    && (forall n :: n in bound <==> n in raw && exists d :: d in v.decls && d.name == n)
    && (forall n :: n in bound ==> bound[n] == raw[n])
  }

  lemma BindsIff(v: View, raw: map<string, string>, bound: map<string, string>)
    ensures Bound(v.valid, v.decls, raw) == Some(bound) <==> Binds(v, raw, bound)
  {
    var names := Names(v.decls);
    assert forall n :: n in names <==> exists d :: d in v.decls && d.name == n;
    if Binds(v, raw, bound) {
      assert bound == map n | n in names && n in raw :: raw[n];
    }
  }

  /** The request is one the view may be evaluated for, and this is its query. */
  ghost predicate Asks(v: View, raw: map<string, string>, query: string) {
    && v.linked && v.stored && v.allowed
    && exists bound :: Binds(v, raw, bound)
                       && InjectValues(v.letters, v.n3, v.parses, v.template, bound, v.decls) == Ok(query)
  }

  /** Some triple has the resource as its subject or as its object. */
  ghost predicate Mentions(g: Graph, uri: string) {
    exists t :: t in g && (t.s == Iri(uri) || t.o == Iri(uri))
  }

  lemma MentionsIff(g: Graph, uri: string)
    ensures uri in Mentioned(g) <==> Mentions(g, uri)
  {
    if t :| t in g && (t.s == Iri(uri) || t.o == Iri(uri)) {
      assert t.s == Iri(uri) ==> t.s.iri in set u | u in g && u.s.Iri? :: u.s.iri;
      assert t.o == Iri(uri) ==> t.o.iri in set u | u in g && u.o.Iri? :: u.o.iri;
    }
  }

  lemma EvaluateIff(v: View, raw: map<string, string>, query: string, result: Graph)
    requires v.linked
    ensures Evaluate(v, raw) == Delivered((query, result)) <==> Asks(v, raw, query) && result == v.construct(query)
  {
    hide InjectValues, Bound, Binds;
    if Bound(v.valid, v.decls, raw).Some? {
      BindsIff(v, raw, Bound(v.valid, v.decls, raw).value);
    }
    forall bound | Binds(v, raw, bound) ensures Bound(v.valid, v.decls, raw) == Some(bound) {
      BindsIff(v, raw, bound);
    }
  }

  /**
   The gate.  A resource is streamed exactly when the token's grant links and allows the view, the
   request names the resource, it is one of the data source and none of its own records, the parameters
   bind and the query builds, the result mentions the resource, and there is something to stream.
   */
  lemma GetBlobIff(v: View, raw: map<string, string>, target: string, query: string)
    ensures GetBlob(v, raw) == Delivered((target, query)) <==>
            && Asks(v, raw, query)
            && "uri" in raw && raw["uri"] == target
            && v.base <= target && !(v.base + ".system/" <= target)
            && Mentions(v.construct(query), target)
            && target in v.streams
  {
    hide Asks, Evaluate;
    Evaluated(v, raw, query);
    MentionsIff(v.construct(query), target);
  }

  lemma Evaluated(v: View, raw: map<string, string>, query: string)
    ensures !v.linked ==> !Asks(v, raw, query)
    ensures v.linked && Evaluate(v, raw).Delivered? && Evaluate(v, raw).value.0 == query ==>
              Asks(v, raw, query) && Evaluate(v, raw).value.1 == v.construct(query)
    ensures v.linked && Asks(v, raw, query) ==> Evaluate(v, raw) == Delivered((query, v.construct(query)))
  {
    if v.linked {
      EvaluateIff(v, raw, query, v.construct(query));
    }
    if v.linked && Evaluate(v, raw).Delivered? {
      EvaluateIff(v, raw, Evaluate(v, raw).value.0, Evaluate(v, raw).value.1);
    }
  }

  /** The request names a resource of the data source and none of its own records. */
  predicate NamesResource(v: View, raw: map<string, string>) {
    "uri" in raw && v.base <= raw["uri"] && !(v.base + ".system/" <= raw["uri"])
  }

  /** Why a resource is not streamed; what comes first decides. */
  lemma BlobRefusals(v: View, raw: map<string, string>)
    requires GetBlob(v, raw).Refused?
    ensures var bound := Bound(v.valid, v.decls, raw);
            GetBlob(v, raw).status ==
              if !v.linked then 403
              else if !NamesResource(v, raw) then 400
              else if !v.stored then 404
              else if exists d :: d in v.decls && d.name in raw && !v.valid(d.kind, raw[d.name]) then 422
              else if !v.allowed then 403
              else if bound.Some? && InjectValues(v.letters, v.n3, v.parses, v.template, bound.value, v.decls).Err? then 422
              else 404
  {
    hide InjectValues;
  }

  /** A URL is dereferenced to a resource exactly when it leads to a view of the token through whose gate it passes. */
  lemma DereferenceIff(k: Codec, engineBase: string, views: map<string, View>, url: string, target: string, query: string)
    ensures Dereference(k, engineBase, views, url) == Delivered((target, query)) <==>
            exists id :: && id in views && Route(k, engineBase, url) == Some(id)
                         && GetBlob(views[id], Supplied(k, url)) == Delivered((target, query))
  {
    hide Route, GetBlob, Supplied;
  }

  /** Whatever URL is requested, nothing is streamed but what the view's own result mentions. */
  lemma NothingBeyondTheResult(k: Codec, engineBase: string, views: map<string, View>, url: string)
    requires Dereference(k, engineBase, views, url).Delivered?
    ensures var (target, query) := Dereference(k, engineBase, views, url).value;
            exists id :: && id in views && views[id].linked && views[id].allowed
                         && views[id].base <= target && !(views[id].base + ".system/" <= target)
                         && Mentions(views[id].construct(query), target)
  {
    var (target, query) := Dereference(k, engineBase, views, url).value;
    DereferenceIff(k, engineBase, views, url, target, query);
    hide Dereference, Route, Supplied, Mentions;
    var id :| id in views && GetBlob(views[id], Supplied(k, url)) == Delivered((target, query));
    GetBlobIff(views[id], Supplied(k, url), target, query);
  }

  // ------------------------------------------------------------------------- the result

  /** A stored resource of the data source stands in the delivery as its proxy URL, any other term as itself. */
  ghost predicate StandsFor(l: Link, base: string, existing: set<string>, term: Term, out: Term) {
    if term.Iri? && base <= term.iri && term.iri in existing then out == Iri(ProxyUrl(l, term.iri)) else out == term
  }

  lemma RemapIff(l: Link, base: string, existing: set<string>, g: Graph, t: Triple, out: Triple)
    requires t in g
    ensures RemapTriple(l, Targets(base, existing, g), t) == out <==>
            StandsFor(l, base, existing, t.s, out.s) && out.p == t.p && StandsFor(l, base, existing, t.o, out.o)
  {
    assert t.s.Iri? ==> t.s.iri in Mentioned(g);
    assert t.o.Iri? ==> t.o.iri in Mentioned(g);
  }

  /** The delivery has the result's triples, each with its subject and its object so replaced. */
  lemma GetViewIff(
      v: View, raw: map<string, string>, k: Codec, engineBase: string, viewId: string, order: seq<string>, out: Graph)
    ensures GetView(v, raw, k, engineBase, viewId, order) == Delivered(out) <==>
            exists bound, query ::
              && v.linked && v.stored && v.allowed && Binds(v, raw, bound)
              && InjectValues(v.letters, v.n3, v.parses, v.template, bound, v.decls) == Ok(query)
              && IsRewritten(Link(k, engineBase, viewId, bound, order), v.base, v.existing, v.construct(query), out)
  {
    hide InjectValues, Bound, Binds, Rewritten, IsRewritten;
    if Bound(v.valid, v.decls, raw).Some? {
      BindsIff(v, raw, Bound(v.valid, v.decls, raw).value);
    }
    forall bound | Binds(v, raw, bound) ensures Bound(v.valid, v.decls, raw) == Some(bound) {
      BindsIff(v, raw, bound);
    }
    forall bound, query ensures var l := Link(k, engineBase, viewId, bound, order);
      out == Rewritten(l, v.base, v.existing, v.construct(query)) <==>
      IsRewritten(l, v.base, v.existing, v.construct(query), out)
    {
      RewrittenIff(Link(k, engineBase, viewId, bound, order), v.base, v.existing, v.construct(query), out);
    }
  }

  ghost predicate IsRewritten(l: Link, base: string, existing: set<string>, g: Graph, out: Graph) {
    forall o :: o in out <==>
      exists t :: && t in g && StandsFor(l, base, existing, t.s, o.s) && o.p == t.p
                  && StandsFor(l, base, existing, t.o, o.o)
  }

  lemma RewrittenIff(l: Link, base: string, existing: set<string>, g: Graph, out: Graph)
    ensures out == Rewritten(l, base, existing, g) <==> IsRewritten(l, base, existing, g, out)
  {
    var targets := Targets(base, existing, g);
    var rewritten := Rewritten(l, base, existing, g);
    forall o ensures o in rewritten <==>
      exists t :: && t in g && StandsFor(l, base, existing, t.s, o.s) && o.p == t.p
                  && StandsFor(l, base, existing, t.o, o.o)
    {
      forall t | t in g
        ensures RemapTriple(l, targets, t) == o <==>
                StandsFor(l, base, existing, t.s, o.s) && o.p == t.p && StandsFor(l, base, existing, t.o, o.o)
      {
        RemapIff(l, base, existing, g, t, o);
      }
    }
    if IsRewritten(l, base, existing, g, out) {
      assert forall o :: o in out <==> o in rewritten;
    }
  }
}

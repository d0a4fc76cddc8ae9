/**
 Proxy URLs: a delivered result names stored resources by URLs of the engine, and dereferencing one
 re-runs the view with the parameters the URL carries and checks the target is still in its result.
 */
module Proxy {
  import opened Options
  import opened Rdf
  import opened Scanner
  import opened Bindings
  import opened Params
  import opened UrlQuery

  // --------------------------------------------------------------------------- rewriting

  /** The IRIs a graph has as subject or object. */
  function Mentioned(g: Graph): set<string> {
    (set t | t in g && t.s.Iri? :: t.s.iri) + (set t | t in g && t.o.Iri? :: t.o.iri)
  }

  /** The stored resources of the data source that a result mentions. */
  function Targets(base: string, existing: set<string>, g: Graph): set<string> {
    set u | u in Under(base, g) && u in existing
  }

  const BLOB := "blob/"

  /** The parameters in order after the target; a parameter named "uri" takes the target's place. */
  function Pairs(target: string, bound: map<string, string>, order: seq<string>): seq<Pair> {
    [("uri", if "uri" in bound then bound["uri"] else target)] + Others(bound, order)
  }

  function Others(bound: map<string, string>, order: seq<string>): seq<Pair> {
    if order == [] then []
    else if order[0] == "uri" || order[0] !in bound then Others(bound, order[1..])
    else [(order[0], bound[order[0]])] + Others(bound, order[1..])
  }

  /** Whose proxy URLs a delivery mints, and what they carry. */
  datatype Link = Link(codec: Codec, base: string, viewId: string, bound: map<string, string>, order: seq<string>) {
    /**
     The order lists the bound names; the engine's base has neither query nor fragment; a view id
     is a segment of a path, in which any other character may stand.
     */
    ghost predicate Valid() {
      && Faithful(codec) && (forall n :: n in order <==> n in bound)
      && '?' !in base && '#' !in base && viewId != "" && '/' !in viewId
    }
  }

  /** The view id goes into the path as it is. */
  function ProxyUrl(l: Link, target: string): string {
    (l.base + BLOB + l.viewId) + "?" + QueryString(l.codec, Pairs(target, l.bound, l.order))
  }

  function Remap(l: Link, targets: set<string>, t: Term): Term {
    if t.Iri? && t.iri in targets then Iri(ProxyUrl(l, t.iri)) else t
  }

  function RemapTriple(l: Link, targets: set<string>, t: Triple): Triple {
    Triple(Remap(l, targets, t.s), t.p, Remap(l, targets, t.o))
  }

  function Rewritten(l: Link, base: string, existing: set<string>, g: Graph): Graph {
    var targets := Targets(base, existing, g);
    set t | t in g :: RemapTriple(l, targets, t)
  }

  method RewriteUpstreamUris(l: Link, base: string, existing: set<string>, g: Graph) returns (out: Graph)
    ensures out == Rewritten(l, base, existing, g)
  {
    var candidates := Candidates(base, g);
    ghost var targets := Targets(base, existing, g);
    if candidates == {} {
      assert targets == {};
      assert forall t :: t in g ==> RemapTriple(l, targets, t) == t;
      return g;
    }
    var mapping := Mapping(l, existing, candidates);
    assert mapping.Keys == targets;
    out := {};
    var todo := g;
    while todo != {}
      invariant todo <= g
      invariant out == set t | t in g - todo :: RemapTriple(l, targets, t)
      decreases |todo|
    {
      var t :| t in todo;
      var s := if t.s.Iri? && t.s.iri in mapping then Iri(mapping[t.s.iri]) else t.s;
      var o := if t.o.Iri? && t.o.iri in mapping then Iri(mapping[t.o.iri]) else t.o;
      assert Triple(s, t.p, o) == RemapTriple(l, targets, t);
      assert g - (todo - {t}) == (g - todo) + {t};
      out := out + {Triple(s, t.p, o)};
      todo := todo - {t};
    }
    assert g - {} == g;
  }

  /** The IRIs under the data source's base. */
  method Candidates(base: string, g: Graph) returns (candidates: set<string>)
    ensures candidates == Under(base, g)
  {
    candidates := {};
    var todo := g;
    while todo != {}
      invariant todo <= g
      invariant candidates == Under(base, g - todo)
      decreases |todo|
    {
      var t :| t in todo;
      UnderStep(base, g - todo, t);
      assert g - (todo - {t}) == (g - todo) + {t};
      candidates := candidates + Added(base, t.s) + Added(base, t.o);
      todo := todo - {t};
    }
    assert g - {} == g;
  }

  function Under(base: string, g: Graph): set<string> {
    set u | u in Mentioned(g) && base <= u
  }

  function Added(base: string, term: Term): set<string> {
    if term.Iri? && base <= term.iri then {term.iri} else {}
  }

  lemma UnderStep(base: string, g: Graph, t: Triple)
    ensures Under(base, g + {t}) == Under(base, g) + Added(base, t.s) + Added(base, t.o)
  {
    assert Mentioned(g + {t}) ==
           Mentioned(g) + (if t.s.Iri? then {t.s.iri} else {}) + (if t.o.Iri? then {t.o.iri} else {});
  }

  /** The proxy URL of each candidate that is a stored resource. */
  method Mapping(l: Link, existing: set<string>, candidates: set<string>) returns (mapping: map<string, string>)
    ensures mapping == map u | u in candidates && u in existing :: ProxyUrl(l, u)
  {
    mapping := map[];
    var left := candidates;
    while left != {}
      invariant left <= candidates
      invariant mapping == map u | u in candidates - left && u in existing :: ProxyUrl(l, u)
      decreases |left|
    {
      var u :| u in left;
      if u in existing { mapping := mapping[u := ProxyUrl(l, u)]; }
      left := left - {u};
    }
    assert candidates - {} == candidates;
  }

  // ------------------------------------------------------------------ what a proxy URL carries

  /** What a client sends of a URL: all but its fragment. */
  function Sent(url: string): string {
    url[..FindChar(url, '#', 0)]
  }

  function PathOf(url: string): string {
    Sent(url)[..FindChar(Sent(url), '?', 0)]
  }

  function QueryOf(url: string): string {
    var q := FindChar(Sent(url), '?', 0);
    if q == |Sent(url)| then "" else Sent(url)[q + 1..]
  }

  function Supplied(k: Codec, url: string): map<string, string> {
    ToMap(ParseQuery(k, QueryOf(url)))
  }

  /** The view id the server finds in the path: one segment after the endpoint's, percent-decoded. */
  function Route(k: Codec, base: string, url: string): Option<string> {
    if base + BLOB <= PathOf(url) then
      var id := k.decode(UnquoteBytes(k, PathOf(url)[|base + BLOB|..]));
      if id == "" || '/' in id then None else Some(id)
    else None
  }

  /** The id stands in a path for itself. */
  predicate PlainId(id: string) {
    '?' !in id && '#' !in id && !HasEscape(id)
  }

  /** The bound parameters named in order, without one named "uri". */
  function Carried(bound: map<string, string>, order: seq<string>): map<string, string> {
    map n | n in order && n in bound && n != "uri" :: bound[n]
  }

  lemma CarriedLast(bound: map<string, string>, init: seq<string>, last: string)
    ensures Carried(bound, init + [last]) ==
            if last == "uri" || last !in bound then Carried(bound, init) else Carried(bound, init)[last := bound[last]]
  {
  }

  lemma {:induction false} OthersMap(bound: map<string, string>, order: seq<string>, first: Pair)
    requires first.0 == "uri"
    ensures ToMap([first] + Others(bound, order)) == Carried(bound, order)["uri" := first.1]
    decreases |order|
  {
    var pairs := [first] + Others(bound, order);
    if order == [] {
      assert pairs == [first] && pairs[..0] == [];
    } else {
      var last, init := order[|order| - 1], order[..|order| - 1];
      assert order == init + [last];
      OthersLast(bound, order);
      OthersMap(bound, init, first);
      CarriedLast(bound, init, last);
      if last == "uri" || last !in bound {
        assert pairs == [first] + Others(bound, init);
      } else {
        assert pairs[..|pairs| - 1] == [first] + Others(bound, init);
        assert ToMap(pairs) == Carried(bound, init)["uri" := first.1][last := bound[last]];
      }
    }
  }

  lemma {:induction false} OthersLast(bound: map<string, string>, order: seq<string>)
    requires order != []
    ensures var last, init := order[|order| - 1], order[..|order| - 1];
            Others(bound, order) ==
            Others(bound, init) + (if last == "uri" || last !in bound then [] else [(last, bound[last])])
  {
    if |order| > 1 {
      OthersLast(bound, order[1..]);
      assert order[1..][..|order| - 2] == order[..|order| - 1][1..];
    }
  }

  /** Unquoting yields no more characters than it reads, and fewer where it meets an escape. */
  lemma {:induction false} UnquotedLength(k: Codec, s: string)
    requires Faithful(k)
    ensures |k.decode(UnquoteBytes(k, s))| <= |s|
    ensures HasEscape(s) ==> |k.decode(UnquoteBytes(k, s))| < |s|
    decreases |s|
  {
    EmptyEncodes(k);
    if s == "" {
    } else if |s| >= 3 && EscapeAt(s, 0) {
      var byte := 16 * HexValue(s[1]).value + HexValue(s[2]).value;
      UnquotedLength(k, s[3..]);
      assert |k.decode([byte] + UnquoteBytes(k, s[3..]))| <= |k.decode([byte])| + |k.decode(UnquoteBytes(k, s[3..]))|;
    } else {
      var rest := s[1..];
      UnquotedLength(k, rest);
      assert |k.decode(k.encode([s[0]]) + UnquoteBytes(k, rest))| <= |k.decode(k.encode([s[0]]))| + |k.decode(UnquoteBytes(k, rest))|;
      assert k.decode(k.encode([s[0]])) == [s[0]];
      if HasEscape(s) {
        var i :| 0 <= i < |s| - 2 && EscapeAt(s, i);
        assert EscapeAt(rest, i - 1);
      }
    }
  }

  // ---------------------------------------------------------------------- cutting a URL

  lemma CutUrl(endpoint: string, query: string)
    requires '?' !in endpoint && '#' !in endpoint && '#' !in query
    ensures PathOf(endpoint + "?" + query) == endpoint && QueryOf(endpoint + "?" + query) == query
  {
    var url := endpoint + "?" + query;
    FindsNone(url, '#', 0);
    assert Sent(url) == url;
    assert url == endpoint + ['?'] + query;
    FindsAfter(endpoint, '?', query, 0);
    assert url[|endpoint| + 1..] == query;
  }

  function FirstMark(s: string): (i: nat)
    ensures i <= |s|
    ensures forall k :: 0 <= k < i ==> s[k] != '?' && s[k] != '#'
    ensures i < |s| ==> s[i] == '?' || s[i] == '#'
  {
    if s == "" || s[0] == '?' || s[0] == '#' then 0 else FirstMark(s[1..]) + 1
  }

  lemma FindCharAt(s: string, c: char, from: nat)
    requires from <= |s|
    ensures from <= FindChar(s, c, from) <= |s|
    ensures forall i :: from <= i < FindChar(s, c, from) ==> s[i] != c
    ensures FindChar(s, c, from) < |s| ==> s[FindChar(s, c, from)] == c
    decreases |s| - from
  {
    if from < |s| && s[from] != c {
      FindCharAt(s, c, from + 1);
    }
  }

  /** The path ends at the first mark, of either kind. */
  lemma PathEndsAtMark(url: string)
    ensures PathOf(url) == url[..FirstMark(url)]
  {
    var m := FirstMark(url);
    FindCharAt(url, '#', 0);
    var h := FindChar(url, '#', 0);
    assert m <= h;
    FindCharAt(url[..h], '?', 0);
    var q := FindChar(url[..h], '?', 0);
    assert q <= m by {
      if m < h {
        assert url[..h][m] == '?';
      }
    }
    assert m <= q by {
      if q < h {
        assert url[q] == '?';
      }
    }
  }

  lemma FirstMarkAfter(a: string, b: string)
    requires '?' !in a && '#' !in a
    ensures FirstMark(a + b) == |a| + FirstMark(b)
  {
    var s, t := a + b, |a| + FirstMark(b);
    forall k | 0 <= k < t ensures s[k] != '?' && s[k] != '#' {
      if k < |a| {
        assert s[k] == a[k] && a[k] in a;
      } else {
        assert s[k] == b[k - |a|];
      }
    }
    assert t < |s| ==> s[t] == b[FirstMark(b)];
  }

  /** The path of a proxy URL holds the view's id up to its first mark. */
  lemma PathOfProxyUrl(l: Link, target: string)
    requires l.Valid()
    ensures var front, m := l.base + BLOB, FirstMark(l.viewId);
            front <= PathOf(ProxyUrl(l, target)) && PathOf(ProxyUrl(l, target))[|front|..] == l.viewId[..m]
  {
    hide QueryString, Faithful;
    var front, rest := l.base + BLOB, "?" + QueryString(l.codec, Pairs(target, l.bound, l.order));
    var url := ProxyUrl(l, target);
    assert url == front + (l.viewId + rest);
    assert '?' !in front && '#' !in front;
    FirstMarkAfter(front, l.viewId + rest);
    PathEndsAtMark(url);
    MarkBefore(l.viewId, rest);
  }

  lemma MarkBefore(id: string, rest: string)
    requires rest != "" && rest[0] == '?'
    ensures FirstMark(id + rest) == FirstMark(id)
  {
    var s, m := id + rest, FirstMark(id);
    assert forall k :: 0 <= k < |id| ==> s[k] == id[k];
    assert s[|id|] == '?';
  }

  lemma MarkFree(id: string)
    ensures FirstMark(id) < |id| <==> '?' in id || '#' in id
  {
    var m := FirstMark(id);
    if m < |id| {
      assert id[m] in id;
    }
  }

  /** The server finds the id in the path exactly when the id stands there for itself. */
  lemma RouteIff(l: Link, target: string)
    requires l.Valid()
    ensures Route(l.codec, l.base, ProxyUrl(l, target)) == Some(l.viewId) <==> PlainId(l.viewId)
  {
    var id, m := l.viewId, FirstMark(l.viewId);
    PathOfProxyUrl(l, target);
    MarkFree(id);
    UnquotedLength(l.codec, id[..m]);
    if m == |id| {
      assert id[..m] == id;
      if !HasEscape(id) {
        UnquotesPlain(l.codec, id);
      }
    }
    hide ProxyUrl, PathOf, UnquoteBytes, Faithful, HasEscape;
  }

  /** The query of a proxy URL decodes to the bound parameters and, under "uri", what stands there. */
  lemma SuppliedByProxyUrl(l: Link, target: string)
    requires l.Valid() && PlainId(l.viewId)
    ensures Supplied(l.codec, ProxyUrl(l, target)) == l.bound["uri" := if "uri" in l.bound then l.bound["uri"] else target]
  {
    var first := ("uri", if "uri" in l.bound then l.bound["uri"] else target);
    var pairs := Pairs(target, l.bound, l.order);
    assert '#' !in QueryString(l.codec, pairs) by { QueryStringChars(l.codec, pairs); }
    CutUrl(l.base + BLOB + l.viewId, QueryString(l.codec, pairs));
    QueryRoundTrip(l.codec, pairs);
    OthersMap(l.bound, l.order, first);
    AllCarried(l.bound, l.order, first.1);
  }

  lemma AllCarried(bound: map<string, string>, order: seq<string>, value: string)
    requires forall n :: n in order <==> n in bound
    ensures Carried(bound, order)["uri" := value] == bound["uri" := value]
  {
  }

  /**
   The URL carries enough to repeat the request, view, target and bound parameters, if and only if
   the view's id stands in a path for itself, and no declared parameter is named "uri" or one is
   and was supplied with the target itself.
   */
  lemma CarriesRequestIff(l: Link, valid: Validity, decls: seq<ParamDecl>, raw: map<string, string>, target: string)
    requires l.Valid() && Bound(valid, decls, raw) == Some(l.bound)
    ensures var url := ProxyUrl(l, target);
            var supplied := Supplied(l.codec, url);
            (&& Route(l.codec, l.base, url) == Some(l.viewId)
             && "uri" in supplied && supplied["uri"] == target && Bound(valid, decls, supplied) == Some(l.bound)
             <==>
             && PlainId(l.viewId)
             && ("uri" !in Names(decls) || ("uri" in l.bound && l.bound["uri"] == target)))
  {
    RouteIff(l, target);
    if PlainId(l.viewId) {
      SuppliedByProxyUrl(l, target);
      var value := if "uri" in l.bound then l.bound["uri"] else target;
      RebindsIff(valid, decls, raw, "uri", value);
    }
  }

  /** A view stored as "a?b": its proxy URLs lead to the view "a". */
  lemma MarkInId(l: Link, target: string)
    requires l.Valid() && l.viewId == "a?b"
    ensures Route(l.codec, l.base, ProxyUrl(l, target)) == Some("a")
  {
    var front := l.base + BLOB;
    var rest := "b" + ("?" + QueryString(l.codec, Pairs(target, l.bound, l.order)));
    var url, tail := ProxyUrl(l, target), "a?" + rest;
    hide QueryString, Pairs;
    assert url == front + tail;
    hide ProxyUrl;
    assert '?' !in front && '#' !in front;
    FirstMarkAfter(front, tail);
    assert tail[0] == 'a' && tail[1] == '?';
    assert FirstMark(tail) == 1;
    PathEndsAtMark(url);
    assert PathOf(url)[|front|..] == "a";
    UnquotesPlain(l.codec, "a");
  }

  // --------------------------------------------------------------------------- no merging

  lemma ProxyUrlInjective(l: Link, a: string, b: string)
    requires l.Valid() && "uri" !in l.bound && ProxyUrl(l, a) == ProxyUrl(l, b)
    ensures a == b
  {
    var front := l.base + BLOB + l.viewId + "?";
    var p, q := Pairs(a, l.bound, l.order), Pairs(b, l.bound, l.order);
    assert ProxyUrl(l, a)[|front|..] == QueryString(l.codec, p);
    assert ProxyUrl(l, b)[|front|..] == QueryString(l.codec, q);
    QueryRoundTrip(l.codec, p);
    QueryRoundTrip(l.codec, q);
    assert p[0] == q[0];
  }

  /** No URL this delivery would mint for a target stands in the result already. */
  ghost predicate NoPriorUrls(l: Link, targets: set<string>, g: Graph) {
    forall u :: u in targets ==> ProxyUrl(l, u) !in Mentioned(g)
  }

  lemma RemapInjective(l: Link, targets: set<string>, g: Graph, a: Term, b: Term)
    requires l.Valid() && "uri" !in l.bound && NoPriorUrls(l, targets, g)
    requires (a.Iri? ==> a.iri in Mentioned(g)) && (b.Iri? ==> b.iri in Mentioned(g))
    requires Remap(l, targets, a) == Remap(l, targets, b)
    ensures a == b
  {
    if a.Iri? && a.iri in targets && b.Iri? && b.iri in targets {
      ProxyUrlInjective(l, a.iri, b.iri);
    }
  }

  lemma RemapTripleInjective(l: Link, targets: set<string>, g: Graph, a: Triple, b: Triple)
    requires l.Valid() && "uri" !in l.bound && NoPriorUrls(l, targets, g)
    requires a in g && b in g && RemapTriple(l, targets, a) == RemapTriple(l, targets, b)
    ensures a == b
  {
    RemapInjective(l, targets, g, a.s, b.s);
    RemapInjective(l, targets, g, a.o, b.o);
  }

  lemma {:induction false} ImageSize(l: Link, targets: set<string>, g: Graph, part: Graph)
    requires l.Valid() && "uri" !in l.bound && NoPriorUrls(l, targets, g) && part <= g
    ensures |set t | t in part :: RemapTriple(l, targets, t)| == |part|
    decreases |part|
  {
    if part != {} {
      var a :| a in part;
      var rest := part - {a};
      ImageSize(l, targets, g, rest);
      var image := set t | t in rest :: RemapTriple(l, targets, t);
      forall t | t in rest ensures RemapTriple(l, targets, t) != RemapTriple(l, targets, a) {
        if RemapTriple(l, targets, t) == RemapTriple(l, targets, a) {
          RemapTripleInjective(l, targets, g, t, a);
        }
      }
      assert (set t | t in part :: RemapTriple(l, targets, t)) == image + {RemapTriple(l, targets, a)};
    }
  }

  /** Rewriting merges no two triples of a result without prior proxy URLs. */
  lemma RewritingMergesNothing(l: Link, base: string, existing: set<string>, g: Graph)
    requires l.Valid() && "uri" !in l.bound && NoPriorUrls(l, Targets(base, existing, g), g)
    ensures |Rewritten(l, base, existing, g)| == |g|
  {
    ImageSize(l, Targets(base, existing, g), g, g);
  }

  // ------------------------------------------------------------------------ the two endpoints

  /** The engine as one token sees one view on an unchanging store. */
  datatype View = View(letters: Letters, n3: Serializer, parses: string -> bool, valid: Validity,
                       template: string, decls: seq<ParamDecl>, construct: string -> Graph,
                       base: string, existing: set<string>, streams: set<string>,
                       linked: bool, stored: bool, allowed: bool)

  datatype Response<+T> = Delivered(value: T) | Refused(status: nat)

  /** The query and its result, or the status of the first check that fails. */
  function Evaluate(v: View, raw: map<string, string>): Response<(string, Graph)> {
    if !v.stored then Refused(404)
    else
      match Bound(v.valid, v.decls, raw)
      case None => Refused(422)
      case Some(bound) =>
        if !v.allowed then Refused(403)
        else
          match InjectValues(v.letters, v.n3, v.parses, v.template, bound, v.decls)
          case Err(_) => Refused(422)
          case Ok(query) => Delivered((query, v.construct(query)))
  }

  function GetView(v: View, raw: map<string, string>, k: Codec, engineBase: string, viewId: string, order: seq<string>)
    : Response<Graph>
  {
    if !v.linked then Refused(403)
    else
      match Evaluate(v, raw)
      case Refused(status) => Refused(status)
      case Delivered((_, result)) =>
        var bound := Bound(v.valid, v.decls, raw).value;
        Delivered(Rewritten(Link(k, engineBase, viewId, bound, order), v.base, v.existing, result))
  }

  /** The namespace of the data source's own records. */
  function SystemSpace(base: string): string {
    base + ".system/"
  }

  /** What is streamed: the target, found in the result of the query. */
  function GetBlob(v: View, raw: map<string, string>): Response<(string, string)> {
    if !v.linked then Refused(403)
    else if "uri" !in raw then Refused(400)
    else
      var target := raw["uri"];
      if !(v.base <= target) || SystemSpace(v.base) <= target then Refused(400)
      else
        match Evaluate(v, raw)
        case Refused(status) => Refused(status)
        case Delivered((query, result)) =>
          if target !in Mentioned(result) || target !in v.streams then Refused(404)
          else Delivered((target, query))
  }

  /** A GET of a URL under the engine's base: the views a token may name, by their ids. */
  function Dereference(k: Codec, engineBase: string, views: map<string, View>, url: string): Response<(string, string)> {
    match Route(k, engineBase, url)
    case None => Refused(404)
    case Some(id) => if id !in views then Refused(403) else GetBlob(views[id], Supplied(k, url))
  }

  /** Every rewritten term of a delivery is a target's proxy URL; every other term is as it was. */
  lemma RewrittenTerms(l: Link, base: string, existing: set<string>, g: Graph, url: string)
    requires url in Mentioned(Rewritten(l, base, existing, g)) && url !in Mentioned(g)
    ensures exists target :: target in Targets(base, existing, g) && url == ProxyUrl(l, target)
  {
    var targets := Targets(base, existing, g);
    var out := Rewritten(l, base, existing, g);
    var t :| t in out && (t.s == Iri(url) || t.o == Iri(url));
    var u :| u in g && t == RemapTriple(l, targets, u);
    if t.s == Iri(url) {
      assert u.s == Iri(url) ==> url in Mentioned(g);
      assert u.s.iri in targets && url == ProxyUrl(l, u.s.iri);
    } else {
      assert u.o == Iri(url) ==> url in Mentioned(g);
      assert u.o.iri in targets && url == ProxyUrl(l, u.o.iri);
    }
  }

  /**
   Every proxy URL of a delivery, dereferenced while nothing changes, leads back to the view,
   re-binds the same parameters, runs the identical query, finds the target in its result, and
   streams it; unless the view's id does not stand for itself, and then it leads elsewhere.
   */
  lemma ProxyUrlsDereference(
      views: map<string, View>, id: string, raw: map<string, string>, k: Codec, engineBase: string, order: seq<string>,
      url: string)
    requires id in views && GetView(views[id], raw, k, engineBase, id, order).Delivered?
    requires Link(k, engineBase, id, Bound(views[id].valid, views[id].decls, raw).value, order).Valid()
    requires "uri" !in Names(views[id].decls)
    requires url in Mentioned(GetView(views[id], raw, k, engineBase, id, order).value)
    requires url !in Mentioned(Evaluate(views[id], raw).value.1)
    ensures !PlainId(id) ==> Route(k, engineBase, url) != Some(id)
    ensures var v := views[id];
            exists target ::
              && target in Mentioned(Evaluate(v, raw).value.1) && v.base <= target && target in v.existing
              && (PlainId(id) && !(SystemSpace(v.base) <= target) && target in v.streams ==>
                  Dereference(k, engineBase, views, url) == Delivered((target, Evaluate(v, raw).value.0)))
              && (PlainId(id) && SystemSpace(v.base) <= target ==> Dereference(k, engineBase, views, url) == Refused(400))
  {
    hide InjectValues, Bound, Supplied, ProxyUrl, Faithful, HasEscape;
    var v := views[id];
    var bound := Bound(v.valid, v.decls, raw).value;
    var l := Link(k, engineBase, id, bound, order);
    var result := Evaluate(v, raw).value.1;
    RewrittenTerms(l, v.base, v.existing, result, url);
    var target :| target in Targets(v.base, v.existing, result) && url == ProxyUrl(l, target);
    RouteIff(l, target);
    CarriesRequestIff(l, v.valid, v.decls, raw, target);
    if PlainId(id) {
      assert Evaluate(v, Supplied(k, url)) == Evaluate(v, raw);
    }
  }
}

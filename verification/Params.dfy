/**
 Checking supplied query-string values against a view's declared parameters. Declared parameters
 are optional, undeclared ones ignored; one supplied value of the wrong type fails the request.
 */
module Params {
  import opened Options
  import opened Scanner
  import opened Bindings

  /** Whether a value passes its declared type's check. */
  type Validity = (ParamType, string) -> bool

  function Names(decls: seq<ParamDecl>): set<string> {
    set d | d in decls :: d.name
  }

  predicate AllValid(valid: Validity, decls: seq<ParamDecl>, raw: map<string, string>) {
    forall d :: d in decls && d.name in raw ==> valid(d.kind, raw[d.name])
  }

  /** The declared part of what was supplied, if every supplied value is valid. */
  function Bound(valid: Validity, decls: seq<ParamDecl>, raw: map<string, string>): Option<map<string, string>> {
    if AllValid(valid, decls, raw) then Some(map n | n in Names(decls) && n in raw :: raw[n]) else None
  }

  method BindParams(valid: Validity, decls: seq<ParamDecl>, raw: map<string, string>)
    returns (r: Option<map<string, string>>)
    ensures r == Bound(valid, decls, raw)
  {
    var bound: map<string, string> := map[];
    for i := 0 to |decls|
      invariant AllValid(valid, decls[..i], raw)
      invariant bound == map n | n in Names(decls[..i]) && n in raw :: raw[n]
    {
      var d := decls[i];
      assert decls[..i + 1] == decls[..i] + [d];
      assert Names(decls[..i + 1]) == Names(decls[..i]) + {d.name};
      if d.name in raw {
        var value := raw[d.name];
        if !valid(d.kind, value) {
          assert d in decls;
          return None;
        }
        bound := bound[d.name := value];
      }
    }
    assert decls[..|decls|] == decls;
    r := Some(bound);
  }

  /**
   Supplying again what was bound, beside a value under one more name, binds the same exactly when
   that name is not a declared parameter left unsupplied.
   */
  lemma RebindsIff(valid: Validity, decls: seq<ParamDecl>, raw: map<string, string>, name: string, value: string)
    requires Bound(valid, decls, raw).Some?
    requires name in Bound(valid, decls, raw).value ==> Bound(valid, decls, raw).value[name] == value
    ensures var bound := Bound(valid, decls, raw).value;
            Bound(valid, decls, bound[name := value]) == Some(bound) <==> (name !in Names(decls) || name in bound)
  {
    var bound := Bound(valid, decls, raw).value;
    var again := bound[name := value];
    if name !in Names(decls) || name in bound {
      forall d | d in decls && d.name in again ensures valid(d.kind, again[d.name]) {
        assert d.name in Names(decls) && d.name in raw;
      }
      assert (map n | n in Names(decls) && n in again :: again[n]) == bound;
    } else {
      assert name in (map n | n in Names(decls) && n in again :: again[n]);
    }
  }
}

/**
 Parameter binding by an injected VALUES block: the builders, and what the injection does to the
 query's tokens and to the positions the scan reports.  BlockReads has what the block is made of.
 */
module Bindings {
  import opened Options
  import opened Scanner
  import opened Splicing

  datatype ParamType = StrParam | IntParam | IriParam | DateParam | DateTimeParam

  datatype ParamDecl = ParamDecl(name: string, kind: ParamType)

  datatype BindingError = NoWhere | NoGroup | Shorthand | NotSerializable | DoesNotParse

  datatype Result<+T> = Ok(value: T) | Err(error: BindingError)

  /** Serialization of a value as a term; None where the serializer raises. */
  type Serializer = (string, ParamType) -> Option<string>

  // -------------------------------------------------------------------- the builders

  function Join(parts: seq<string>): string {
    if parts == [] then ""
    else if |parts| == 1 then parts[0]
    else parts[0] + " " + Join(parts[1..])
  }

  /** The declared parameters that were supplied, in declaration order. */
  function Ordered(bound: map<string, string>, decls: seq<ParamDecl>): (r: seq<ParamDecl>)
    ensures forall d :: d in r <==> d in decls && d.name in bound
  {
    if decls == [] then []
    else (if decls[0].name in bound then [decls[0]] else []) + Ordered(bound, decls[1..])
  }

  function NamesOf(ordered: seq<ParamDecl>): (r: seq<string>)
    ensures |r| == |ordered| && forall i :: 0 <= i < |r| ==> r[i] == ordered[i].name
  {
    seq(|ordered|, i requires 0 <= i < |ordered| => ordered[i].name)
  }

  function Variables(names: seq<string>): (r: seq<string>)
    ensures |r| == |names| && forall i :: 0 <= i < |r| ==> r[i] == "?" + names[i]
  {
    seq(|names|, i requires 0 <= i < |names| => "?" + names[i])
  }

  function TermTexts(n3: Serializer, bound: map<string, string>, ordered: seq<ParamDecl>): (r: Result<seq<string>>)
    requires forall d :: d in ordered ==> d.name in bound
    ensures r.Ok? ==> |r.value| == |ordered|
    ensures r.Ok? ==> forall i :: 0 <= i < |ordered| ==> Some(r.value[i]) == n3(bound[ordered[i].name], ordered[i].kind)
  {
    if ordered == [] then Ok([])
    else
      match n3(bound[ordered[0].name], ordered[0].kind)
      case None => Err(NotSerializable)
      case Some(term) =>
        match TermTexts(n3, bound, ordered[1..])
        case Err(e) => Err(e)
        case Ok(rest) => Ok([term] + rest)
  }

  function BlockText(variables: seq<string>, terms: seq<string>): string {
    "VALUES (" + Join(variables) + ") { (" + Join(terms) + ") }"
  }

  function ValuesBlock(n3: Serializer, bound: map<string, string>, decls: seq<ParamDecl>): Result<string> {
    var ordered := Ordered(bound, decls);
    match TermTexts(n3, bound, ordered)
    case Err(e) => Err(e)
    case Ok(terms) => Ok(BlockText(Variables(NamesOf(ordered)), terms))
  }

  function Spliced(query: string, groupOpen: nat, block: string): string
    requires groupOpen < |query|
  {
    query[..groupOpen + 1] + " " + block + " " + query[groupOpen + 1..]
  }

  /** The three positions the scan reports. */
  datatype Positions = Positions(firstBrace: Option<nat>, whereAt: Option<nat>, group: Option<nat>)

  function Scan(l: Letters, query: string): Positions {
    var tokens := Tokens(l, query);
    Positions(FirstBrace(tokens), FirstWhere(query, tokens), BraceAfterWhere(query, tokens))
  }

  function InjectValuesBlock(l: Letters, query: string, block: string): Result<string> {
    var found := Scan(l, query);
    if found.whereAt.None? then Err(NoWhere)
    else if found.group.None? then Err(NoGroup)
    else
      GroupIsBrace(l, query);
      Ok(Spliced(query, found.group.value, block))
  }

  function InjectValues(l: Letters, n3: Serializer, parses: string -> bool,
                        template: string, bound: map<string, string>, decls: seq<ParamDecl>): Result<string> {
    if bound == map[] then Ok(template)
    else
      match ValuesBlock(n3, bound, decls)
      case Err(e) => Err(e)
      case Ok(block) =>
        var found := Scan(l, template);
        if found.whereAt.None? then Err(NoWhere)
        else if found.group.None? then Err(NoGroup)
        else if found.firstBrace.None? || found.whereAt.value < found.firstBrace.value then Err(Shorthand)
        else
          GroupIsBrace(l, template);
          var rewritten := Spliced(template, found.group.value, block);
          if parses(rewritten) then Ok(rewritten) else Err(DoesNotParse)
  }

  /** The group position is that of a brace token; the text up to and including it is sealed. */
  lemma GroupIsBrace(l: Letters, query: string)
    requires Scan(l, query).group.Some?
    ensures var g := Scan(l, query).group.value;
            g < |query| && query[g] == '{' && Sealed(l, query[..g + 1])
  {
    hide TokensFrom, SealedFrom, FirstBrace, FirstWhere, BraceAfterWhere;
    var tokens := Tokens(l, query);
    var g := Scan(l, query).group.value;
    GroupNeedsWhere(query, tokens);
    var t :| t in tokens && t.kind == Brace && t.start == g;
    TokenStarts(l, query, 0, t);
    assert query == query[..g + 1] + query[g + 1..];
    CutIsSealed(l, query[..g + 1], query[g + 1..], 0, t);
  }

  // --------------------------------------------------------------------- the injection

  /**
   Injecting a sealed block after the group's brace leaves all three scanned positions where they
   were, and the tokens become those of the prefix, of the block, and of the suffix.
   */
  lemma InjectionKeepsScan(l: Letters, query: string, block: string)
    requires Scan(l, query).group.Some? && Sealed(l, " " + block + " ")
    ensures var r := InjectValuesBlock(l, query, block);
            r.Ok? && Scan(l, r.value) == Scan(l, query)
    ensures var r := InjectValuesBlock(l, query, block).value;
            var g := Scan(l, query).group.value;
            && g < |query|
            && var prefix, suffix := Tokens(l, query[..g + 1]), Tokens(l, query[g + 1..]);
            && Tokens(l, query) == prefix + Shift(suffix, g + 1)
            && Tokens(l, r) == prefix + Shift(Tokens(l, " " + block + " "), g + 1) + Shift(suffix, g + 3 + |block|)
  {
    hide TokensFrom, SealedFrom, FirstBrace, FirstWhere, BraceAfterWhere;
    GroupNeedsWhere(query, Tokens(l, query));
    GroupIsBrace(l, query);
    var g := Scan(l, query).group.value;
    var p, x, b := query[..g + 1], query[g + 1..], " " + block + " ";
    assert query == p + x;
    assert Spliced(query, g, block) == p + b + x;
    SpliceKeepsScan(l, p, b, x);
  }

  lemma SpliceKeepsScan(l: Letters, p: string, b: string, x: string)
    requires |p| > 0 && Sealed(l, p) && Sealed(l, b) && Scan(l, p + x).group == Some(|p| - 1)
    ensures Scan(l, p + b + x) == Scan(l, p + x)
    ensures Tokens(l, p + x) == Tokens(l, p) + Shift(Tokens(l, x), |p|)
    ensures Tokens(l, p + b + x) == Tokens(l, p) + Shift(Tokens(l, b), |p|) + Shift(Tokens(l, x), |p| + |b|)
  {
    PrefixHasGroup(l, p + x, p, x);
    ScanOfPrefix(l, p, x);
    ScanOfPrefix(l, p, b + x);
    assert p + (b + x) == p + b + x;
    TokensConcat(l, p, x);
    TokensConcat(l, p, b);
    SealedConcat(l, p, b);
    TokensConcat(l, p + b, x);
  }

  /** The prefix that ends with the group's brace already has the whole answer. */
  lemma PrefixHasGroup(l: Letters, query: string, p: string, x: string)
    requires query == p + x && Sealed(l, p) && |p| > 0
    requires Scan(l, query).group == Some(|p| - 1)
    ensures Scan(l, p).group.Some?
  {
    var a, b := Tokens(l, p), Shift(Tokens(l, x), |p|);
    TokensConcat(l, p, x);
    NamesWithin(l, p, 0);
    WhereIgnoresSuffix(p, x, a);
    BraceAfterWhereConcat(query, a, b);
    BraceInside(query, b);
    assert forall t :: t in b ==> t.start >= |p|;
  }

  lemma BraceInside(q: string, b: seq<Token>)
    ensures FirstBrace(b).Some? ==> exists t :: t in b && t.kind == Brace && t.start == FirstBrace(b).value
    ensures BraceAfterWhere(q, b).Some? ==> exists t :: t in b && t.kind == Brace && t.start == BraceAfterWhere(q, b).value
  {
    if FirstBrace(b).Some? { FirstBraceIsToken(b); }
    if BraceAfterWhere(q, b).Some? { GroupNeedsWhere(q, b); }
  }

  /** Injecting a second block puts it directly before the first, the rest untouched. */
  lemma SecondInjection(l: Letters, query: string, one: string, two: string)
    requires Scan(l, query).group.Some? && Sealed(l, " " + one + " ")
    ensures var r := InjectValuesBlock(l, query, one);
            r.Ok? && InjectValuesBlock(l, r.value, two) == InjectValuesBlock(l, query, two + "  " + one)
  {
    InjectionKeepsScan(l, query, one);
    GroupIsBrace(l, query);
    SpliceTwice(query, Scan(l, query).group.value, one, two);
  }

  lemma SpliceTwice(query: string, g: nat, one: string, two: string)
    requires g < |query|
    ensures Spliced(Spliced(query, g, one), g, two) == Spliced(query, g, two + "  " + one)
  {
    var r := Spliced(query, g, one);
    assert r[..g + 1] == query[..g + 1];
    assert r[g + 1..] == " " + one + " " + query[g + 1..];
  }

  lemma OkMeansSpliced(l: Letters, n3: Serializer, parses: string -> bool,
                       template: string, bound: map<string, string>, decls: seq<ParamDecl>)
    requires bound != map[] && InjectValues(l, n3, parses, template, bound, decls).Ok?
    ensures ValuesBlock(n3, bound, decls).Ok? && Scan(l, template).group.Some?
    ensures InjectValues(l, n3, parses, template, bound, decls) ==
            InjectValuesBlock(l, template, ValuesBlock(n3, bound, decls).value)
  {
  }
}

/**
 Slash-separated paths below the storage root, and their resolution: empty and "." segments
 drop out, ".." takes the segment before it, and a path that leaves the root has none.
 */
module Paths {

  datatype Resolved<+T> = Escapes | Within(value: T)

  predicate NoSlash(seg: string) {
    '/' !in seg
  }

  function FirstSlash(p: string): (i: nat)
    ensures i <= |p|
    ensures forall k :: 0 <= k < i ==> p[k] != '/'
    ensures i < |p| ==> p[i] == '/'
  {
    if p == "" || p[0] == '/' then 0 else FirstSlash(p[1..]) + 1
  }

  function Split(p: string): (segs: seq<string>)
    ensures segs != []
    ensures forall seg :: seg in segs ==> NoSlash(seg)
    decreases |p|
  {
    var i := FirstSlash(p);
    if i == |p| then
      assert p[..i] == p;
      [p]
    else [p[..i]] + Split(p[i + 1..])
  }

  function Join(segs: seq<string>): string {
    if segs == [] then ""
    else if |segs| == 1 then segs[0]
    else segs[0] + "/" + Join(segs[1..])
  }

  lemma FirstSlashOf(seg: string, rest: string)
    requires NoSlash(seg)
    ensures FirstSlash(seg + "/" + rest) == |seg|
    ensures FirstSlash(seg) == |seg|
  {
    var p := seg + "/" + rest;
    assert p[|seg|] == '/';
    forall k | 0 <= k < |seg| ensures p[k] != '/' {
      assert p[k] == seg[k] && seg[k] in seg;
    }
  }

  lemma {:induction false} SplitJoin(segs: seq<string>)
    requires segs != [] && forall seg :: seg in segs ==> NoSlash(seg)
    ensures Split(Join(segs)) == segs
  {
    if |segs| == 1 {
      FirstSlashOf(segs[0], "");
    } else {
      var rest := Join(segs[1..]);
      FirstSlashOf(segs[0], rest);
      SplitJoin(segs[1..]);
      var p := segs[0] + "/" + rest;
      assert p[..|segs[0]|] == segs[0];
      assert p[|segs[0]| + 1..] == rest;
    }
  }

  lemma {:induction false} JoinSplit(p: string)
    ensures Join(Split(p)) == p
    decreases |p|
  {
    hide FirstSlash;
    var i := FirstSlash(p);
    if i < |p| {
      var rest := Split(p[i + 1..]);
      JoinSplit(p[i + 1..]);
      assert Split(p) == [p[..i]] + rest && ([p[..i]] + rest)[1..] == rest;
      assert p == p[..i] + "/" + p[i + 1..];
    } else {
      assert Split(p) == [p];
    }
  }

  // ---------------------------------------------------------------------- resolution

  predicate CleanSegment(seg: string) {
    seg != "" && seg != "." && seg != ".." && NoSlash(seg)
  }

  predicate Clean(segs: seq<string>) {
    forall seg :: seg in segs ==> CleanSegment(seg)
  }

  function ResolveSegments(segs: seq<string>, done: seq<string>): (r: Resolved<seq<string>>)
    requires Clean(done) && forall seg :: seg in segs ==> NoSlash(seg)
    ensures r.Within? ==> Clean(r.value)
  {
    if segs == [] then Within(done)
    else if segs[0] == "" || segs[0] == "." then ResolveSegments(segs[1..], done)
    else if segs[0] == ".." then
      if done == [] then Escapes else ResolveSegments(segs[1..], done[..|done| - 1])
    else ResolveSegments(segs[1..], done + [segs[0]])
  }

  function Resolve(p: string): Resolved<string> {
    if p != "" && p[0] == '/' then Escapes
    else
      match ResolveSegments(Split(p), [])
      case Escapes => Escapes
      case Within(segs) => Within(Join(segs))
  }

  predicate IsResolved(p: string) {
    Resolve(p) == Within(p)
  }

  lemma {:induction false} ResolveClean(segs: seq<string>, done: seq<string>)
    requires Clean(segs) && Clean(done)
    ensures ResolveSegments(segs, done) == Within(done + segs)
    decreases |segs|
  {
    if segs == [] {
      assert done + segs == done;
    } else {
      assert CleanSegment(segs[0]);
      ResolveClean(segs[1..], done + [segs[0]]);
      assert done + [segs[0]] + segs[1..] == done + segs;
    }
  }

  lemma CleanIsResolved(segs: seq<string>)
    requires Clean(segs)
    ensures IsResolved(Join(segs))
  {
    if segs == [] {
      assert Split("") == [""];
      assert ResolveSegments([""], []) == ResolveSegments([], []);
    } else {
      SplitJoin(segs);
      ResolveClean(segs, []);
      assert [] + segs == segs;
      assert Join(segs)[0] == segs[0][0];
      assert segs[0][0] in segs[0];
    }
  }

  /** Resolution is idempotent: what it returns is resolved already. */
  lemma ResolveIsResolved(p: string)
    requires Resolve(p).Within?
    ensures IsResolved(Resolve(p).value)
  {
    CleanIsResolved(ResolveSegments(Split(p), []).value);
  }

  ghost predicate Segments(segs: seq<string>) {
    forall seg :: seg in segs ==> NoSlash(seg)
  }

  /** An empty segment and "." drop out, wherever they stand. */
  lemma {:induction false} DotDropsOut(a: seq<string>, dot: string, b: seq<string>, done: seq<string>)
    requires Segments(a) && Segments(b) && Clean(done) && (dot == "" || dot == ".")
    ensures ResolveSegments(a + [dot] + b, done) == ResolveSegments(a + b, done)
    decreases |a|
  {
    var s, t := a + [dot] + b, a + b;
    if a == [] {
      assert s[1..] == b && t == b;
    } else {
      assert s[0] == a[0] == t[0] && s[1..] == a[1..] + [dot] + b && t[1..] == a[1..] + b;
      if a[0] == "" || a[0] == "." {
        DotDropsOut(a[1..], dot, b, done);
      } else if a[0] == ".." {
        if done != [] {
          DotDropsOut(a[1..], dot, b, done[..|done| - 1]);
        }
      } else {
        DotDropsOut(a[1..], dot, b, done + [a[0]]);
      }
    }
  }

  lemma UpTakesFirst(seg: string, b: seq<string>, done: seq<string>)
    requires Segments(b) && Clean(done) && CleanSegment(seg)
    ensures ResolveSegments([seg] + ([".."] + b), done) == ResolveSegments(b, done)
  {
    var up := [".."] + b;
    assert ([seg] + up)[1..] == up && up[1..] == b;
    assert (done + [seg])[..|done + [seg]| - 1] == done;
  }

  /** ".." takes the segment before it with it. */
  lemma {:induction false} UpTakesBefore(a: seq<string>, seg: string, b: seq<string>, done: seq<string>)
    requires Segments(a) && Segments(b) && Clean(done) && CleanSegment(seg)
    ensures ResolveSegments(a + [seg, ".."] + b, done) == ResolveSegments(a + b, done)
    decreases |a|
  {
    var s, t := a + [seg, ".."] + b, a + b;
    if a == [] {
      assert s == [seg] + ([".."] + b) && t == b;
      UpTakesFirst(seg, b, done);
    } else {
      assert s[0] == a[0] == t[0] && s[1..] == a[1..] + [seg, ".."] + b && t[1..] == a[1..] + b;
      if a[0] == "" || a[0] == "." {
        UpTakesBefore(a[1..], seg, b, done);
      } else if a[0] == ".." {
        if done != [] {
          UpTakesBefore(a[1..], seg, b, done[..|done| - 1]);
        }
      } else {
        UpTakesBefore(a[1..], seg, b, done + [a[0]]);
      }
    }
  }

  lemma ResolveJoined(segs: seq<string>)
    requires Segments(segs) && segs != [] && segs[0] != ""
    ensures Resolve(Join(segs)) ==
            match ResolveSegments(segs, [])
            case Escapes => Escapes
            case Within(r) => Within(Join(r))
  {
    SplitJoin(segs);
    assert segs[0][0] in segs[0];
    assert Join(segs)[0] == segs[0][0];
  }

  /**
   How a path resolves: clean segments are kept, an empty one or "." drops out, ".." goes with the
   segment before it, and with none before it the path leaves the root.
   */
  lemma ResolvesBy(a: seq<string>, b: seq<string>, seg: string, dot: string)
    requires Segments(a) && Segments(b) && CleanSegment(seg) && (dot == "" || dot == ".")
    requires a != [] && a[0] != ""
    ensures Clean(a) ==> Resolve(Join(a)) == Within(Join(a))
    ensures Resolve(Join(a + [dot] + b)) == Resolve(Join(a + b))
    ensures Resolve(Join(a + [seg, ".."] + b)) == Resolve(Join(a + b))
    ensures Resolve(Join([".."] + b)) == Escapes
  {
    if Clean(a) {
      CleanIsResolved(a);
    }
    DotDropsOut(a, dot, b, []);
    UpTakesBefore(a, seg, b, []);
    hide Resolve, Join;
    ResolveJoined(a + [dot] + b);
    ResolveJoined(a + [seg, ".."] + b);
    ResolveJoined(a + b);
    ResolveJoined([".."] + b);
  }

  lemma {:induction false} JoinLast(segs: seq<string>, suffix: string)
    requires segs != []
    ensures Join(segs) + suffix == Join(segs[..|segs| - 1] + [segs[|segs| - 1] + suffix])
    decreases |segs|
  {
    var grown := segs[..|segs| - 1] + [segs[|segs| - 1] + suffix];
    if |segs| > 1 {
      JoinLast(segs[1..], suffix);
      assert grown[1..] == segs[1..][..|segs| - 2] + [segs[|segs| - 1] + suffix];
      assert Join(segs) + suffix == segs[0] + "/" + (Join(segs[1..]) + suffix);
    }
  }

  /** A file name grown by a suffix of three characters or more stays resolved. */
  lemma ResolvedWithSuffix(p: string, suffix: string)
    requires IsResolved(p) && p != "" && NoSlash(suffix) && |suffix| > 2
    ensures IsResolved(p + suffix)
  {
    var segs := ResolveSegments(Split(p), []).value;
    assert segs != [];
    var last := segs[|segs| - 1];
    var grown := segs[..|segs| - 1] + [last + suffix];
    JoinLast(segs, suffix);
    assert last in segs;
    assert NoSlash(last + suffix);
    assert CleanSegment(last + suffix);
    forall seg | seg in grown ensures CleanSegment(seg) {
    }
    CleanIsResolved(grown);
  }

  lemma ResolvedIsClean(p: string)
    requires IsResolved(p) && p != ""
    ensures Clean(Split(p))
  {
    var segs := ResolveSegments(Split(p), []).value;
    SplitJoin(segs);
  }

  lemma SplitFirst(seg: string, rest: string)
    requires NoSlash(seg)
    ensures Split(seg + "/" + rest) == [seg] + Split(rest)
  {
    FirstSlashOf(seg, rest);
    var p := seg + "/" + rest;
    assert p[..|seg|] == seg && p[|seg| + 1..] == rest;
  }

  lemma SplitOne(seg: string)
    requires NoSlash(seg)
    ensures Split(seg) == [seg]
  {
    FirstSlashOf(seg, "");
  }

  /** Cut after a slash and continued by one segment, a path keeps the segments before the cut. */
  lemma {:induction false} SplitAt(p: string, i: nat, seg: string) returns (k: nat)
    requires i <= |p| && (i == 0 || p[i - 1] == '/') && NoSlash(seg)
    ensures k <= |Split(p)| && Split(p[..i] + seg) == Split(p)[..k] + [seg]
    decreases |p|
  {
    hide Split;
    if i == 0 {
      k := 0;
      SplitOne(seg);
      assert p[..i] + seg == seg;
    } else {
      var j := FirstSlash(p);
      assert j < i;
      var first, rest := p[..j], p[j + 1..];
      k := SplitAt(rest, i - j - 1, seg);
      SplitFirst(first, rest);
      SplitFirst(first, rest[..i - j - 1] + seg);
      assert p == first + "/" + rest;
      assert p[..i] + seg == first + "/" + (rest[..i - j - 1] + seg);
      assert [first] + (Split(rest)[..k] + [seg]) == ([first] + Split(rest))[..k + 1] + [seg];
      k := k + 1;
    }
  }

  /** What lies in a directory on the way of a resolved path is resolved. */
  lemma ResolvedBeside(p: string, i: nat, seg: string)
    requires IsResolved(p) && p != "" && CleanSegment(seg)
    requires i <= |p| && (i == 0 || p[i - 1] == '/')
    ensures IsResolved(p[..i] + seg)
  {
    ResolvedIsClean(p);
    var k := SplitAt(p, i, seg);
    JoinSplit(p[..i] + seg);
    CleanIsResolved(Split(p)[..k] + [seg]);
  }

  lemma {:induction false} SplitSuffix(p: string, suffix: string)
    requires NoSlash(suffix)
    ensures var segs := Split(p);
            Split(p + suffix) == segs[..|segs| - 1] + [segs[|segs| - 1] + suffix]
    decreases |p|
  {
    hide Split;
    var i := FirstSlash(p);
    if i == |p| {
      assert NoSlash(p);
      SplitOne(p);
      SplitOne(p + suffix);
      assert [p][..0] + [p + suffix] == [p + suffix];
    } else {
      var first, rest := p[..i], p[i + 1..];
      SplitSuffix(rest, suffix);
      SplitFirst(first, rest);
      SplitFirst(first, rest + suffix);
      assert p == first + "/" + rest;
      assert p + suffix == first + "/" + (rest + suffix);
    }
  }

  lemma {:induction false} ResolveCleanPrefix(segs: seq<string>, rest: seq<string>, done: seq<string>)
    requires Clean(segs) && Clean(done) && forall seg :: seg in rest ==> NoSlash(seg)
    ensures ResolveSegments(segs + rest, done) == ResolveSegments(rest, done + segs)
    decreases |segs|
  {
    if segs == [] {
      assert segs + rest == rest && done + segs == done;
    } else {
      assert CleanSegment(segs[0]);
      ResolveCleanPrefix(segs[1..], rest, done + [segs[0]]);
      assert (segs + rest)[1..] == segs[1..] + rest;
      assert done + [segs[0]] + segs[1..] == done + segs;
    }
  }

  lemma {:induction false} ResolveThenClean(segs: seq<string>, seg: string, done: seq<string>)
    requires Clean(done) && CleanSegment(seg) && forall x :: x in segs ==> NoSlash(x)
    ensures ResolveSegments(segs + [seg], done) ==
            match ResolveSegments(segs, done)
            case Escapes => Escapes
            case Within(v) => Within(v + [seg])
    decreases |segs|
  {
    if segs == [] {
      assert segs + [seg] == [seg] && [seg][1..] == [];
    } else {
      assert (segs + [seg])[1..] == segs[1..] + [seg];
      if segs[0] == "" || segs[0] == "." {
        ResolveThenClean(segs[1..], seg, done);
      } else if segs[0] == ".." {
        if done != [] {
          ResolveThenClean(segs[1..], seg, done[..|done| - 1]);
        }
      } else {
        ResolveThenClean(segs[1..], seg, done + [segs[0]]);
      }
    }
  }

  /** A suffix of three characters or more survives resolution. */
  lemma ResolveKeepsSuffix(p: string, suffix: string)
    requires NoSlash(suffix) && |suffix| > 2 && Resolve(p + suffix).Within?
    ensures EndsWith(Resolve(p + suffix).value, suffix)
  {
    SplitSuffix(p, suffix);
    var segs := Split(p);
    var last := segs[|segs| - 1];
    assert last in segs;
    assert CleanSegment(last + suffix);
    ResolveThenClean(segs[..|segs| - 1], last + suffix, []);
    var v := ResolveSegments(segs[..|segs| - 1], []).value;
    JoinLast(v + [last], suffix);
    assert (v + [last])[..|v|] == v;
    assert Resolve(p + suffix).value == Join(v + [last]) + suffix;
  }

  lemma {:induction false} JoinAppend(segs: seq<string>, seg: string)
    requires segs != []
    ensures Join(segs + [seg]) == Join(segs) + "/" + seg
    decreases |segs|
  {
    if |segs| == 1 {
      assert (segs + [seg])[1..] == [seg];
    } else {
      JoinAppend(segs[1..], seg);
      assert (segs + [seg])[1..] == segs[1..] + [seg];
    }
  }

  lemma JoinedAncestor(segs: seq<string>, seg: string)
    requires segs != []
    ensures Join(segs) in Ancestors(Join(segs + [seg]))
  {
    JoinAppend(segs, seg);
    var p, i := Join(segs + [seg]), |Join(segs)|;
    assert p[i] == '/' && p[..i] == Join(segs);
  }

  lemma AncestorOfLonger(a: string, p: string, rest: string)
    requires a in Ancestors(p)
    ensures a in Ancestors(p + rest)
  {
    var i :| 0 <= i < |p| && p[i] == '/' && p[..i] == a;
    assert (p + rest)[i] == '/' && (p + rest)[..i] == a;
  }

  lemma UnresolvedSegments(before: seq<string>, last: string, suffix: string)
    requires Clean(before) && NoSlash(last) && !CleanSegment(last)
    requires ResolveSegments([last], before).Within?
    ensures var dir := Join(ResolveSegments([last], before).value);
            dir == "" || dir in Ancestors(Join(before + [last + suffix]))
  {
    ResolveLast(before, last);
    hide ResolveSegments, Ancestors, CleanSegment;
    if last == ".." && |before| > 1 {
      var upper := before[..|before| - 1];
      assert before == upper + [before[|before| - 1]];
      JoinedAncestor(upper, before[|before| - 1]);
      JoinAppend(before, last + suffix);
      assert Join(before) + "/" + (last + suffix) == Join(before) + ("/" + (last + suffix));
      AncestorOfLonger(Join(upper), Join(before), "/" + (last + suffix));
    } else if last != ".." && before != [] {
      JoinedAncestor(before, last + suffix);
    }
  }

  /** A path that is not resolved, while it would be with a suffix, leads to a directory on that way. */
  lemma UnresolvedTail(p: string, suffix: string)
    requires NoSlash(suffix) && |suffix| > 2 && IsResolved(p + suffix)
    requires Resolve(p).Within? && Resolve(p).value != p
    ensures Resolve(p).value == "" || Resolve(p).value in Ancestors(p + suffix)
  {
    SplitSuffix(p, suffix);
    ResolvedIsClean(p + suffix);
    JoinSplit(p + suffix);
    JoinSplit(p);
    var segs := Split(p);
    var before, last := segs[..|segs| - 1], segs[|segs| - 1];
    assert segs == before + [last] && last in segs;
    assert Clean(before + [last + suffix]);
    ResolveCleanPrefix(before, [last], []);
    assert [] + before == before;
    ResolveLast(before, last);
    assert CleanSegment(last) ==> Resolve(p) == Within(Join(segs));
    hide Split, ResolveSegments, Ancestors, CleanSegment, Join;
    UnresolvedSegments(before, last, suffix);
  }

  /** One more segment after clean ones. */
  lemma ResolveLast(before: seq<string>, last: string)
    requires Clean(before) && NoSlash(last)
    ensures ResolveSegments([last], before) ==
            if last == "" || last == "." then Within(before)
            else if last != ".." then Within(before + [last])
            else if before == [] then Escapes
            else Within(before[..|before| - 1])
  {
    assert [last][1..] == [];
  }

  /** Room for a separator after every segment. */
  function Weight(segs: seq<string>): nat {
    if segs == [] then 0 else |segs[0]| + 1 + Weight(segs[1..])
  }

  lemma {:induction false} WeightOfJoin(segs: seq<string>)
    ensures |Join(segs)| == if segs == [] then 0 else Weight(segs) - 1
  {
    if |segs| > 1 {
      WeightOfJoin(segs[1..]);
    } else if |segs| == 1 {
      assert segs[1..] == [];
    }
  }

  lemma {:induction false} WeightAppend(segs: seq<string>, seg: string)
    ensures Weight(segs + [seg]) == Weight(segs) + |seg| + 1
  {
    if segs == [] {
      assert ([] + [seg])[1..] == [];
    } else {
      WeightAppend(segs[1..], seg);
      assert (segs + [seg])[1..] == segs[1..] + [seg];
    }
  }

  lemma {:induction false} ResolveSegmentsShrinks(segs: seq<string>, done: seq<string>)
    requires Clean(done) && forall seg :: seg in segs ==> NoSlash(seg)
    requires ResolveSegments(segs, done).Within?
    ensures Weight(ResolveSegments(segs, done).value) <= Weight(done) + Weight(segs)
    decreases |segs|
  {
    if segs != [] {
      if segs[0] == "" || segs[0] == "." {
        ResolveSegmentsShrinks(segs[1..], done);
      } else if segs[0] == ".." {
        var parent := done[..|done| - 1];
        WeightAppend(parent, done[|done| - 1]);
        assert parent + [done[|done| - 1]] == done;
        ResolveSegmentsShrinks(segs[1..], parent);
      } else {
        WeightAppend(done, segs[0]);
        ResolveSegmentsShrinks(segs[1..], done + [segs[0]]);
      }
    }
  }

  /** Resolution never lengthens a path. */
  lemma ResolveShrinks(p: string)
    requires Resolve(p).Within?
    ensures |Resolve(p).value| <= |p|
  {
    ResolveSegmentsShrinks(Split(p), []);
    WeightOfJoin(ResolveSegments(Split(p), []).value);
    WeightOfJoin(Split(p));
    JoinSplit(p);
  }

  // -------------------------------------------------------------------- small helpers

  predicate EndsWith(s: string, suffix: string) {
    |suffix| <= |s| && s[|s| - |suffix|..] == suffix
  }

  function RemoveSuffix(s: string, suffix: string): string {
    if EndsWith(s, suffix) then s[..|s| - |suffix|] else s
  }

  function RemovePrefix(s: string, prefix: string): string {
    if prefix <= s then s[|prefix|..] else s
  }

  /** The directories a file at p lies in. */
  function Ancestors(p: string): set<string> {
    set i | 0 <= i < |p| && p[i] == '/' :: p[..i]
  }
}

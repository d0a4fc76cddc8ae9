/** Parent derivation, member-URI minting and container kinds. */
module Containers {
  import opened Paths
  import opened Rdf

  const LDP := "http://www.w3.org/ns/ldp#"
  const LDP_RESOURCE := Iri(LDP + "Resource")
  const LDP_RDF_SOURCE := Iri(LDP + "RDFSource")
  const LDP_CONTAINER := Iri(LDP + "Container")
  const LDP_BASIC_CONTAINER := Iri(LDP + "BasicContainer")
  const LDP_DIRECT_CONTAINER := Iri(LDP + "DirectContainer")
  const LDP_CONTAINS := Iri(LDP + "contains")
  const LDP_MEMBERSHIP_RESOURCE := Iri(LDP + "membershipResource")
  const LDP_HAS_MEMBER_RELATION := Iri(LDP + "hasMemberRelation")
  const LDP_IS_MEMBER_OF_RELATION := Iri(LDP + "isMemberOfRelation")

  // -------------------------------------------------------------------------- parents

  function RStripSlashes(s: string): (r: string)
    ensures r <= s
    ensures r != "" ==> r[|r| - 1] != '/'
    ensures forall i :: |r| <= i < |s| ==> s[i] == '/'
  {
    if s != "" && s[|s| - 1] == '/' then RStripSlashes(s[..|s| - 1]) else s
  }

  /** One past the last slash, 0 if there is none. */
  function AfterLastSlash(s: string): (i: nat)
    ensures i <= |s|
    ensures i > 0 ==> s[i - 1] == '/'
    ensures forall k :: i <= k < |s| ==> s[k] != '/'
  {
    if s == "" || s[|s| - 1] == '/' then |s| else AfterLastSlash(s[..|s| - 1])
  }

  function ParentContainerUri(uri: string, base: string): string {
    var relative := RStripSlashes(RemovePrefix(uri, base));
    base + relative[..AfterLastSlash(relative)]
  }

  /** A container URI of this pod: the root, or a path below it with its trailing slash. */
  predicate ContainerUri(base: string, uri: string) {
    base <= uri && (uri == base || uri[|uri| - 1] == '/')
  }

  lemma ParentIsContainerUri(uri: string, base: string)
    ensures ContainerUri(base, ParentContainerUri(uri, base))
  {
    var relative := RStripSlashes(RemovePrefix(uri, base));
    var i := AfterLastSlash(relative);
    if i > 0 {
      assert (base + relative[..i])[|base + relative[..i]| - 1] == relative[i - 1];
    }
  }

  /** Only the root is its own parent; every other parent is a proper prefix. */
  lemma ParentIsShorter(uri: string, base: string)
    requires base <= uri && uri != base
    ensures ParentContainerUri(uri, base) <= uri
    ensures |ParentContainerUri(uri, base)| < |uri|
  {
    var rel := uri[|base|..];
    assert RemovePrefix(uri, base) == rel && uri == base + rel;
    var stripped := RStripSlashes(rel);
    var i := AfterLastSlash(stripped);
    assert stripped[..i] <= stripped <= rel;
    if stripped != "" {
      assert i < |stripped|;
    }
  }

  lemma RootIsItsOwnParent(base: string)
    ensures ParentContainerUri(base, base) == base
  {
    assert RemovePrefix(base, base) == "";
  }

  /** The parent of what is minted in a container is that container. */
  lemma ParentOfMember(base: string, container: string, segment: string)
    requires ContainerUri(base, container) && segment != "" && NoSlash(segment)
    ensures ParentContainerUri(container + segment, base) == container
  {
    var rel := container[|base|..];
    assert rel != "" ==> rel[|rel| - 1] == container[|container| - 1];
    assert container + segment == base + (rel + segment) && container == base + rel;
    assert RemovePrefix(base + (rel + segment), base) == rel + segment;
    hide RStripSlashes, AfterLastSlash;
    assert segment[|segment| - 1] in segment;
    NothingToStrip(rel + segment);
    LastSlash(rel, segment);
  }

  lemma NothingToStrip(s: string)
    requires s != "" ==> s[|s| - 1] != '/'
    ensures RStripSlashes(s) == s
  {
  }

  lemma LastSlash(rel: string, segment: string)
    requires (rel != "" ==> rel[|rel| - 1] == '/') && NoSlash(segment)
    ensures AfterLastSlash(rel + segment) == |rel|
    ensures (rel + segment)[..AfterLastSlash(rel + segment)] == rel
  {
    assert rel != "" ==> (rel + segment)[|rel| - 1] == '/';
    assert forall k :: 0 <= k < |segment| ==> segment[k] in segment && (rel + segment)[|rel| + k] == segment[k];
    assert forall j :: |rel| <= j < |rel + segment| ==> (rel + segment)[j] == segment[j - |rel|] && (rel + segment)[j] != '/';
  }

  lemma {:induction false} StripsSlashes(s: string, slashes: string)
    requires s != "" ==> s[|s| - 1] != '/'
    requires forall c :: c in slashes ==> c == '/'
    ensures RStripSlashes(s + slashes) == s
  {
    if slashes == "" {
      assert s + slashes == s;
      NothingToStrip(s);
    } else {
      var n := |slashes| - 1;
      assert slashes[n] in slashes;
      assert (s + slashes)[..|s + slashes| - 1] == s + slashes[..n];
      assert forall c :: c in slashes[..n] ==> c in slashes;
      StripsSlashes(s, slashes[..n]);
    }
  }

  /** Slashes after the last segment change nothing: a container lies in its parent like any member. */
  lemma ParentOfContainer(base: string, container: string, segment: string, slashes: string)
    requires ContainerUri(base, container) && segment != "" && NoSlash(segment)
    requires forall c :: c in slashes ==> c == '/'
    ensures ParentContainerUri(container + segment + slashes, base) == container
  {
    var rel := container[|base|..] + segment;
    assert rel[|rel| - 1] == segment[|segment| - 1] && segment[|segment| - 1] in segment;
    assert container + segment == base + rel && container + segment + slashes == base + (rel + slashes);
    assert RemovePrefix(base + rel, base) == rel && RemovePrefix(base + (rel + slashes), base) == rel + slashes;
    StripsSlashes(rel, slashes);
    NothingToStrip(rel);
    ParentOfMember(base, container, segment);
  }

  // ----------------------------------------------------------------------------- slugs

  const SLUG_MAX_LEN: nat := 64

  predicate SlugChar(c: char) {
    'a' <= c <= 'z' || '0' <= c <= '9' || c == '-'
  }

  /** Both substitutions at once: runs of disallowed characters and dashes become one dash. */
  function CollapseDashes(lowered: string, afterDash: bool): (r: string)
    ensures forall c :: c in r ==> SlugChar(c)
  {
    if lowered == "" then ""
    else if SlugChar(lowered[0]) && lowered[0] != '-' then [lowered[0]] + CollapseDashes(lowered[1..], false)
    else if afterDash then CollapseDashes(lowered[1..], true)
    else "-" + CollapseDashes(lowered[1..], true)
  }

  function LStripDashes(s: string): (r: string)
    ensures forall c :: c in r ==> c in s
    ensures r != "" ==> r[0] != '-'
  {
    if s != "" && s[0] == '-' then LStripDashes(s[1..]) else s
  }

  function RStripDashes(s: string): (r: string)
    ensures r <= s
    ensures r != "" ==> r[|r| - 1] != '-'
  {
    if s != "" && s[|s| - 1] == '-' then RStripDashes(s[..|s| - 1]) else s
  }

  function StripDashes(s: string): string {
    RStripDashes(LStripDashes(s))
  }

  /** lowered is the Slug header in lower case. */
  function SanitizeSlug(lowered: string): string {
    var stripped := StripDashes(CollapseDashes(lowered, false));
    StripDashes(if |stripped| <= SLUG_MAX_LEN then stripped else stripped[..SLUG_MAX_LEN])
  }

  /** What is left is short, uses slug characters only, and neither starts nor ends with a dash. */
  lemma SlugIsSafe(lowered: string)
    ensures var slug := SanitizeSlug(lowered);
            && |slug| <= SLUG_MAX_LEN
            && (forall c :: c in slug ==> SlugChar(c))
            && (slug != "" ==> slug[0] != '-' && slug[|slug| - 1] != '-')
  {
    var collapsed := CollapseDashes(lowered, false);
    var stripped := StripDashes(collapsed);
    assert forall c :: c in stripped ==> c in LStripDashes(collapsed);
    var cut := if |stripped| <= SLUG_MAX_LEN then stripped else stripped[..SLUG_MAX_LEN];
    assert forall c :: c in cut ==> c in stripped;
    LStripShortens(cut);
    assert forall c :: c in StripDashes(cut) ==> c in LStripDashes(cut);
  }

  lemma LStripShortens(s: string)
    ensures |LStripDashes(s)| <= |s|
  {
  }

  /** Letters, digits and single dashes, none of them at an end. */
  predicate CleanSlug(s: string) {
    && s != "" && |s| <= 64
    && (forall c :: c in s ==> 'a' <= c <= 'z' || '0' <= c <= '9' || c == '-')
    && (forall k :: 0 < k < |s| ==> !(s[k - 1] == '-' && s[k] == '-'))
    && s[0] != '-' && s[|s| - 1] != '-'
  }

  lemma {:induction false} CollapseKeeps(s: string, afterDash: bool)
    requires forall c :: c in s ==> SlugChar(c)
    requires forall k :: 0 < k < |s| ==> !(s[k - 1] == '-' && s[k] == '-')
    requires afterDash && s != "" ==> s[0] != '-'
    ensures CollapseDashes(s, afterDash) == s
  {
    if s != "" {
      assert s[0] in s && s == [s[0]] + s[1..];
      assert forall k :: 0 < k < |s[1..]| ==> s[1..][k - 1] == s[k] && s[1..][k] == s[k + 1];
      CollapseKeeps(s[1..], s[0] == '-');
    }
  }

  /** A clean slug is kept as it is. */
  lemma CleanSlugIsKept(s: string)
    requires CleanSlug(s)
    ensures SanitizeSlug(s) == s
  {
    CollapseKeeps(s, false);
  }

  /** Whatever stands between two clean pieces, if it has no slug character but dashes, becomes one dash. */
  lemma GapsBecomeDashes(left: string, gap: string, right: string)
    requires CleanSlug(left) && CleanSlug(right) && |left| + 1 + |right| <= 64
    requires gap != "" && forall c :: c in gap ==> !('a' <= c <= 'z' || '0' <= c <= '9')
    ensures SanitizeSlug(left + gap + right) == left + "-" + right
  {
    CollapseOver(left, gap, right);
    assert CleanSlug(left + "-" + right) by {
      var s := left + "-" + right;
      forall k | 0 < k < |s| ensures !(s[k - 1] == '-' && s[k] == '-') {
        if k == |left| {
          assert s[k - 1] == left[|left| - 1];
        } else if k == |left| + 1 {
          assert s[k] == right[0];
        } else if k > |left| {
          assert s[k - 1] == right[k - |left| - 2] && s[k] == right[k - |left| - 1];
        }
      }
    }
  }

  lemma CollapseOver(left: string, gap: string, right: string)
    requires forall c :: c in left ==> SlugChar(c)
    requires forall k :: 0 < k < |left| ==> !(left[k - 1] == '-' && left[k] == '-')
    requires left != "" ==> left[0] != '-' && left[|left| - 1] != '-'
    requires CleanSlug(right)
    requires gap != "" && forall c :: c in gap ==> !SlugChar(c) || c == '-'
    ensures CollapseDashes(left + gap + right, false) == left + "-" + right
  {
    CollapseLeft(left, gap + right);
    assert left + gap + right == left + (gap + right);
    assert gap[0] in gap && (gap + right)[1..] == gap[1..] + right;
    CollapseGap(gap[1..], right);
    assert CollapseDashes(gap + right, false) == "-" + right;
    assert left + ("-" + right) == left + "-" + right;
  }

  lemma {:induction false} CollapseLeft(left: string, rest: string)
    requires forall c :: c in left ==> SlugChar(c)
    requires forall k :: 0 < k < |left| ==> !(left[k - 1] == '-' && left[k] == '-')
    requires left != "" ==> left[|left| - 1] != '-'
    requires rest != ""
    ensures CollapseDashes(left + rest, false) == left + CollapseDashes(rest, false)
    ensures left != "" && left[0] != '-' ==> CollapseDashes(left + rest, true) == left + CollapseDashes(rest, false)
    decreases |left|
  {
    if left == "" {
      assert left + rest == rest;
    } else {
      assert left[0] in left && (left + rest)[1..] == left[1..] + rest;
      assert forall k :: 0 < k < |left[1..]| ==> left[1..][k - 1] == left[k] && left[1..][k] == left[k + 1];
      CollapseLeft(left[1..], rest);
      assert [left[0]] + (left[1..] + CollapseDashes(rest, false)) == left + CollapseDashes(rest, false);
    }
  }

  lemma {:induction false} CollapseGap(gap: string, right: string)
    requires CleanSlug(right) && forall c :: c in gap ==> !SlugChar(c) || c == '-'
    ensures CollapseDashes(gap + right, true) == right
  {
    if gap == "" {
      assert gap + right == right;
      CollapseKeeps(right, true);
    } else {
      assert gap[0] in gap && (gap + right)[1..] == gap[1..] + right;
      CollapseGap(gap[1..], right);
    }
  }

  datatype Slug = NoSlug | Given(lowered: string)

  /** uuid is the random hexadecimal identifier of 32 digits. */
  function MintMemberUri(container: string, slug: Slug, uuid: string): string
    requires |uuid| >= 8
  {
    container + MintSegment(slug, uuid)
  }

  predicate Hex(s: string) {
    forall c :: c in s ==> '0' <= c <= '9' || 'a' <= c <= 'f'
  }

  /** The path segment minted below the container. */
  function MintSegment(slug: Slug, uuid: string): string
    requires |uuid| >= 8
  {
    if slug.Given? && SanitizeSlug(slug.lowered) != "" then SanitizeSlug(slug.lowered) + "-" + uuid[..8] else uuid
  }

  /** A clean slug starts the segment, and eight digits of the identifier follow it; without one they are all there. */
  lemma MintedFromSlug(container: string, s: string, uuid: string)
    requires CleanSlug(s) && |uuid| == 32
    ensures MintMemberUri(container, Given(s), uuid) == container + s + "-" + uuid[..8]
    ensures MintMemberUri(container, NoSlug, uuid) == container + uuid
  {
    CleanSlugIsKept(s);
    assert container + (s + "-" + uuid[..8]) == container + s + "-" + uuid[..8];
  }

  lemma SegmentIsPlain(slug: Slug, uuid: string)
    requires |uuid| >= 8 && Hex(uuid)
    ensures |MintSegment(slug, uuid)| >= 8
    ensures forall c :: c in MintSegment(slug, uuid) ==> c != '/' && c != '.'
  {
    if slug.Given? {
      SlugIsSafe(slug.lowered);
    }
    forall c | c in MintSegment(slug, uuid) ensures c != '/' && c != '.' {
      if slug.Given? && SanitizeSlug(slug.lowered) != "" {
        assert c in SanitizeSlug(slug.lowered) || c == '-' || c in uuid;
      }
    }
  }

  lemma NoSidecarName(container: string, segment: string)
    requires |segment| >= 8 && forall c :: c in segment ==> c != '.'
    ensures !EndsWith(container + segment, ".meta")
  {
    var member := container + segment;
    assert member[|member| - 5] == segment[|segment| - 5];
    assert segment[|segment| - 5] in segment;
    assert member[|member| - 5..][0] == member[|member| - 5] != ".meta"[0];
  }

  /** Whatever the Slug header says, the member lies directly in the container and is no sidecar. */
  lemma MintedInContainer(base: string, container: string, slug: Slug, uuid: string)
    requires ContainerUri(base, container) && |uuid| >= 8 && Hex(uuid)
    ensures var member := MintMemberUri(container, slug, uuid);
            && ParentContainerUri(member, base) == container
            && base <= member && member != base
            && !EndsWith(member, ".meta")
  {
    var segment := MintSegment(slug, uuid);
    SegmentIsPlain(slug, uuid);
    ParentOfMember(base, container, segment);
    NoSidecarName(container, segment);
    assert base <= container <= container + segment;
  }

  // --------------------------------------------------------------------------- kinds

  predicate IsBasic(g: Graph, uri: string) {
    Triple(Iri(uri), RDF_TYPE, LDP_BASIC_CONTAINER) in g
  }

  predicate IsDirect(g: Graph, uri: string) {
    Triple(Iri(uri), RDF_TYPE, LDP_DIRECT_CONTAINER) in g
  }

  /** container_kind is not None. */
  predicate IsContainer(g: Graph, uri: string) {
    IsBasic(g, uri) || IsDirect(g, uri)
  }
}

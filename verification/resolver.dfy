/** The ancestor resolver (findClosestInheritanceParent): from an element's
    parent up to the root, the first ancestor holding any restriction for the
    content type ends the search; it is reported only if that restriction
    propagates. */
module Resolver {
  import opened Domain

  /** The resolver's result: the id of the effective ancestor (absent when
      there is none) and the restriction at which the search stopped. */
  datatype Closest = Closest(id: Option<int>, restriction: Option<Restriction>)

  const NoParent := Closest(None, None)

  /** What the callers pass on as the parent restriction: the restriction,
      but only when the resolver reported an ancestor id. */
  function ParentRestriction(c: Closest): (r: Option<Restriction>)
    ensures r.Some? ==> c.id.Some? && r == c.restriction
    ensures c.id.Some? ==> r == c.restriction
    ensures c.id.None? ==> r.None?
  {
    if c.id.Some? then c.restriction else None
  }

  /** getRealPath: the segments of the element's parent path ("/" for the
      root itself). */
  function RealPath(path: seq<string>): (r: seq<string>)
    ensures |path| > 0 ==> StrictPrefix(r, path) && |r| == |path| - 1
  {
    if |path| == 0 then [] else path[..|path| - 1]
  }

  /** The non-empty segments of a path, in order (array_filter, as intended). */
  function NonEmptyParts(parts: seq<string>): (r: seq<string>)
    ensures NoEmptySegments(r)
    ensures |r| <= |parts|
    ensures NoEmptySegments(parts) ==> r == parts
    ensures forall x :: x in r <==> x in parts && x != ""
  {
    if parts == [] then []
    else NonEmptyParts(parts[..|parts| - 1]) + (if parts[|parts| - 1] != "" then [parts[|parts| - 1]] else [])
  }

  /** Filtering a path part by part gives the same segments as filtering it
      whole: the filter keeps every non-empty segment in its place. */
  lemma {:induction false} NonEmptyPartsConcat(a: seq<string>, b: seq<string>)
    ensures NonEmptyParts(a + b) == NonEmptyParts(a) + NonEmptyParts(b)
  {
    if b != [] {
      var n := |b| - 1;
      assert (a + b)[..|a + b| - 1] == a + b[..n];
      assert (a + b)[|a + b| - 1] == b[n];
      NonEmptyPartsConcat(a, b[..n]);
    } else {
      assert a + b == a;
    }
  }

  /** "/" followed by each cumulative prefix of q: the list the resolver builds. */
  function Cumulative(q: seq<string>): seq<seq<string>>
  {
    seq(|q| + 1, i requires 0 <= i <= |q| => q[..i])
  }

  /** Appending a segment appends one path to the cumulative list. */
  lemma {:induction false} CumulativeSnoc(q: seq<string>, x: string)
    ensures Cumulative(q + [x]) == Cumulative(q) + [q + [x]]
  {
    var next := q + [x];
    forall i | 0 <= i <= |q|
      ensures Cumulative(next)[i] == Cumulative(q)[i]
    {
      assert next[..i] == q[..i];
    }
    assert Cumulative(next)[|q| + 1] == next[..|next|] == next;
  }

  /** array_reverse */
  function Reversed<T>(s: seq<T>): seq<T>
  {
    seq(|s|, i requires 0 <= i < |s| => s[|s| - 1 - i])
  }

  /** The prefixes of q, longest first, ending with the root path. */
  function ClosestFirst(q: seq<string>): seq<seq<string>>
  {
    seq(|q| + 1, i requires 0 <= i <= |q| => q[..|q| - i])
  }

  /** The ancestor paths searched for an element whose parent path is
      realPath: from the parent up to "/". */
  function AncestorPaths(realPath: seq<string>): seq<seq<string>>
  {
    ClosestFirst(NonEmptyParts(realPath))
  }

  /** Whatever the parent path, the list runs from the parent's own path
      (its non-empty segments) up through each shorter prefix, one level at a
      time, and ends with "/". */
  lemma AncestorPathsShape(realPath: seq<string>)
    ensures var r := AncestorPaths(realPath);
            |r| == |NonEmptyParts(realPath)| + 1
            && (forall i :: 0 <= i < |r| ==> |r[i]| == |r| - 1 - i && Prefix(r[i], NonEmptyParts(realPath)))
            && r[|r| - 1] == []
  {
  }

  /** For a path of non-empty segments, the list holds every prefix of it,
      closest first: position i is the ancestor i levels above the parent,
      and the last one is the root. */
  lemma AncestorPathsArePrefixes(realPath: seq<string>)
    requires NoEmptySegments(realPath)
    ensures |AncestorPaths(realPath)| == |realPath| + 1
    ensures forall i :: 0 <= i <= |realPath| ==>
              AncestorPaths(realPath)[i] == realPath[..|realPath| - i] && Prefix(AncestorPaths(realPath)[i], realPath)
    ensures AncestorPaths(realPath)[|realPath|] == []
  {
  }

  /** Every path the resolver searches for an element is the path of a proper
      ancestor, except for the root, whose only searched path is its own. */
  lemma {:induction false} AncestorPathsOfElement(path: seq<string>, p: seq<string>)
    requires NoEmptySegments(path)
    requires p in AncestorPaths(RealPath(path))
    ensures StrictPrefix(p, path) || (path == [] && p == [])
  {
    var rp := RealPath(path);
    assert NoEmptySegments(rp);
    AncestorPathsArePrefixes(rp);
    var i :| 0 <= i < |AncestorPaths(rp)| && AncestorPaths(rp)[i] == p;
    assert p == rp[..|rp| - i];
    if path != [] {
      assert rp == path[..|path| - 1];
      assert p == path[..|p|];
    }
  }

  /** The other direction for an element below the root: every proper
      ancestor of the element is searched, from the parent up to "/", one
      level at a time. */
  lemma {:induction false} AncestorPathsOfNonRoot(path: seq<string>)
    requires NoEmptySegments(path) && |path| > 0
    ensures AncestorPaths(RealPath(path)) == seq(|path|, i requires 0 <= i < |path| => path[..|path| - 1 - i])
  {
    var rp := RealPath(path);
    assert NoEmptySegments(rp);
    AncestorPathsArePrefixes(rp);
    forall i | 0 <= i < |path|
      ensures AncestorPaths(rp)[i] == path[..|path| - 1 - i]
    {
      assert rp[..|rp| - i] == path[..|path| - 1 - i];
    }
  }

  /** Truthy segments in PHP's sense: array_filter without a callback drops
      "" and also "0". */
  function PhpTruthyParts(parts: seq<string>): (r: seq<string>)
    ensures forall x :: x in r <==> x in parts && x != "" && x != "0"
  {
    if parts == [] then []
    else PhpTruthyParts(parts[..|parts| - 1])
         + (if parts[|parts| - 1] != "" && parts[|parts| - 1] != "0" then [parts[|parts| - 1]] else [])
  }

  /** The ancestor paths as the loop builds them from array_filter's output. */
  function AncestorPathsAsWritten(realPath: seq<string>): (r: seq<seq<string>>)
    ensures |r| == |PhpTruthyParts(realPath)| + 1
    ensures forall i :: 0 <= i < |r| ==> |r[i]| == |r| - 1 - i && Prefix(r[i], PhpTruthyParts(realPath))
    ensures r[|r| - 1] == []
  {
    ClosestFirst(PhpTruthyParts(realPath))
  }

  lemma TruthyPartsOfZeroA()
    ensures PhpTruthyParts(["0", "a"]) == ["a"]
  {
    assert ["0", "a"][..1] == ["0"];
    assert PhpTruthyParts(["0"]) == [];
  }

  lemma ClosestFirstOfA()
    ensures ClosestFirst(["a"]) == [["a"], []]
  {
    var w := ClosestFirst(["a"]);
    assert |w| == 2 && w[0] == ["a"] && w[1] == [];
  }

  lemma ClosestFirstOfZeroA()
    ensures ClosestFirst(["0", "a"]) == [["0", "a"], ["0"], []]
  {
    var q := ["0", "a"];
    var c := ClosestFirst(q);
    assert |c| == 3 && c[0] == q && c[1] == ["0"] && c[2] == [];
  }

  /** For an element under "/0/a/", the list as written searches "/a", which is
      not an ancestor at all, and never searches "/0/a" or "/0". */
  lemma ZeroSegmentMisplacesAncestor()
    ensures AncestorPathsAsWritten(["0", "a"]) == [["a"], []]
    ensures !Prefix(["a"], ["0", "a"])
    ensures AncestorPaths(["0", "a"]) == [["0", "a"], ["0"], []]
  {
    TruthyPartsOfZeroA();
    ClosestFirstOfA();
    assert NoEmptySegments(["0", "a"]);
    ClosestFirstOfZeroA();
  }

  /** Building the list as the resolver does (cumulative prefixes, then
      reversed) gives the closest-first list. */
  lemma ReversedCumulative(q: seq<string>)
    ensures Reversed(Cumulative(q)) == ClosestFirst(q)
  {
  }

  /** The restriction (for cType) of the family's element at path p, if both exist. */
  function RestrictionAt(es: seq<Element>, s: Store, f: Family, p: seq<string>, cType: string): Option<Restriction>
  {
    match GetByPath(es, f, p)
    case None => None
    case Some(el) => Find(s, (el.id, cType))
  }

  /** The scan over the ancestor paths: stop at the first element holding a
      restriction, and report it only if that restriction propagates. */
  function Scan(es: seq<Element>, s: Store, f: Family, paths: seq<seq<string>>, cType: string): (c: Closest)
    ensures c.id.Some? ==> c.restriction.Some? && Propagates(c.restriction.value)
    ensures c.restriction.Some? ==> exists i :: 0 <= i < |paths| && RestrictionAt(es, s, f, paths[i], cType) == c.restriction
    ensures c.restriction.Some? ==> c.restriction.value in s.Values
  {
    if paths == [] then NoParent
    else
      match GetByPath(es, f, paths[0])
      case None => Scan(es, s, f, paths[1..], cType)
      case Some(el) =>
        match Find(s, (el.id, cType))
        case None => Scan(es, s, f, paths[1..], cType)
        case Some(r) => Closest(if Propagates(r) then Some(el.id) else None, Some(r))
  }

  /** Specification of findClosestInheritanceParent. */
  function Resolve(es: seq<Element>, s: Store, elementId: int, cType: string): (c: Closest)
    ensures c.id.Some? ==> c.restriction.Some? && Propagates(c.restriction.value)
    ensures Explicit(s, (elementId, cType)) ==> c == NoParent
    ensures c.restriction.Some? ==> c.restriction.value in s.Values
  {
    match GetById(es, FamilyOf(cType), elementId)
    case None => NoParent
    case Some(obj) =>
      if Explicit(s, (obj.id, cType)) then NoParent
      else Scan(es, s, FamilyOf(cType), AncestorPaths(RealPath(obj.path)), cType)
  }

  /** The resolver reports no ancestor when the element is missing from its
      family or carries an explicit restriction of its own. */
  lemma ResolveNoAncestor(es: seq<Element>, s: Store, elementId: int, cType: string)
    requires GetById(es, FamilyOf(cType), elementId).None? || Explicit(s, (elementId, cType))
    ensures Resolve(es, s, elementId, cType) == NoParent
  {
  }

  /** The first ancestor path holding a restriction decides the result: it is
      reported if its restriction propagates, and otherwise nothing is. */
  lemma {:induction false} ScanStopsAtFirst(es: seq<Element>, s: Store, f: Family, paths: seq<seq<string>>, cType: string, i: nat)
    requires i < |paths|
    requires forall j :: 0 <= j < i ==> RestrictionAt(es, s, f, paths[j], cType).None?
    requires RestrictionAt(es, s, f, paths[i], cType).Some?
    ensures var el := GetByPath(es, f, paths[i]).value;
            var r := Find(s, (el.id, cType)).value;
            Scan(es, s, f, paths, cType) == Closest(if Propagates(r) then Some(el.id) else None, Some(r))
  {
    if i > 0 {
      assert RestrictionAt(es, s, f, paths[0], cType).None?;
      forall j | 0 <= j < i - 1
        ensures RestrictionAt(es, s, f, paths[1..][j], cType).None?
      {
        assert paths[1..][j] == paths[j + 1];
      }
      ScanStopsAtFirst(es, s, f, paths[1..], cType, i - 1);
    }
  }

  /** When no ancestor path holds a restriction, no ancestor is reported. */
  lemma {:induction false} ScanFindsNothing(es: seq<Element>, s: Store, f: Family, paths: seq<seq<string>>, cType: string)
    requires forall j :: 0 <= j < |paths| ==> RestrictionAt(es, s, f, paths[j], cType).None?
    ensures Scan(es, s, f, paths, cType) == NoParent
  {
    if paths != [] {
      assert RestrictionAt(es, s, f, paths[0], cType).None?;
      forall j | 0 <= j < |paths| - 1
        ensures RestrictionAt(es, s, f, paths[1..][j], cType).None?
      {
        assert paths[1..][j] == paths[j + 1];
      }
      ScanFindsNothing(es, s, f, paths[1..], cType);
    }
  }

  /** Once a closer ancestor holds a restriction, the restrictions of the
      ancestors beyond it are never consulted: two stores that agree up to
      and including that ancestor give the same result. */
  lemma {:induction false} ScanIgnoresFartherAncestors(es: seq<Element>, s: Store, s': Store, f: Family, paths: seq<seq<string>>, cType: string, i: nat)
    requires i < |paths|
    requires forall j :: 0 <= j <= i ==> RestrictionAt(es, s, f, paths[j], cType) == RestrictionAt(es, s', f, paths[j], cType)
    requires RestrictionAt(es, s, f, paths[i], cType).Some?
    ensures Scan(es, s, f, paths, cType) == Scan(es, s', f, paths, cType)
  {
    assert RestrictionAt(es, s, f, paths[0], cType) == RestrictionAt(es, s', f, paths[0], cType);
    if i > 0 {
      forall j | 0 <= j <= i - 1
        ensures RestrictionAt(es, s, f, paths[1..][j], cType) == RestrictionAt(es, s', f, paths[1..][j], cType)
      {
        assert paths[1..][j] == paths[j + 1];
      }
      ScanIgnoresFartherAncestors(es, s, s', f, paths[1..], cType, i - 1);
    }
  }

  /** The scan reads the store only at the elements on the searched paths. */
  lemma {:induction false} ScanFrame(es: seq<Element>, s: Store, s': Store, f: Family, paths: seq<seq<string>>, cType: string)
    requires forall p :: p in paths ==> RestrictionAt(es, s, f, p, cType) == RestrictionAt(es, s', f, p, cType)
    ensures Scan(es, s, f, paths, cType) == Scan(es, s', f, paths, cType)
  {
    if paths != [] {
      assert paths[0] in paths;
      assert forall p :: p in paths[1..] ==> p in paths;
      ScanFrame(es, s, s', f, paths[1..], cType);
    }
  }

  /** The resolution of element d reads the store only at d's own key (and
      there only whether it is explicit) and at d's ancestors' keys: a change
      at any other key k leaves it as it is. */
  lemma {:induction false} ResolveFrame(es: seq<Element>, s: Store, s': Store, d: Element, cType: string, k: Key)
    requires WellFormed(es) && d in es && d.family == FamilyOf(cType)
    requires AgreeExcept(s, s', k)
    requires Explicit(s, (d.id, cType)) == Explicit(s', (d.id, cType))
    requires forall a :: a in es && a.family == d.family && StrictPrefix(a.path, d.path) ==> (a.id, cType) != k
    requires d.path == [] ==> (d.id, cType) != k
    ensures Resolve(es, s, d.id, cType) == Resolve(es, s', d.id, cType)
  {
    GetByIdFinds(es, d);
    var f := FamilyOf(cType);
    var paths := AncestorPaths(RealPath(d.path));
    forall p | p in paths
      ensures RestrictionAt(es, s, f, p, cType) == RestrictionAt(es, s', f, p, cType)
    {
      match GetByPath(es, f, p)
      case None =>
      case Some(a) =>
        AncestorPathsOfElement(d.path, p);
        if !StrictPrefix(p, d.path) {
          Unique(es, a, d);
        }
    }
    ScanFrame(es, s, s', f, paths, cType);
  }
}

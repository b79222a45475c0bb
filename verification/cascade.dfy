/** The cascade (checkRestrictionContext, updateChildren, onlyUpdateChildren):
    reconcile the element itself unless it is a pure container, then every
    descendant of the matching kinds, shallowest first, each against a fresh
    ancestor resolution. These functions specify the service's methods; the
    lemmas state what one pass establishes. */
module Cascade {
  import opened Domain
  import opened Resolver
  import opened Reconciler

  /** Elements whose own restriction is not reconciled, only their
      descendants': data object folders and documents other than pages and
      links. Assets are always reconciled themselves. */
  function OnlyUpdateChildren(e: Element): (r: bool)
    // assets always reconcile themselves
    ensures e.family == Asset ==> !r
    // data objects: folders only; documents: everything but pages and links
    ensures e.family == DataObject ==> (r <==> e.elementType == "folder")
    ensures e.family == Document ==> (r <==> e.elementType != "page" && e.elementType != "link")
    // a pure container is never among the elements a listing selects
    ensures r ==> forall obj :: !InListing(obj, e)
  {
    match e.family
    case DataObject => e.elementType == "folder"
    case Document => !(e.elementType == "page" || e.elementType == "link")
    case Asset => false
  }

  /** e belongs to the descendant listing of obj: a strict descendant in the
      same family, of type "object" for data objects and of type "page" or
      "link" for documents; for assets every descendant. */
  predicate InListing(obj: Element, e: Element)
  {
    e.family == obj.family && StrictPrefix(obj.path, e.path) &&
    match obj.family
    case DataObject => e.elementType == "object"
    case Document => e.elementType == "page" || e.elementType == "link"
    case Asset => true
  }

  /** Pure containers are never reconciled by a cascade either: every
      element a listing selects reconciles itself when it is the target of a
      pass, and for documents the two notions coincide. */
  lemma ListedKindsReconcileThemselves(obj: Element, e: Element)
    ensures InListing(obj, e) ==> !OnlyUpdateChildren(e)
    ensures obj.family == Document && e.family == Document && StrictPrefix(obj.path, e.path) ==>
              (InListing(obj, e) <==> !OnlyUpdateChildren(e))
  {
  }

  /** The parent restriction a caller passes on always propagates, so the
      reconciler's "parent propagates in neither sense" deletion is never
      taken during a pass. */
  lemma PassedParentPropagates(es: seq<Element>, s: Store, e: Element, cType: string)
    ensures var p := ParentRestriction(Resolve(es, s, e.id, cType));
            p.None? || Propagates(p.value)
  {
  }

  /** The elements of es that the listing of obj selects, in the store's order. */
  function Select(es: seq<Element>, obj: Element): (r: seq<Element>)
    ensures forall e :: e in r <==> e in es && InListing(obj, e)
  {
    if es == [] then []
    else (if InListing(obj, es[0]) then [es[0]] else []) + Select(es[1..], obj)
  }

  /** The descendants updateChildren visits: none below an asset that is not
      a folder. */
  function Listing(es: seq<Element>, obj: Element): (r: seq<Element>)
    ensures obj.family == Asset && obj.elementType != "folder" ==> r == []
    ensures !(obj.family == Asset && obj.elementType != "folder") ==>
              forall e :: e in r <==> e in es && InListing(obj, e)
  {
    if obj.family == Asset && obj.elementType != "folder" then [] else Select(es, obj)
  }

  /** Reconcile one element: its own record against its freshly resolved
      effective ancestor. */
  function ReconcileNode(es: seq<Element>, s: Store, e: Element, cType: string): (r: Store)
    ensures AgreeExcept(s, r, (e.id, cType))
    ensures Explicit(s, (e.id, cType)) ==> r == s
    // the groups copied come from a stored record, so none is ever empty
    ensures NoEmptyGroups(s) ==> NoEmptyGroups(r)
  {
    var k := (e.id, cType);
    Reconciled(s, k, Find(s, k), ParentRestriction(Resolve(es, s, e.id, cType)))
  }

  /** Reconcile the given elements one after the other. */
  function CascadeOver(es: seq<Element>, s: Store, children: seq<Element>, cType: string): (r: Store)
    // records of other content types are left alone
    ensures forall k: Key :: k.1 != cType ==> Find(r, k) == Find(s, k)
    // explicit records are never modified or deleted
    ensures forall k :: Explicit(s, k) ==> Find(r, k) == Find(s, k)
  {
    if children == [] then s
    else ReconcileNode(es, CascadeOver(es, s, children[..|children| - 1], cType), children[|children| - 1], cType)
  }

  /** The store after checkRestrictionContext(obj, cType). */
  function CheckContext(es: seq<Element>, s: Store, obj: Element, cType: string): (r: Store)
    // content types are independent: records of every other content type are left alone
    ensures forall k: Key :: k.1 != cType ==> Find(r, k) == Find(s, k)
    // explicit precedence: no explicit record anywhere is modified or deleted
    ensures forall k :: Explicit(s, k) ==> Find(r, k) == Find(s, k)
  {
    var s1 := if OnlyUpdateChildren(obj) then s else ReconcileNode(es, s, obj, cType);
    CascadeOver(es, s1, Listing(es, obj), cType)
  }

  /** The store after createRestriction's own write and before propagation:
      an empty group list removes the record, otherwise the record gets the
      given flags and groups. */
  function Upserted(s: Store, id: int, cType: string, inheritable: bool, isInherited: bool, groups: seq<int>): (r: Store)
    ensures groups == [] ==> (id, cType) !in r
    ensures groups != [] ==> Find(r, (id, cType)) == Some(Restriction(inheritable, isInherited, groups))
    ensures AgreeExcept(s, r, (id, cType))
  {
    if groups == [] then s - {(id, cType)}
    else s[(id, cType) := Restriction(inheritable, isInherited, groups)]
  }

  /** The node's record agrees with its effective ancestor: either it is
      explicit, or it is an inherited record carrying exactly the effective
      ancestor's groups, or there is neither a record nor an effective
      ancestor. */
  ghost predicate Settled(es: seq<Element>, s: Store, d: Element, cType: string)
  {
    var parent := ParentRestriction(Resolve(es, s, d.id, cType));
    match Find(s, (d.id, cType))
    case None => parent.None?
    case Some(o) => !o.isInherited || (parent.Some? && o.relatedGroups == parent.value.relatedGroups)
  }

  /** The listing of a well-formed store is itself ordered. */
  lemma {:induction false} SelectOrdered(es: seq<Element>, obj: Element)
    requires Ordered(es)
    ensures Ordered(Select(es, obj))
  {
    if es != [] {
      var rest := es[1..];
      assert Ordered(rest) by {
        forall i, j | 0 <= i < j < |rest| && rest[i].family == rest[j].family
          ensures Apart(rest[i], rest[j])
        {
          assert rest[i] == es[i + 1] && rest[j] == es[j + 1];
        }
      }
      SelectOrdered(rest, obj);
      var tail := Select(rest, obj);
      if InListing(obj, es[0]) {
        var r := [es[0]] + tail;
        assert r == Select(es, obj);
        forall i, j | 0 <= i < j < |r| && r[i].family == r[j].family
          ensures Apart(r[i], r[j])
        {
          if i == 0 {
            assert r[j] == tail[j - 1];
            assert r[j] in rest;
            var m :| 0 <= m < |rest| && rest[m] == r[j];
            assert es[m + 1] == r[j];
          } else {
            assert r[i] == tail[i - 1] && r[j] == tail[j - 1];
          }
        }
      }
    }
  }

  /** Reconciling an element settles it. */
  lemma {:induction false} ReconcileSettles(es: seq<Element>, s: Store, d: Element, cType: string)
    requires WellFormed(es) && d in es && d.family == FamilyOf(cType)
    ensures Settled(es, ReconcileNode(es, s, d, cType), d, cType)
  {
    var k := (d.id, cType);
    var own := Find(s, k);
    var c := Resolve(es, s, d.id, cType);
    var parent := ParentRestriction(c);
    var s' := ReconcileNode(es, s, d, cType);
    assert Explicit(s, k) == Explicit(s', k);
    if d.path == [] {
      // the root's only searched path is its own
      GetByIdFinds(es, d);
      GetByPathFinds(es, d);
      assert AncestorPaths(RealPath(d.path)) == [[]];
      if own.Some? && own.value.isInherited {
        assert parent == own;
        assert s'[k] == s[k];
        assert s' == s;
      }
    } else {
      forall a | a in es && a.family == d.family && StrictPrefix(a.path, d.path)
        ensures (a.id, cType) != k
      {
        if a.id == d.id {
          Unique(es, a, d);
        }
      }
      ResolveFrame(es, s, s', d, cType, k);
    }
  }

  /** Reconciling an element x leaves every other element d settled, as long
      as x is not an ancestor of d. */
  lemma {:induction false} SettledPreserved(es: seq<Element>, s: Store, d: Element, x: Element, cType: string)
    requires WellFormed(es) && d in es && x in es
    requires d.family == FamilyOf(cType) && x.family == d.family
    requires x != d && !StrictPrefix(x.path, d.path)
    requires Settled(es, s, d, cType)
    ensures Settled(es, ReconcileNode(es, s, x, cType), d, cType)
  {
    var s' := ReconcileNode(es, s, x, cType);
    var k := (x.id, cType);
    assert d.id != x.id by {
      if d.id == x.id {
        Unique(es, d, x);
      }
    }
    assert Find(s, (d.id, cType)) == Find(s', (d.id, cType));
    forall a | a in es && a.family == d.family && StrictPrefix(a.path, d.path)
      ensures (a.id, cType) != k
    {
      if a.id == x.id {
        Unique(es, a, x);
      }
    }
    ResolveFrame(es, s, s', d, cType, k);
  }

  /** One step of the cascade: reconciling the last listed element keeps the
      earlier ones settled and settles the last one. */
  lemma {:induction false} CascadeStep(es: seq<Element>, s0: Store, children: seq<Element>, cType: string)
    requires WellFormed(es) && Ordered(children) && children != []
    requires forall e :: e in children ==> e in es && e.family == FamilyOf(cType)
    requires forall i :: 0 <= i < |children| - 1 ==> Settled(es, s0, children[i], cType)
    ensures forall i :: 0 <= i < |children| ==>
              Settled(es, ReconcileNode(es, s0, children[|children| - 1], cType), children[i], cType)
  {
    var n := |children| - 1;
    var last := children[n];
    assert last in children;
    forall i | 0 <= i < |children|
      ensures Settled(es, ReconcileNode(es, s0, last, cType), children[i], cType)
    {
      if i == n {
        ReconcileSettles(es, s0, last, cType);
      } else {
        assert children[i] in children;
        assert Apart(children[i], children[n]);
        SettledPreserved(es, s0, children[i], last, cType);
      }
    }
  }

  /** Dropping the last element keeps a listing ordered. */
  lemma OrderedInit(children: seq<Element>)
    requires Ordered(children) && children != []
    ensures Ordered(children[..|children| - 1])
  {
    var init := children[..|children| - 1];
    forall i, j | 0 <= i < j < |init| && init[i].family == init[j].family
      ensures Apart(init[i], init[j])
    {
      assert init[i] == children[i] && init[j] == children[j];
    }
  }

  /** Reconciling the listed elements in order leaves every one of them
      settled, provided no element comes after one of its descendants. */
  lemma {:induction false} CascadeOverSettles(es: seq<Element>, s: Store, children: seq<Element>, cType: string)
    requires WellFormed(es) && Ordered(children)
    requires forall e :: e in children ==> e in es && e.family == FamilyOf(cType)
    ensures forall i :: 0 <= i < |children| ==> Settled(es, CascadeOver(es, s, children, cType), children[i], cType)
  {
    if children != [] {
      var n := |children| - 1;
      var init := children[..n];
      OrderedInit(children);
      assert forall e :: e in init ==> e in children;
      CascadeOverSettles(es, s, init, cType);
      var s0 := CascadeOver(es, s, init, cType);
      assert forall i :: 0 <= i < n ==> children[i] == init[i];
      CascadeStep(es, s0, children, cType);
    }
  }

  /** Reconciling elements none of which is d or an ancestor of d keeps d settled. */
  lemma {:induction false} CascadeOverKeepsSettled(es: seq<Element>, s: Store, children: seq<Element>, d: Element, cType: string)
    requires WellFormed(es) && d in es && d.family == FamilyOf(cType)
    requires forall e :: e in children ==> e in es && e.family == d.family && e != d && !StrictPrefix(e.path, d.path)
    requires Settled(es, s, d, cType)
    ensures Settled(es, CascadeOver(es, s, children, cType), d, cType)
  {
    if children != [] {
      var n := |children| - 1;
      assert forall e :: e in children[..n] ==> e in children;
      CascadeOverKeepsSettled(es, s, children[..n], d, cType);
      assert children[n] in children;
      SettledPreserved(es, CascadeOver(es, s, children[..n], cType), d, children[n], cType);
    }
  }

  /** The listing of obj holds elements of obj's family strictly below obj. */
  lemma ListingBelow(es: seq<Element>, obj: Element)
    ensures forall e :: e in Listing(es, obj) ==>
              e in es && e.family == obj.family && StrictPrefix(obj.path, e.path)
              && e != obj && !StrictPrefix(e.path, obj.path)
  {
  }

  /** Cascade completeness: after checkRestrictionContext on obj, every
      listed descendant, and obj itself unless it is a pure container, is
      settled: an inherited record carries exactly the groups of its
      effective ancestor, and a node without an effective ancestor and
      without an explicit restriction has no record at all. */
  lemma {:induction false} CascadeSettles(es: seq<Element>, s: Store, obj: Element, cType: string)
    requires WellFormed(es) && obj in es && obj.family == FamilyOf(cType)
    ensures forall d :: d in Listing(es, obj) ==> Settled(es, CheckContext(es, s, obj, cType), d, cType)
    ensures !OnlyUpdateChildren(obj) ==> Settled(es, CheckContext(es, s, obj, cType), obj, cType)
  {
    var s1 := if OnlyUpdateChildren(obj) then s else ReconcileNode(es, s, obj, cType);
    var children := Listing(es, obj);
    ListingBelow(es, obj);
    assert Ordered(children) by {
      if !(obj.family == Asset && obj.elementType != "folder") {
        SelectOrdered(es, obj);
      }
    }
    CascadeOverSettles(es, s1, children, cType);
    forall d | d in children
      ensures Settled(es, CheckContext(es, s, obj, cType), d, cType)
    {
      var i :| 0 <= i < |children| && children[i] == d;
    }
    if !OnlyUpdateChildren(obj) {
      ReconcileSettles(es, s, obj, cType);
      CascadeOverKeepsSettled(es, s1, children, obj, cType);
    }
  }

  /** A settled element is a fixed point of reconciliation. */
  lemma SettledIsFixpoint(es: seq<Element>, s: Store, d: Element, cType: string)
    requires Settled(es, s, d, cType)
    ensures ReconcileNode(es, s, d, cType) == s
  {
    var k := (d.id, cType);
    var parent := ParentRestriction(Resolve(es, s, d.id, cType));
    if k in s && s[k].isInherited {
      assert s[k := s[k].(relatedGroups := parent.value.relatedGroups)] == s;
    }
  }

  /** Reconciling elements that are all settled changes nothing. */
  lemma {:induction false} CascadeOverSettledNoop(es: seq<Element>, s: Store, children: seq<Element>, cType: string)
    requires forall e :: e in children ==> Settled(es, s, e, cType)
    ensures CascadeOver(es, s, children, cType) == s
  {
    if children != [] {
      var n := |children| - 1;
      assert forall e :: e in children[..n] ==> e in children;
      CascadeOverSettledNoop(es, s, children[..n], cType);
      assert children[n] in children;
      SettledIsFixpoint(es, s, children[n], cType);
    }
  }

  /** Idempotence: a second checkRestrictionContext right after the first
      changes nothing. */
  lemma CheckContextIdempotent(es: seq<Element>, s: Store, obj: Element, cType: string)
    requires WellFormed(es) && obj in es && obj.family == FamilyOf(cType)
    ensures CheckContext(es, CheckContext(es, s, obj, cType), obj, cType) == CheckContext(es, s, obj, cType)
  {
    var s2 := CheckContext(es, s, obj, cType);
    CascadeSettles(es, s, obj, cType);
    if !OnlyUpdateChildren(obj) {
      SettledIsFixpoint(es, s2, obj, cType);
    }
    CascadeOverSettledNoop(es, s2, Listing(es, obj), cType);
  }

  /** Reconciling the listed elements changes only their own records. */
  lemma {:induction false} CascadeOverFrame(es: seq<Element>, s: Store, children: seq<Element>, cType: string, k: Key)
    requires forall e :: e in children ==> (e.id, cType) != k
    ensures Find(CascadeOver(es, s, children, cType), k) == Find(s, k)
  {
    if children != [] {
      var n := |children| - 1;
      assert forall e :: e in children[..n] ==> e in children;
      CascadeOverFrame(es, s, children[..n], cType, k);
      assert children[n] in children;
    }
  }

  /** A pass writes only obj's own record and those of its listed
      descendants: every other record, of the same content type included, is
      left as it was. */
  lemma CheckContextFrame(es: seq<Element>, s: Store, obj: Element, cType: string, k: Key)
    requires k != (obj.id, cType)
    requires forall e :: e in Listing(es, obj) ==> (e.id, cType) != k
    ensures Find(CheckContext(es, s, obj, cType), k) == Find(s, k)
  {
    var s1 := if OnlyUpdateChildren(obj) then s else ReconcileNode(es, s, obj, cType);
    assert Find(s1, k) == Find(s, k);
    CascadeOverFrame(es, s1, Listing(es, obj), cType, k);
  }

  /** A pure container's own record is left as it was by its own pass. */
  lemma ContainerKeepsOwnRecord(es: seq<Element>, s: Store, obj: Element, cType: string)
    requires WellFormed(es) && obj in es && OnlyUpdateChildren(obj)
    ensures Find(CheckContext(es, s, obj, cType), (obj.id, cType)) == Find(s, (obj.id, cType))
  {
    ListingBelow(es, obj);
    forall e | e in Listing(es, obj)
      ensures (e.id, cType) != (obj.id, cType)
    {
      if e.id == obj.id {
        Unique(es, e, obj);
      }
    }
    CascadeOverFrame(es, s, Listing(es, obj), cType, (obj.id, cType));
  }

  /** An explicit restriction created by createRestriction survives the
      propagation that follows it unchanged. */
  lemma CreatedExplicitSurvives(es: seq<Element>, s: Store, obj: Element, cType: string, inheritable: bool, groups: seq<int>)
    requires groups != []
    ensures Find(CheckContext(es, Upserted(s, obj.id, cType, inheritable, false, groups), obj, cType), (obj.id, cType))
            == Some(Restriction(inheritable, false, groups))
  {
  }

  /** Reconciling the listed elements keeps every stored group list non-empty. */
  lemma {:induction false} CascadeOverKeepsGroups(es: seq<Element>, s: Store, children: seq<Element>, cType: string)
    requires NoEmptyGroups(s)
    ensures NoEmptyGroups(CascadeOver(es, s, children, cType))
  {
    if children != [] {
      CascadeOverKeepsGroups(es, s, children[..|children| - 1], cType);
    }
  }

  /** A pass keeps the invariant that no record has an empty group list. */
  lemma CheckContextKeepsGroups(es: seq<Element>, s: Store, obj: Element, cType: string)
    requires NoEmptyGroups(s)
    ensures NoEmptyGroups(CheckContext(es, s, obj, cType))
  {
    var s1 := if OnlyUpdateChildren(obj) then s else ReconcileNode(es, s, obj, cType);
    CascadeOverKeepsGroups(es, s1, Listing(es, obj), cType);
  }

  /** createRestriction as a whole keeps the invariant: its own write never
      stores an empty group list, and the pass after it keeps it. */
  lemma CreateKeepsGroups(es: seq<Element>, s: Store, obj: Element, cType: string, inheritable: bool, isInherited: bool, groups: seq<int>)
    requires NoEmptyGroups(s)
    ensures NoEmptyGroups(CheckContext(es, Upserted(s, obj.id, cType, inheritable, isInherited, groups), obj, cType))
  {
    var w := Upserted(s, obj.id, cType, inheritable, isInherited, groups);
    assert NoEmptyGroups(w) by {
      forall k | k in w
        ensures w[k].relatedGroups != []
      {
        if k != (obj.id, cType) {
          assert Find(w, k) == Find(s, k);
        }
      }
    }
    CheckContextKeepsGroups(es, w, obj, cType);
  }
}

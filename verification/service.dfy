/** The restriction service: the facade the event hooks call. It holds the
    restriction repository as a map it updates in place; the element store is
    given and only read. */
module Service {
  import opened Domain
  import opened Resolver
  import opened Reconciler
  import opened Cascade

  datatype ServiceError = InvalidCType(cType: string)

  datatype Result<T> = Ok(value: T) | Err(error: ServiceError)

  /** The list findClosestInheritanceParent builds from its two loops: "/" and then each
      cumulative prefix of the non-empty segments, reversed so that the
      parent comes first. */
  method BuildAncestorPaths(realPath: seq<string>) returns (paths: seq<seq<string>>)
    ensures paths == AncestorPaths(realPath)
  {
    paths := [[]];
    var tmpPaths: seq<string> := [];
    var j := 0;
    while j < |realPath|
      invariant 0 <= j <= |realPath|
      invariant tmpPaths == NonEmptyParts(realPath[..j])
      invariant paths == Cumulative(tmpPaths)
    {
      assert realPath[..j + 1][..j] == realPath[..j];
      if realPath[j] != "" {
        var next := tmpPaths + [realPath[j]];
        CumulativeSnoc(tmpPaths, realPath[j]);
        tmpPaths := next;
        paths := paths + [tmpPaths];
      }
      j := j + 1;
    }
    assert realPath[..j] == realPath;
    ReversedCumulative(tmpPaths);
    paths := Reversed(paths);
  }

  class RestrictionService {
    /** The element store (read only). */
    const elements: seq<Element>
    /** The restriction repository. */
    var store: Store
    /** Set once the "members" cache tag has been cleared. */
    ghost var cacheCleared: bool

    constructor (elements: seq<Element>, store: Store)
      ensures this.elements == elements && this.store == store && !cacheCleared
    {
      this.elements := elements;
      this.store := store;
      cacheCleared := false;
    }

    /** Assign (or, with no groups, clear) the restriction of obj for cType,
        then propagate. Fails, without touching the store, for a content type
        other than "asset", "page" and "object". Returns the record it wrote
        (with no groups: the record it removed, if any). */
    method CreateRestriction(obj: Element, cType: string, inheritable: bool, isInherited: bool, userGroupIds: seq<int>)
      returns (r: Result<Option<Restriction>>)
      modifies this
      ensures cType !in AllowedRestrictionCTypes ==>
                r == Err(InvalidCType(cType)) && store == old(store) && cacheCleared == old(cacheCleared)
      ensures cType in AllowedRestrictionCTypes ==>
                r == Ok(if userGroupIds == [] then Find(old(store), (obj.id, cType))
                        else Some(Restriction(inheritable, isInherited, userGroupIds)))
                && store == CheckContext(elements, Upserted(old(store), obj.id, cType, inheritable, isInherited, userGroupIds), obj, cType)
                && cacheCleared
      // no record ever holds an empty group list
      ensures old(NoEmptyGroups(store)) ==> NoEmptyGroups(store)
    {
      if cType !in AllowedRestrictionCTypes {
        return Err(InvalidCType(cType));
      }
      var key := (obj.id, cType);
      var restriction := Find(store, key);
      if userGroupIds == [] {
        if restriction.Some? {
          store := store - {key};
        }
      } else {
        // an existing record is reused, but every field is overwritten
        restriction := Some(Restriction(inheritable, isInherited, userGroupIds));
        store := store[key := restriction.value];
      }
      assert store == Upserted(old(store), obj.id, cType, inheritable, isInherited, userGroupIds);
      CheckRestrictionContext(obj, cType);
      if old(NoEmptyGroups(store)) {
        CreateKeepsGroups(elements, old(store), obj, cType, inheritable, isInherited, userGroupIds);
      }
      cacheCleared := true;
      r := Ok(restriction);
    }

    /** Pre-deletion hook: remove obj's own record for cType, if any; no
        propagation. */
    method DeleteRestriction(obj: Element, cType: string) returns (ok: bool)
      modifies this`store
      ensures ok
      ensures store == old(store) - {(obj.id, cType)}
      ensures AgreeExcept(old(store), store, (obj.id, cType))
    {
      var restriction := Find(store, (obj.id, cType));
      if restriction.Some? {
        store := store - {(obj.id, cType)};
      }
      ok := true;
    }

    /** Post-move hook (and the propagation step of CreateRestriction):
        reconcile obj unless it is a pure container, then its descendants. */
    method CheckRestrictionContext(obj: Element, cType: string)
      modifies this`store
      ensures store == CheckContext(elements, old(store), obj, cType)
      ensures old(NoEmptyGroups(store)) ==> NoEmptyGroups(store)
    {
      if NoEmptyGroups(store) {
        CheckContextKeepsGroups(elements, store, obj, cType);
      }
      var restriction := Find(store, (obj.id, cType));
      var parentRestriction: Option<Restriction> := None;
      var closest := FindClosestInheritanceParent(obj.id, cType);
      if closest.id.Some? {
        parentRestriction := closest.restriction;
      }
      if !OnlyUpdateChildren(obj) {
        UpdateRestrictionContext(obj, cType, restriction, parentRestriction);
      }
      UpdateChildren(obj, cType);
    }

    /** Reconcile every listed descendant of obj, shallowest first, each with
        a fresh lookup of its own record and of its effective ancestor. */
    method UpdateChildren(obj: Element, cType: string)
      modifies this`store
      ensures store == CascadeOver(elements, old(store), Listing(elements, obj), cType)
    {
      var children := Listing(elements, obj);
      var i := 0;
      while i < |children|
        invariant 0 <= i <= |children|
        invariant store == CascadeOver(elements, old(store), children[..i], cType)
      {
        var child := children[i];
        var childRestriction := Find(store, (child.id, cType));
        var parentRestriction: Option<Restriction> := None;
        var closest := FindClosestInheritanceParent(child.id, cType);
        if closest.id.Some? {
          parentRestriction := closest.restriction;
        }
        UpdateRestrictionContext(child, cType, childRestriction, parentRestriction);
        assert children[..i + 1][..i] == children[..i];
        i := i + 1;
      }
      assert children[..i] == children;
    }

    /** The ancestor resolver: the effective ancestor of the element with id
        elementId for cType, reading the store only. */
    method FindClosestInheritanceParent(elementId: int, cType: string) returns (c: Closest)
      ensures c == Resolve(elements, store, elementId, cType)
    {
      var family := FamilyOf(cType);
      var found := GetById(elements, family, elementId);
      if found.None? {
        return NoParent;
      }
      var obj := found.value;
      var currentRestriction := Find(store, (obj.id, cType));
      if currentRestriction.Some? && !currentRestriction.value.isInherited {
        return NoParent;
      }
      var paths := BuildAncestorPaths(RealPath(obj.path));
      var parentId: Option<int> := None;
      var restriction: Option<Restriction> := None;
      var i := 0;
      while i < |paths|
        invariant 0 <= i <= |paths|
        invariant Scan(elements, store, family, paths, cType) == Scan(elements, store, family, paths[i..], cType)
        invariant parentId == None && restriction == None
      {
        var el := GetByPath(elements, family, paths[i]);
        if el.Some? {
          var r := Find(store, (el.value.id, cType));
          if r.Some? {
            if Propagates(r.value) {
              parentId := Some(el.value.id);
            }
            restriction := r;
            break;
          }
        }
        i := i + 1;
      }
      c := Closest(parentId, restriction);
    }

    /** The reconciler applied to the store: create, update, delete or leave
        the record of obj for cType. */
    method UpdateRestrictionContext(obj: Element, cType: string, objectRestriction: Option<Restriction>, parentRestriction: Option<Restriction>)
      modifies this`store
      ensures store == Reconciled(old(store), (obj.id, cType), objectRestriction, parentRestriction)
    {
      var key := (obj.id, cType);
      if parentRestriction.None? && objectRestriction.None? {
        return;
      }
      if parentRestriction.Some? && objectRestriction.None? {
        store := store[key := Restriction(DefaultInherit, true, parentRestriction.value.relatedGroups)];
        return;
      }
      if parentRestriction.None? && objectRestriction.Some? {
        if objectRestriction.value.isInherited {
          store := store - {key};
          return;
        }
      }
      if parentRestriction.Some? && objectRestriction.Some? {
        if objectRestriction.value.isInherited {
          if !parentRestriction.value.inherit && !parentRestriction.value.isInherited {
            store := store - {key};
          } else {
            store := store[key := objectRestriction.value.(relatedGroups := parentRestriction.value.relatedGroups)];
          }
          return;
        }
      }
    }
  }
}

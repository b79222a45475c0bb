/** Shared vocabulary of the restriction engine: content types, the elements of
    the element store, restriction records and the keyed restriction store. */
module Domain {

  datatype Option<T> = None | Some(value: T)

  /** The content types a restriction may be created for. */
  const AllowedRestrictionCTypes: seq<string> := ["asset", "page", "object"]

  /** The three element hierarchies of the element store. */
  datatype Family = Document | Asset | DataObject

  /** The hierarchy in which a content type is resolved: "object" and "asset"
      name their own hierarchy, every other content type is a document one. */
  function FamilyOf(cType: string): (f: Family)
    ensures f == DataObject <==> cType == "object"
    ensures f == Asset <==> cType == "asset"
    ensures cType in AllowedRestrictionCTypes ==> (f == Document <==> cType == "page")
  {
    if cType == "object" then DataObject
    else if cType == "asset" then Asset
    else Document
  }

  /** An element of the element store: its id (unique within its family), its
      family, its type within the family ("page", "link", "folder", "object",
      "variant", "image", ...) and its full path as a sequence of segments
      (the root has none). */
  datatype Element = Element(id: int, family: Family, elementType: string, path: seq<string>)

  /** A restriction record. The target id and content type it belongs to are
      the key under which the store holds it. */
  datatype Restriction = Restriction(inherit: bool, isInherited: bool, relatedGroups: seq<int>)

  /** A restriction that descendants may inherit from. */
  predicate Propagates(r: Restriction)
  {
    r.inherit || r.isInherited
  }

  /** (targetId, cType) */
  type Key = (int, string)

  /** The restriction repository: at most one record per (targetId, cType). */
  type Store = map<Key, Restriction>

  /** Restriction::getByTargetId, with "not found" as None. */
  function Find(s: Store, k: Key): (r: Option<Restriction>)
    ensures r.Some? <==> k in s
    ensures r.Some? ==> r.value == s[k]
  {
    if k in s then Some(s[k]) else None
  }

  /** The record at k is an explicit (operator-assigned) one. */
  predicate Explicit(s: Store, k: Key)
  {
    k in s && !s[k].isInherited
  }

  /** No stored record has an empty group list: clearing a record's groups
      deletes it. */
  ghost predicate NoEmptyGroups(s: Store)
  {
    forall k :: k in s ==> s[k].relatedGroups != []
  }

  /** The two stores hold the same records everywhere except possibly at k. */
  ghost predicate AgreeExcept(s: Store, s': Store, k: Key)
  {
    forall k' :: k' != k ==> Find(s, k') == Find(s', k')
  }

  predicate Prefix(a: seq<string>, b: seq<string>)
  {
    |a| <= |b| && a == b[..|a|]
  }

  /** a is the path of a proper ancestor of b. */
  predicate StrictPrefix(a: seq<string>, b: seq<string>)
  {
    |a| < |b| && a == b[..|a|]
  }

  predicate NoEmptySegments(p: seq<string>)
  {
    forall k :: 0 <= k < |p| ==> p[k] != ""
  }

  /** a comes before b in the element store: they are different elements
      (different id, different path) and b is not an ancestor of a. */
  predicate Apart(a: Element, b: Element)
  {
    a.id != b.id && a.path != b.path && !StrictPrefix(b.path, a.path)
  }

  /** Within a family, ids and paths are unique and no element is listed after
      one of its descendants (what ordering by path length guarantees). */
  ghost predicate Ordered(es: seq<Element>)
  {
    forall i, j :: 0 <= i < j < |es| && es[i].family == es[j].family ==> Apart(es[i], es[j])
  }

  /** The element store: ordered, and every path made of non-empty segments. */
  ghost predicate WellFormed(es: seq<Element>)
  {
    Ordered(es) && forall e :: e in es ==> NoEmptySegments(e.path)
  }

  /** Element\Service::getElementById within one family. */
  function GetById(es: seq<Element>, f: Family, id: int): (r: Option<Element>)
    ensures r.Some? ==> r.value in es && r.value.family == f && r.value.id == id
    ensures r.None? ==> forall e :: e in es ==> !(e.family == f && e.id == id)
  {
    if es == [] then None
    else if es[0].family == f && es[0].id == id then Some(es[0])
    else GetById(es[1..], f, id)
  }

  /** getByPath of the family's element class. */
  function GetByPath(es: seq<Element>, f: Family, p: seq<string>): (r: Option<Element>)
    ensures r.Some? ==> r.value in es && r.value.family == f && r.value.path == p
    ensures r.None? ==> forall e :: e in es ==> !(e.family == f && e.path == p)
  {
    if es == [] then None
    else if es[0].family == f && es[0].path == p then Some(es[0])
    else GetByPath(es[1..], f, p)
  }

  /** In an ordered store an element is determined by its family and its id,
      and by its family and its path. */
  lemma {:induction false} Unique(es: seq<Element>, a: Element, b: Element)
    requires Ordered(es) && a in es && b in es
    requires a.family == b.family && (a.id == b.id || a.path == b.path)
    ensures a == b
  {
    var i :| 0 <= i < |es| && es[i] == a;
    var j :| 0 <= j < |es| && es[j] == b;
    assert i == j;
  }

  /** Looking an element of a well-formed store up by its id finds it. */
  lemma {:induction false} GetByIdFinds(es: seq<Element>, d: Element)
    requires Ordered(es) && d in es
    ensures GetById(es, d.family, d.id) == Some(d)
  {
    var r := GetById(es, d.family, d.id);
    Unique(es, r.value, d);
  }

  /** Looking an element of a well-formed store up by its path finds it. */
  lemma {:induction false} GetByPathFinds(es: seq<Element>, d: Element)
    requires Ordered(es) && d in es
    ensures GetByPath(es, d.family, d.path) == Some(d)
  {
    var r := GetByPath(es, d.family, d.path);
    Unique(es, r.value, d);
  }
}

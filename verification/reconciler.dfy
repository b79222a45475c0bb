/** The reconciler (updateRestrictionContext): a decision table from a node's
    own restriction and its effective ancestor's restriction to the node's
    next record. */
module Reconciler {
  import opened Domain

  /** The inherit flag of a freshly constructed restriction record; records
      created by inheritance never set it. */
  const DefaultInherit := false

  /** The store after reconciling the record at k, given the node's own
      restriction (as looked up by the caller) and the parent restriction
      passed on by the caller. */
  function Reconciled(s: Store, k: Key, own: Option<Restriction>, parent: Option<Restriction>): (r: Store)
    // only the node's own record can change
    ensures AgreeExcept(s, r, k)
    // an explicit restriction is never modified or deleted
    ensures own.Some? && !own.value.isInherited ==> r == s
    // with neither an own nor a parent restriction nothing happens
    ensures own.None? && parent.None? ==> r == s
    // reconciliation never produces an explicit record
    ensures Explicit(r, k) ==> r == s
  {
    match own
    case None =>
      (match parent
       case None => s
       case Some(p) => s[k := Restriction(DefaultInherit, true, p.relatedGroups)])
    case Some(o) =>
      if !o.isInherited then s
      else
        match parent
        case None => s - {k}
        case Some(p) =>
          if !p.inherit && !p.isInherited then s - {k}
          else s[k := o.(relatedGroups := p.relatedGroups)]
  }

  /** The outcomes of the table for a node without an explicit restriction:
      a parent restriction is copied into an inherited record (created or
      updated), unless it propagates in neither sense, and an inherited
      record without a parent restriction is deleted. */
  lemma ReconcileOutcomes(s: Store, k: Key, own: Option<Restriction>, parent: Option<Restriction>)
    requires own.None? || own.value.isInherited
    ensures var r := Reconciled(s, k, own, parent);
            (own.None? && parent.Some? ==>
               Find(r, k) == Some(Restriction(DefaultInherit, true, parent.value.relatedGroups)))
            && (own.Some? && parent.None? ==> k !in r)
            && (own.Some? && parent.Some? && !Propagates(parent.value) ==> k !in r)
            && (own.Some? && parent.Some? && Propagates(parent.value) ==>
                  Find(r, k) == Some(own.value.(relatedGroups := parent.value.relatedGroups)))
  {
  }

  /** Reconciling a second time, against the same parent restriction and with
      a fresh lookup of the node's own record, changes nothing, provided the
      parent restriction (if any) propagates. */
  lemma ReconcileIdempotent(s: Store, k: Key, parent: Option<Restriction>)
    requires parent.None? || Propagates(parent.value)
    ensures var s1 := Reconciled(s, k, Find(s, k), parent);
            Reconciled(s1, k, Find(s1, k), parent) == s1
  {
    var s1 := Reconciled(s, k, Find(s, k), parent);
    match parent
    case None =>
    case Some(p) =>
      if k in s1 && s1[k].isInherited {
        assert s1[k].relatedGroups == p.relatedGroups;
        assert s1[k := s1[k].(relatedGroups := p.relatedGroups)] == s1;
      }
  }

  /** Against a parent restriction that propagates in neither sense, the
      table is not idempotent: the first run creates an inherited record and
      the second deletes it again. */
  lemma ReconcileFlipsOnNonPropagatingParent(k: Key)
    ensures var p := Restriction(false, false, [7]);
            var s1 := Reconciled(map[], k, None, Some(p));
            k in s1 && k !in Reconciled(s1, k, Find(s1, k), Some(p))
  {
  }
}

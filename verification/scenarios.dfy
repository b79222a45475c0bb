/** Two small trees worked through a full pass. */
module Scenarios {
  import opened Domain
  import opened Reconciler
  import opened Resolver
  import opened Cascade

  // "/x" with an explicit restriction that does not propagate, "/x/y" with none
  const XRoot := Element(1, Document, "page", [])
  const X := Element(2, Document, "page", ["x"])
  const Y := Element(3, Document, "page", ["x", "y"])
  const XTree := [XRoot, X, Y]
  const XOnly: Store := map[(2, "page") := Restriction(false, false, [3])]

  lemma XTreeFacts()
    ensures Listing(XTree, X) == [Y]
    ensures AncestorPaths(RealPath(Y.path)) == [["x"], []]
    ensures GetByPath(XTree, Document, ["x"]) == Some(X)
    ensures GetById(XTree, Document, 3) == Some(Y)
  {
    assert !InListing(X, XRoot) && !InListing(X, X) && InListing(X, Y);
    assert XTree[1..] == [X, Y] && [X, Y][1..] == [Y] && [Y][1..] == [];
    assert Select([Y], X) == [Y];
    assert Select([X, Y], X) == [Y];
    assert Select(XTree, X) == [Y];
    assert RealPath(Y.path) == ["x"];
    assert NoEmptySegments(["x"]);
    var paths := AncestorPaths(["x"]);
    assert |paths| == 2 && paths[0] == ["x"] && paths[1] == [];
  }

  /** A pass on "/x" leaves everything as it was: the search for "/x/y" stops
      at "/x" and reports no ancestor. */
  lemma NonPropagatingBoundary()
    ensures ParentRestriction(Resolve(XTree, XOnly, 3, "page")) == None
    ensures CheckContext(XTree, XOnly, X, "page") == XOnly
  {
    XTreeFacts();
    assert Resolve(XTree, XOnly, 3, "page") == Closest(None, Some(Restriction(false, false, [3])));
    assert ReconcileNode(XTree, XOnly, X, "page") == XOnly;
    assert ReconcileNode(XTree, XOnly, Y, "page") == XOnly;
    assert [Y][..0] == [];
    assert CascadeOver(XTree, XOnly, [Y], "page") == XOnly;
  }

  // "/" with no restriction, "/r" with a propagating one, "/r/a" with none,
  // "/r/a/b" with an explicit one
  const Root := Element(1, Document, "page", [])
  const R := Element(2, Document, "page", ["r"])
  const A := Element(3, Document, "page", ["r", "a"])
  const B := Element(4, Document, "page", ["r", "a", "b"])
  const Tree := [Root, R, A, B]
  const Before: Store := map[(2, "page") := Restriction(true, false, [1]), (4, "page") := Restriction(false, false, [2])]
  const OnlyB: Store := map[(4, "page") := Restriction(false, false, [2])]
  // after a pass on "/r": "/r/a" holds an inherited copy of "/r"'s groups
  const After: Store := Before[(3, "page") := Restriction(false, true, [1])]
  // after "/r"'s groups are cleared, before the pass
  const Cleared: Store := OnlyB[(3, "page") := Restriction(false, true, [1])]

  lemma TreeListing()
    ensures Listing(Tree, R) == [A, B]
  {
    assert !InListing(R, Root) && !InListing(R, R) && InListing(R, A) && InListing(R, B);
    assert Tree[1..] == [R, A, B] && [R, A, B][1..] == [A, B] && [A, B][1..] == [B] && [B][1..] == [];
    assert Select([B], R) == [B];
    assert Select([A, B], R) == [A, B];
    assert Select([R, A, B], R) == [A, B];
  }

  lemma TreeLookups()
    ensures GetByPath(Tree, Document, []) == Some(Root) && GetByPath(Tree, Document, ["r"]) == Some(R)
    ensures GetById(Tree, Document, 2) == Some(R) && GetById(Tree, Document, 3) == Some(A)
  {
    assert Tree[1..] == [R, A, B];
  }

  lemma TreePaths()
    ensures AncestorPaths(RealPath(R.path)) == [[]] && AncestorPaths(RealPath(A.path)) == [["r"], []]
  {
    var rootPaths := AncestorPaths([]);
    assert |rootPaths| == 1 && rootPaths[0] == [];
    assert RealPath(A.path) == ["r"];
    assert NoEmptySegments(["r"]);
    var paths := AncestorPaths(["r"]);
    assert |paths| == 2 && paths[0] == ["r"] && paths[1] == [];
  }

  lemma ScanUnderR()
    ensures Scan(Tree, Before, Document, [["r"], []], "page") == Closest(Some(2), Some(Restriction(true, false, [1])))
  {
    TreeLookups();
  }

  lemma ResolveUnderR()
    ensures Resolve(Tree, Before, 3, "page") == Closest(Some(2), Some(Restriction(true, false, [1])))
  {
    TreeLookups();
    TreePaths();
    ScanUnderR();
  }

  lemma PropagateToA()
    ensures ReconcileNode(Tree, Before, A, "page") == After
  {
    ResolveUnderR();
    var parent := ParentRestriction(Resolve(Tree, Before, 3, "page"));
    assert parent == Some(Restriction(true, false, [1]));
    assert (3, "page") !in Before;
    assert ReconcileNode(Tree, Before, A, "page") == Reconciled(Before, (3, "page"), None, parent);
  }

  lemma CascadeBelowR()
    ensures CascadeOver(Tree, Before, [A, B], "page") == After
  {
    assert [A, B][..1] == [A] && [A][..0] == [];
    PropagateToA();
    assert CascadeOver(Tree, Before, [A], "page") == After;
  }

  /** A pass on "/r" gives "/r/a" an inherited copy of "/r"'s groups and
      leaves the explicit "/r/a/b" alone. */
  lemma PropagationToChild()
    ensures CheckContext(Tree, Before, R, "page") == After
  {
    TreeListing();
    assert ReconcileNode(Tree, Before, R, "page") == Before;
    CascadeBelowR();
  }

  lemma ScanRootAfterClearing()
    ensures Scan(Tree, Cleared, Document, [[]], "page") == NoParent
  {
    TreeLookups();
    var paths: seq<seq<string>> := [[]];
    assert paths[1..] == [];
  }

  lemma ScanUnderRAfterClearing()
    ensures Scan(Tree, Cleared, Document, [["r"], []], "page") == NoParent
  {
    TreeLookups();
    var paths: seq<seq<string>> := [["r"], []];
    assert paths[1..] == [[]];
    ScanRootAfterClearing();
  }

  lemma ResolveAfterClearing()
    ensures Resolve(Tree, Cleared, 2, "page") == NoParent
    ensures Resolve(Tree, Cleared, 3, "page") == NoParent
  {
    TreeLookups();
    TreePaths();
    ScanRootAfterClearing();
    ScanUnderRAfterClearing();
  }

  lemma WithdrawFromA()
    ensures ReconcileNode(Tree, Cleared, A, "page") == OnlyB
  {
    ResolveAfterClearing();
    assert Cleared - {(3, "page")} == OnlyB;
  }

  lemma CascadeAfterClearing()
    ensures CascadeOver(Tree, Cleared, [A, B], "page") == OnlyB
  {
    assert [A, B][..1] == [A] && [A][..0] == [];
    WithdrawFromA();
    assert CascadeOver(Tree, Cleared, [A], "page") == OnlyB;
  }

  /** Clearing "/r"'s groups afterwards (createRestriction with no groups)
      deletes "/r/a"'s inherited record and again leaves "/r/a/b" alone. */
  lemma WithdrawalFromChild()
    ensures CheckContext(Tree, Upserted(After, 2, "page", true, false, []), R, "page") == OnlyB
  {
    assert Upserted(After, 2, "page", true, false, []) == Cleared;
    TreeListing();
    ResolveAfterClearing();
    assert ReconcileNode(Tree, Cleared, R, "page") == Cleared;
    CascadeAfterClearing();
  }
}

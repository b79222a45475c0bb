# Restriction propagation in the Members bundle

This project models the restriction engine of `RestrictionService`. The engine decides which user groups may see each element of Pimcore's three element trees: documents, assets and data objects. A restriction record belongs to one element and one content type (`asset`, `page` or `object`). It carries three fields:
- `inherit`: descendants may inherit from it.
- `isInherited`: the record was derived from an ancestor rather than assigned by an operator.
- `relatedGroups`: the groups that may see the element.

Explicit records (`isInherited = false`) are operator intent. Inherited records must always carry the groups of the element's *effective ancestor*. That ancestor is found as follows:
- The search walks from the parent up to `/`.
- The first ancestor holding any restriction for the content type ends the search.
- That ancestor is the effective one only if its restriction propagates (`inherit` or `isInherited`).

The model has five modules:

- `Domain` (domain.dfy): content types, families and elements. It also defines the restriction record and the repository, a map keyed by (target id, content type), so there is at most one record per key. The element store is a sequence of elements. Within a family, ids and paths are unique, and no element comes after one of its descendants.
- `Resolver` (resolver.dfy): the specification of `findClosestInheritanceParent`. It builds the ancestor path list, scans it, and proves which ancestor is reported.
- `Reconciler` (reconciler.dfy): the decision table of `updateRestrictionContext`, as a function on the store.
- `Cascade` (cascade.dfy): the specification of `onlyUpdateChildren`, the descendant listing, `updateChildren` and `checkRestrictionContext`. Its lemmas cover:
  - completeness: after a pass every reconciled node is *settled*, meaning an inherited record carries exactly its effective ancestor's groups;
  - idempotence;
  - precedence of explicit records;
  - independence of content types.
- `Service` (service.dfy): the `RestrictionService` class. It holds the repository as a `map` field. Its methods loop and write as the PHP does (with the corrected segment filter; see ## Findings), and each is proved equal to the specification functions above.
- `Scenarios` (scenarios.dfy): two small trees worked through complete passes.

Collaborators that are not part of the model appear as follows:
- The element store (`getElementById`, `getByPath`, the listings) is the parameter `elements`.
- The `Restriction` DAO is the `store` map.
- Clearing the `members` cache tag is the ghost flag `cacheCleared`.

`getRealPath()` is not part of this model. It is taken to be the element's parent path, and `/` for the root. The resolver's list always starts from `/`, so the root's only searched path is its own (`Resolver.AncestorPathsOfElement`). The `Restriction` class is not part of this model either. Its `inherit` flag is taken to default to `false`, which is what records created by inheritance carry (`Reconciler.DefaultInherit`).

`onlyUpdateChildren` (:336-345) skips the element's own reconciliation in two cases: data-object folders, and documents other than pages and links. For an element class outside the three families it returns null, so the `=== false` test at :118 fails and the element's own reconciliation is skipped as well. The model's families form a closed datatype, so that last case cannot arise.

## Model

| member | source | states |
|---|---|---|
| `Domain.FamilyOf` | src/MembersBundle/Service/RestrictionService.php:186-191 | `object` and `asset` select their own tree. Every other content type, `page` among the allowed ones, selects documents. |
| `Domain.Find` | src/MembersBundle/Service/RestrictionService.php:32-36 | A lookup finds a record exactly when the key is present, and then it is the stored record. A "not found" exception becomes None. |
| `Domain.GetById` | src/MembersBundle/Service/RestrictionService.php:206-210 | The element found has the requested family and id. None means no element of that family has the id. |
| `Domain.GetByPath` | src/MembersBundle/Service/RestrictionService.php:250-252 | The element found has the requested family and path. None means no element of that family has the path. |
| `Resolver.RealPath` | src/MembersBundle/Service/RestrictionService.php:222 | For any element other than the root, the path searched from is the parent's path: a proper ancestor exactly one segment shorter. |
| `Resolver.AncestorPathsOfNonRoot` | src/MembersBundle/Service/RestrictionService.php:222-235 | For an element below the root, every proper ancestor is searched, from the parent up to `/`, one level at a time. |
| `Resolver.ParentRestriction` | src/MembersBundle/Service/RestrictionService.php:114-116 | The restriction is passed on (here and at :170-172) exactly when the resolver reported an ancestor id. Without an id nothing is passed on. |
| `Resolver.NonEmptyParts` | src/MembersBundle/Service/RestrictionService.php:226 | Corrected segment filter. The result has no empty segment, and a string is in it exactly when it is a non-empty segment of the input. A path without empty segments comes back unchanged. |
| `Resolver.NonEmptyPartsConcat` | src/MembersBundle/Service/RestrictionService.php:226 | Filtering two parts of a path separately and joining the results equals filtering the whole path. So every non-empty segment is kept, in its place and in order. |
| `Resolver.AncestorPathsShape` | src/MembersBundle/Service/RestrictionService.php:222-235 | For any parent path, the list has one entry more than the filtered segments. Entry i is the prefix i levels above the parent, and the last entry is `/`. |
| `Resolver.AncestorPathsArePrefixes` | src/MembersBundle/Service/RestrictionService.php:224-235 | For a path of non-empty segments, the list holds every prefix of the parent path, closest first, and ends with `/`. |
| `Resolver.AncestorPathsOfElement` | src/MembersBundle/Service/RestrictionService.php:222-235 | Every path searched for an element is a proper ancestor's path. The root is the exception: it searches only `/`, its own path. |
| `Resolver.PhpTruthyParts` | src/MembersBundle/Service/RestrictionService.php:226 | `array_filter` as written: a string is kept exactly when it is a segment of the input other than `""` and `"0"`. |
| `Resolver.AncestorPathsAsWritten` | src/MembersBundle/Service/RestrictionService.php:222-235 | The list as the loop builds it from the as-written filter. It has one entry per kept segment plus `/`, each entry a prefix of the kept segments one level shorter than the last, ending with `/`. |
| `Resolver.ZeroSegmentMisplacesAncestor` | src/MembersBundle/Service/RestrictionService.php:226 | As written, the list for parent path `/0/a/` is `/a`, `/`. `/a` is not an ancestor, and `/0/a` and `/0` are skipped. The corrected list is `/0/a`, `/0`, `/`. |
| `Resolver.ReversedCumulative` | src/MembersBundle/Service/RestrictionService.php:224-235 | Reversing the list of `/` and the cumulative prefixes gives the closest-first list. |
| `Resolver.Scan` | src/MembersBundle/Service/RestrictionService.php:250-270 | An ancestor id is reported only together with a restriction that propagates. Any restriction returned is the one found at one of the searched paths, and so a record held in the repository. |
| `Resolver.Resolve` | src/MembersBundle/Service/RestrictionService.php:184-278 | A reported ancestor always carries a propagating restriction, so the id is null otherwise. An element with an explicit restriction of its own gets no ancestor. Any restriction returned is a record held in the repository. |
| `Resolver.ResolveNoAncestor` | src/MembersBundle/Service/RestrictionService.php:206-220 | A missing element, or one whose own restriction is explicit, gets the all-null result. |
| `Resolver.ScanStopsAtFirst` | src/MembersBundle/Service/RestrictionService.php:250-268 | The first searched path whose element holds a restriction decides the result. It reports that element if its restriction propagates, and no ancestor otherwise. |
| `Resolver.ScanFindsNothing` | src/MembersBundle/Service/RestrictionService.php:250-277 | If no searched path holds a restriction, the result is all null. |
| `Resolver.ScanIgnoresFartherAncestors` | src/MembersBundle/Service/RestrictionService.php:260-267 | Once a closer ancestor holds any restriction, the restrictions of farther ancestors cannot change the result. |
| `Resolver.ScanFrame` | src/MembersBundle/Service/RestrictionService.php:250-258 | The scan reads the repository only at the elements on the searched paths. |
| `Resolver.ResolveFrame` | src/MembersBundle/Service/RestrictionService.php:212-258 | An element's resolution reads only two things: whether its own record is explicit, and its ancestors' records. A change anywhere else leaves it unchanged. |
| `Reconciler.Reconciled` | src/MembersBundle/Service/RestrictionService.php:289-329 | Only the node's own record can change. An explicit own restriction is never modified or deleted. With neither an own nor a parent restriction nothing happens. The table never produces an explicit record. |
| `Reconciler.ReconcileOutcomes` | src/MembersBundle/Service/RestrictionService.php:298-327 | No own record and a parent: a new inherited record with the parent's groups. Inherited record and no parent: deleted. Inherited record and a parent propagating in neither sense: deleted. Inherited record and any other parent: the groups become the parent's. |
| `Reconciler.ReconcileIdempotent` | src/MembersBundle/Service/RestrictionService.php:298-327 | With no parent, or a propagating one, a second run with a fresh own lookup changes nothing. |
| `Reconciler.ReconcileFlipsOnNonPropagatingParent` | src/MembersBundle/Service/RestrictionService.php:317-324 | Against a parent propagating in neither sense the table is not idempotent. The first run creates a record and the second deletes it. |
| `Cascade.OnlyUpdateChildren` | src/MembersBundle/Service/RestrictionService.php:336-345 | A data object is a pure container exactly when it is a folder. A document is one exactly when it is neither a page nor a link. An asset never is. A pure container is never selected by any listing, so no pass reconciles it. |
| `Cascade.ListedKindsReconcileThemselves` | src/MembersBundle/Service/RestrictionService.php:336-345 | Every element a listing selects is one that reconciles itself when a pass targets it. For documents the two notions coincide, so pure containers are never reconciled. |
| `Cascade.PassedParentPropagates` | src/MembersBundle/Service/RestrictionService.php:114-116 | A caller passes on only a propagating parent restriction. The deletion for a parent propagating in neither sense is therefore unreachable during a pass. |
| `Cascade.Select` | src/MembersBundle/Service/RestrictionService.php:135-147 | The listing holds exactly the descendants of the element in its own family: type `object` for data objects, `page` or `link` for documents, and any type for assets. The order is stated by `Cascade.SelectOrdered`. |
| `Cascade.Listing` | src/MembersBundle/Service/RestrictionService.php:132-158 | An asset that is not a folder gets no listing (:143, :149-151). Otherwise the listing holds exactly the elements `Select` picks. |
| `Cascade.ListingBelow` | src/MembersBundle/Service/RestrictionService.php:137-145 | Every listed element lies strictly below the element and is neither the element nor one of its ancestors. |
| `Cascade.SelectOrdered` | src/MembersBundle/Service/RestrictionService.php:138-146 | The listing keeps the shallowest-first order: no listed element comes after one of its descendants. |
| `Cascade.Upserted` | src/MembersBundle/Service/RestrictionService.php:39-54 | An empty group list leaves no record for (id, cType). Otherwise exactly one record holds the given flags and groups. No other record changes. |
| `Cascade.ReconcileNode` | src/MembersBundle/Service/RestrictionService.php:160-175 | One element is reconciled against a fresh lookup of its own record and a fresh resolution. Only its own record can change. An explicit own record leaves the store as it was. The store keeps the property that no record has an empty group list. |
| `Cascade.CascadeOver` | src/MembersBundle/Service/RestrictionService.php:160-175 | Reconciling the listed elements in order leaves every record of another content type alone, and never modifies or deletes an explicit record. |
| `Cascade.CheckContext` | src/MembersBundle/Service/RestrictionService.php:101-123 | A pass for one content type leaves every record of every other content type as it was. No explicit record anywhere is modified or deleted. |
| `Cascade.CheckContextFrame` | src/MembersBundle/Service/RestrictionService.php:118-122 | A pass writes only the element's own record and its listed descendants' records. Every other record, of the same content type included, is left as it was. So a pass on one subtree leaves a separate subtree alone. |
| `Cascade.CascadeOverKeepsGroups` | src/MembersBundle/Service/RestrictionService.php:160-175 | Reconciling the listed elements in order keeps every stored group list non-empty. |
| `Cascade.CheckContextKeepsGroups` | src/MembersBundle/Service/RestrictionService.php:101-123 | A pass keeps the invariant that no stored record has an empty group list. Copied groups always come from a stored record. |
| `Cascade.CreateKeepsGroups` | src/MembersBundle/Service/RestrictionService.php:39-56 | `createRestriction`'s write followed by its pass keeps the invariant. An empty group list deletes the record instead of storing it. |
| `Cascade.ReconcileSettles` | src/MembersBundle/Service/RestrictionService.php:160-175 | Reconciling an element against its fresh resolution settles it. The element's inherited record then carries its effective ancestor's groups, or it has no record when there is no effective ancestor. |
| `Cascade.SettledPreserved` | src/MembersBundle/Service/RestrictionService.php:160-175 | Reconciling an element that is not an ancestor of d keeps d settled. |
| `Cascade.CascadeOverSettles` | src/MembersBundle/Service/RestrictionService.php:160-175 | Reconciling the listed elements in order settles every one of them. |
| `Cascade.CascadeSettles` | src/MembersBundle/Service/RestrictionService.php:101-176 | Completeness: after a pass on obj, every listed descendant is settled, and so is obj itself unless it is a pure container. |
| `Cascade.SettledIsFixpoint` | src/MembersBundle/Service/RestrictionService.php:289-329 | Reconciling a settled element changes nothing. |
| `Cascade.CheckContextIdempotent` | src/MembersBundle/Service/RestrictionService.php:101-123 | A second pass right after the first changes nothing. |
| `Cascade.ContainerKeepsOwnRecord` | src/MembersBundle/Service/RestrictionService.php:118-122 | A pure container's own record is left as it was by its own pass. |
| `Cascade.CreatedExplicitSurvives` | src/MembersBundle/Service/RestrictionService.php:39-56 | An explicit restriction written by `createRestriction` comes through the propagation that follows it unchanged. |
| `Scenarios.NonPropagatingBoundary` | src/MembersBundle/Service/RestrictionService.php:260-267 | `/x` explicit and non-propagating, `/x/y` without a record: `/x/y` gets no ancestor and a pass on `/x` changes nothing. |
| `Scenarios.PropagationToChild` | src/MembersBundle/Service/RestrictionService.php:298-306 | Under an unrestricted `/`, a pass on a propagating `/r` gives `/r/a` an inherited copy of `/r`'s groups and leaves the explicit `/r/a/b` alone. |
| `Scenarios.WithdrawalFromChild` | src/MembersBundle/Service/RestrictionService.php:309-314 | Clearing `/r`'s groups and propagating deletes `/r/a`'s inherited record and leaves `/r/a/b` alone. |
| `Service.BuildAncestorPaths` | src/MembersBundle/Service/RestrictionService.php:224-235 | The loop's list equals the closest-first ancestor path list. |
| `Service.RestrictionService.CreateRestriction` | src/MembersBundle/Service/RestrictionService.php:24-61 | A content type outside `asset`, `page`, `object` fails without touching the store. Otherwise the store becomes the upsert or delete followed by a full pass, the cache is cleared, and the written or removed record is returned. A store without empty group lists stays so. |
| `Service.RestrictionService.DeleteRestriction` | src/MembersBundle/Service/RestrictionService.php:74-89 | Only the element's own record for cType is removed, with no pass, and the result is always true. |
| `Service.RestrictionService.CheckRestrictionContext` | src/MembersBundle/Service/RestrictionService.php:101-123 | The new store is the pass specified by `Cascade.CheckContext`. A store without empty group lists stays so. |
| `Service.RestrictionService.UpdateChildren` | src/MembersBundle/Service/RestrictionService.php:132-176 | The listed descendants are reconciled in order, each against a fresh own lookup and resolution. |
| `Service.RestrictionService.FindClosestInheritanceParent` | src/MembersBundle/Service/RestrictionService.php:184-278 | Reads only, and returns `Resolver.Resolve`. |
| `Service.RestrictionService.UpdateRestrictionContext` | src/MembersBundle/Service/RestrictionService.php:289-329 | The new store is `Reconciler.Reconciled` of the old one. |

## Findings

| source | as written | input that shows it | evidently intended | confidence | as-written member | corrected member |
|---|---|---|---|---|---|---|
| src/MembersBundle/Service/RestrictionService.php:226 | `array_filter` without a callback drops every falsy segment, and PHP treats the string `"0"` as falsy. | Element `/0/a/b` has parent path `/0/a/`. The loop searches `/a` (an unrelated element) and `/`, never `/0/a` or `/0`. | Drop only the empty segments produced by the leading and trailing `/`. | medium, not executed | `Resolver.ZeroSegmentMisplacesAncestor` | `Resolver.AncestorPathsArePrefixes` |

The rest of the model (`Resolver.AncestorPaths`, `Service.BuildAncestorPaths`) uses the corrected filter. The as-written filter is kept as `Resolver.PhpTruthyParts`.

## Left out

- The SQL listings (`setCondition`, `LIKE`, ordering by `LENGTH(path)`) are abstracted as a filter over an element sequence that is already ordered ancestor-before-descendant. What the `LIKE fullPath/%` pattern yields for the root element (full path `/`) depends on Pimcore's path columns, which are not part of this model. Here the root's listing holds all of its descendants. The model also does not capture that `_` and `%` in `getFullPath()` act as wildcards in the `LIKE` patterns (:137, :141, :145). So the listing for `/a_b` also returns the descendants of `/axb`, and the model lists only true descendants. The worked scenarios run their passes below the root, on `/r` and `/x`.
- `getElementById`, `getByPath` and `getRealPath` are Pimcore calls that are not part of this model. Paths are segment sequences, and the resolver searches the parent's segments as they are.
- PHP's `urldecode` applied to the parent path (:222) is not modelled. It turns `+` into a space and decodes `%xx` sequences. So an ancestor whose key holds `+` or `%` is looked up under a different path, and its restriction is missed or a different element's is found. The model always looks up the true ancestor paths.
- The `class === null` early return (:246-248) cannot occur: the families form a closed datatype. For the same reason, `onlyUpdateChildren`'s missing default (null for an unknown element class) is not modelled.
- Persistence failures and the exceptions they raise: save and delete are map updates that always succeed. A pass therefore never stops partway.
- The `path` and `key` fields of the resolver's result are not modelled. Only `id` and `restriction` are used by the callers.
- `\Pimcore\Cache::clearTag('members')` is modelled only as the ghost flag `cacheCleared`.
- The record's own copy of its target id and content type is not modelled, because they are its key in the store.
- Concurrency between overlapping passes is not modelled.

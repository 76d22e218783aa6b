/**
 * The bookkeeping of `ExportNamePreview` (export_layers/gui_previews.py) as
 * functions over values: the rows of the GTK tree store, the `_tree_iters`
 * table that finds a layer's row, and what insertion, refresh, sensitivity
 * and selection filtering do to them. The class in name_preview.dfy runs
 * the source's loops and is proved against these functions.
 */
module NameTree {
  import opened Wrappers
  import opened LayerTrees

  /**
   * A row of the tree store: the row of its parent (named by that row's layer
   * ID) or the root, the tag-icon flag, the sensitive flag and the name.
   */
  datatype Row = Row(parent: Option<ItemId>, tagged: bool, sensitive: bool, name: string)

  /**
   * `_tree_iters`, a `defaultdict(lambda: None)`: an ID maps to its row, or
   * to `None` once a lookup of a missing ID has stored the default.
   */
  type Iters = map<ItemId, Option<Row>>

  /** The export settings the preview consults on every pass. */
  datatype Settings = Settings(exportOnlySelectedLayers: bool, processTaggedLayers: bool,
                               layerGroupsAsFolders: bool)

  predicate HasRow(iters: Iters, id: ItemId) {
    id in iters && iters[id].Some?
  }

  /** No ID maps to the stored default. */
  predicate NoDefaults(iters: Iters) {
    forall id :: id in iters ==> iters[id].Some?
  }

  /** Every row hangs under the row of its element's parent (or the root when it has none). */
  ghost predicate Linked(iters: Iters, lt: LayerTree) {
    forall id :: HasRow(iters, id) ==> id in lt.elems && iters[id].value.parent == ParentOf(lt, id)
  }

  /** Every row hangs under the row of its element's parent or under the root. */
  ghost predicate LinkedOrRoot(iters: Iters, lt: LayerTree) {
    forall id :: HasRow(iters, id) ==>
      id in lt.elems && (iters[id].value.parent.None? || iters[id].value.parent == ParentOf(lt, id))
  }

  /** The same rows, each under the same parent. */
  ghost predicate SameStructure(a: Iters, b: Iters) {
    && (forall id :: HasRow(a, id) <==> HasRow(b, id))
    && (forall id :: HasRow(a, id) ==> b[id].value.parent == a[id].value.parent)
  }

  /** The same rows, differing at most in their sensitive flags. */
  ghost predicate OnlySensitivityChanged(a: Iters, b: Iters) {
    && (forall id :: HasRow(a, id) <==> HasRow(b, id))
    && (forall id :: HasRow(a, id) ==> b[id].value == a[id].value.(sensitive := b[id].value.sensitive))
  }

  /** A read `_tree_iters[id]`: a missing ID gets the default `None`. */
  function Touch(iters: Iters, id: ItemId): (r: Iters)
  {
    if id in iters then iters else iters[id := None]
  }

  /** The row `_insert_item_elem` appends: tag flag, sensitive, the element's name. */
  function NewRow(e: ItemElem, parent: Option<ItemId>): Row {
    Row(parent, e.tags != {}, true, e.name)
  }

  /**
   * `_insert_item_elem`: append a row under the parent's row when the parent
   * has one, else under the root, and record it under the element's ID.
   */
  function InsertElem(iters: Iters, lt: LayerTree, id: ItemId): (r: Iters)
    requires id in lt.elems
  {
    var e := lt.elems[id];
    if e.parents == [] then iters[id := Some(NewRow(e, None))]
    else
      var p := e.parents[|e.parents| - 1];
      Touch(iters, p)[id := Some(NewRow(e, if HasRow(iters, p) then Some(p) else None))]
  }

  /** One step of `_insert_parent_item_elems`: insert `p` unless it already has a row. */
  function InsertMissing(iters: Iters, lt: LayerTree, p: ItemId): Iters
    requires p in lt.elems
  {
    var t := Touch(iters, p);
    if t[p].Some? then t else InsertElem(t, lt, p)
  }

  /** `_insert_parent_item_elems`: the ancestors `ps`, root first. */
  function InsertParents(iters: Iters, lt: LayerTree, ps: seq<ItemId>): Iters
    requires AllStored(lt, ps)
    decreases |ps|
  {
    if ps == [] then iters
    else InsertMissing(InsertParents(iters, lt, ps[..|ps| - 1]), lt, ps[|ps| - 1])
  }

  /** One loop step of `_insert_parent_item_elems`. */
  lemma InsertParentsSnoc(iters: Iters, lt: LayerTree, ps: seq<ItemId>, i: nat)
    requires AllStored(lt, ps) && i < |ps|
    ensures AllStored(lt, ps[..i]) && AllStored(lt, ps[..i + 1])
    ensures InsertParents(iters, lt, ps[..i + 1]) == InsertMissing(InsertParents(iters, lt, ps[..i]), lt, ps[i])
  {
    assert ps[..i + 1][..i] == ps[..i];
  }

  /** `_insert_items` over the iteration `ids`; `gaf` is "layer groups as folders". */
  function InsertAll(iters: Iters, lt: LayerTree, ids: seq<ItemId>, gaf: bool): Iters
    requires WellFormed(lt) && AllStored(lt, ids)
    decreases |ids|
  {
    if ids == [] then iters
    else
      var x := ids[|ids| - 1];
      var pre := InsertAll(iters, lt, ids[..|ids| - 1], gaf);
      InsertElem(if gaf then InsertParents(pre, lt, lt.elems[x].parents) else pre, lt, x)
  }

  /** The first `n` iterated IDs are stored too. */
  lemma AllStoredPrefix(lt: LayerTree, ids: seq<ItemId>, n: nat)
    requires AllStored(lt, ids) && n <= |ids|
    ensures AllStored(lt, ids[..n])
  {
    assert forall k :: 0 <= k < n ==> ids[..n][k] == ids[k];
  }

  /** The insertion of the first `n` iterated elements. */
  function InsertPrefix(iters: Iters, lt: LayerTree, ids: seq<ItemId>, n: nat, gaf: bool): Iters
    requires WellFormed(lt) && AllStored(lt, ids) && n <= |ids|
  {
    AllStoredPrefix(lt, ids, n);
    InsertAll(iters, lt, ids[..n], gaf)
  }

  /** One loop step of `_insert_items`. */
  lemma InsertAllSnoc(iters: Iters, lt: LayerTree, ids: seq<ItemId>, i: nat, gaf: bool)
    requires WellFormed(lt) && AllStored(lt, ids) && i < |ids|
    ensures ids[i] in lt.elems && AllStored(lt, lt.elems[ids[i]].parents)
    ensures var pre := InsertPrefix(iters, lt, ids, i, gaf);
      InsertPrefix(iters, lt, ids, i + 1, gaf) ==
        InsertElem(if gaf then InsertParents(pre, lt, lt.elems[ids[i]].parents) else pre, lt, ids[i])
  {
    AllStoredPrefix(lt, ids, i);
    AllStoredPrefix(lt, ids, i + 1);
    assert ids[..i + 1][..i] == ids[..i];
    var x := ids[i];
    assert x in lt.elems;
    ChainOfWellFormed(lt, x);
  }

  /** The ends of the insertion loop. */
  lemma InsertPrefixEnds(iters: Iters, lt: LayerTree, ids: seq<ItemId>, gaf: bool)
    requires WellFormed(lt) && AllStored(lt, ids)
    ensures InsertPrefix(iters, lt, ids, 0, gaf) == iters
    ensures InsertPrefix(iters, lt, ids, |ids|, gaf) == InsertAll(iters, lt, ids, gaf)
  {
    assert ids[..0] == [];
    assert ids[..|ids|] == ids;
  }

  /** The IDs a full insertion of `ids` with groups as folders gives rows to. */
  function Covered(lt: LayerTree, ids: seq<ItemId>): set<ItemId>
    requires AllStored(lt, ids)
    decreases |ids|
  {
    if ids == [] then {}
    else Covered(lt, ids[..|ids| - 1]) + {ids[|ids| - 1]} + Ancestors(lt, ids[|ids| - 1])
  }

  /** Only stored elements are covered. */
  lemma {:induction false} CoveredStored(lt: LayerTree, ids: seq<ItemId>)
    requires WellFormed(lt) && AllStored(lt, ids)
    ensures Covered(lt, ids) <= lt.elems.Keys
    decreases |ids|
  {
    if ids != [] {
      var x := ids[|ids| - 1];
      var prefix := ids[..|ids| - 1];
      assert AllStored(lt, prefix) by {
        forall i | 0 <= i < |prefix| ensures prefix[i] == ids[i] { }
      }
      CoveredStored(lt, prefix);
      ChainOfWellFormed(lt, x);
    }
  }

  /** The first `n` ancestors of `x`, as a set. */
  function FirstAncestors(lt: LayerTree, x: ItemId, n: nat): set<ItemId>
    requires x in lt.elems && n <= |lt.elems[x].parents|
  {
    if n == 0 then {} else FirstAncestors(lt, x, n - 1) + {lt.elems[x].parents[n - 1]}
  }

  /**
   * `r` is `iters` after the first `n` ancestors of `x` were inserted: each
   * of them has a row, every row hangs under its parent's row, rows that
   * existed are kept, and no other ID is recorded.
   */
  ghost predicate ParentsInserted(iters: Iters, r: Iters, lt: LayerTree, x: ItemId, n: nat)
    requires x in lt.elems && n <= |lt.elems[x].parents|
  {
    && r.Keys == iters.Keys + FirstAncestors(lt, x, n)
    && Linked(r, lt)
    && (forall k :: 0 <= k < n ==> HasRow(r, lt.elems[x].parents[k]))
    && (forall id :: HasRow(iters, id) ==> HasRow(r, id) && r[id] == iters[id])
    && (NoDefaults(iters) ==> NoDefaults(r))
  }

  /** Inserting the ancestors of `x` (the first `n` of them), missing ones created on demand. */
  lemma {:induction false} InsertParentsLinked(iters: Iters, lt: LayerTree, x: ItemId, n: nat)
    requires AncestorChain(lt, x) && n <= |lt.elems[x].parents|
    requires Linked(iters, lt)
    ensures ParentsInserted(iters, InsertParents(iters, lt, lt.elems[x].parents[..n]), lt, x, n)
    decreases n
  {
    var all := lt.elems[x].parents;
    if n > 0 {
      var p := all[n - 1];
      assert p in lt.elems;
      var ps := all[..n];
      var pre := all[..n - 1];
      assert ps[..n - 1] == pre && ps[n - 1] == p;
      var r0 := InsertParents(iters, lt, pre);
      assert InsertParents(iters, lt, ps) == InsertMissing(r0, lt, p);
      InsertParentsLinked(iters, lt, x, n - 1);
      ParentsInsertedStep(iters, r0, lt, x, n);
    } else {
      assert all[..0] == [];
    }
  }

  /** The induction step of the above. */
  lemma ParentsInsertedStep(iters: Iters, r0: Iters, lt: LayerTree, x: ItemId, n: nat)
    requires AncestorChain(lt, x) && 0 < n <= |lt.elems[x].parents|
    requires ParentsInserted(iters, r0, lt, x, n - 1)
    ensures ParentsInserted(iters, InsertMissing(r0, lt, lt.elems[x].parents[n - 1]), lt, x, n)
  {
    var all := lt.elems[x].parents;
    InsertMissingLinked(r0, lt, x, n);
    var r := InsertMissing(r0, lt, all[n - 1]);
    assert FirstAncestors(lt, x, n) == FirstAncestors(lt, x, n - 1) + {all[n - 1]};
    forall k | 0 <= k < n ensures HasRow(r, all[k]) {
      if k < n - 1 {
        assert HasRow(r0, all[k]);
      }
    }
    assert r.Keys == iters.Keys + FirstAncestors(lt, x, n);
    forall id | HasRow(iters, id) ensures HasRow(r, id) && r[id] == iters[id] {
      assert HasRow(r0, id) && r0[id] == iters[id];
    }
    assert NoDefaults(iters) ==> NoDefaults(r0) && NoDefaults(r);
  }

  /** One step of the above: the `n`-th ancestor, once the nearer-to-root ones have rows. */
  lemma InsertMissingLinked(iters: Iters, lt: LayerTree, x: ItemId, n: nat)
    requires AncestorChain(lt, x) && 0 < n <= |lt.elems[x].parents|
    requires Linked(iters, lt)
    requires forall k :: 0 <= k < n - 1 ==> HasRow(iters, lt.elems[x].parents[k])
    ensures var p := lt.elems[x].parents[n - 1];
      var r := InsertMissing(iters, lt, p);
      && r.Keys == iters.Keys + {p}
      && Linked(r, lt)
      && HasRow(r, p)
      && (forall id :: HasRow(iters, id) ==> HasRow(r, id) && r[id] == iters[id])
      && (NoDefaults(iters) ==> NoDefaults(r))
  {
    var all := lt.elems[x].parents;
    var p := all[n - 1];
    assert p in lt.elems && lt.elems[p].parents == all[..n - 1];
    var t := Touch(iters, p);
    if !t[p].Some? {
      if n > 1 {
        assert HasRow(t, all[n - 2]);
        assert ParentOf(lt, p) == Some(all[n - 2]);
      } else {
        assert ParentOf(lt, p) == None;
      }
    }
  }

  /**
   * A full insertion with groups as folders: every iterated element and every
   * ancestor of one has a row, every row hangs under its parent's row, and
   * exactly those IDs are added to the table.
   */
  lemma {:induction false} InsertAllFolders(iters: Iters, lt: LayerTree, ids: seq<ItemId>)
    requires WellFormed(lt) && AllStored(lt, ids)
    requires Linked(iters, lt)
    ensures var r := InsertAll(iters, lt, ids, true);
      && Linked(r, lt)
      && (forall id :: id in Covered(lt, ids) ==> HasRow(r, id))
      && r.Keys == iters.Keys + Covered(lt, ids)
      && (NoDefaults(iters) ==> NoDefaults(r))
    decreases |ids|
  {
    if ids != [] {
      var x := ids[|ids| - 1];
      var prefix := ids[..|ids| - 1];
      assert AllStored(lt, prefix) by {
        forall i | 0 <= i < |prefix| ensures prefix[i] in lt.elems {
          assert prefix[i] == ids[i];
        }
      }
      InsertAllFolders(iters, lt, prefix);
      ChainOfWellFormed(lt, x);
      InsertFoldersStep(InsertAll(iters, lt, prefix, true), lt, x);
    }
  }

  /** One element of the above: its ancestors, then the element itself. */
  lemma InsertFoldersStep(pre: Iters, lt: LayerTree, x: ItemId)
    requires AncestorChain(lt, x)
    requires Linked(pre, lt)
    ensures var r := InsertElem(InsertParents(pre, lt, lt.elems[x].parents), lt, x);
      && Linked(r, lt)
      && r.Keys == pre.Keys + {x} + Ancestors(lt, x)
      && HasRow(r, x)
      && (forall p :: p in Ancestors(lt, x) ==> HasRow(r, p))
      && (forall id :: HasRow(pre, id) ==> HasRow(r, id))
      && (NoDefaults(pre) ==> NoDefaults(r))
  {
    InsertAncestors(pre, lt, x);
    InsertElemLinked(InsertParents(pre, lt, lt.elems[x].parents), lt, x);
  }

  /** All ancestors of `x` inserted: each has a row, and exactly they are added. */
  lemma InsertAncestors(pre: Iters, lt: LayerTree, x: ItemId)
    requires AncestorChain(lt, x)
    requires Linked(pre, lt)
    ensures var ps := lt.elems[x].parents;
      var wp := InsertParents(pre, lt, ps);
      && Linked(wp, lt)
      && wp.Keys == pre.Keys + Ancestors(lt, x)
      && (forall p :: p in Ancestors(lt, x) ==> HasRow(wp, p))
      && (ps != [] ==> HasRow(wp, ps[|ps| - 1]))
      && (forall id :: HasRow(pre, id) ==> HasRow(wp, id))
      && (NoDefaults(pre) ==> NoDefaults(wp))
  {
    var ps := lt.elems[x].parents;
    assert ps[..|ps|] == ps;
    InsertParentsLinked(pre, lt, x, |ps|);
    FirstAncestorsAll(lt, x);
  }

  /** All of the ancestors, counted by position, are the ancestors. */
  lemma FirstAncestorsAll(lt: LayerTree, x: ItemId)
    requires x in lt.elems
    ensures FirstAncestors(lt, x, |lt.elems[x].parents|) == Ancestors(lt, x)
  {
    var ps := lt.elems[x].parents;
    FirstAncestorsMembers(lt, x, |ps|);
    assert ps[..|ps|] == ps;
    forall p ensures p in FirstAncestors(lt, x, |ps|) <==> p in Ancestors(lt, x) { }
  }

  lemma {:induction false} FirstAncestorsMembers(lt: LayerTree, x: ItemId, n: nat)
    requires x in lt.elems && n <= |lt.elems[x].parents|
    ensures forall p :: p in FirstAncestors(lt, x, n) <==> p in lt.elems[x].parents[..n]
    decreases n
  {
    if n > 0 {
      var ps := lt.elems[x].parents;
      FirstAncestorsMembers(lt, x, n - 1);
      assert ps[..n] == ps[..n - 1] + [ps[n - 1]];
    }
  }

  /** Inserting an element whose parent already has a row links it under that row. */
  lemma InsertElemLinked(iters: Iters, lt: LayerTree, x: ItemId)
    requires x in lt.elems && Linked(iters, lt)
    requires lt.elems[x].parents != [] ==> HasRow(iters, lt.elems[x].parents[|lt.elems[x].parents| - 1])
    ensures var r := InsertElem(iters, lt, x);
      && Linked(r, lt)
      && r.Keys == iters.Keys + {x}
      && (forall id :: HasRow(iters, id) ==> HasRow(r, id))
      && (NoDefaults(iters) ==> NoDefaults(r))
  {
  }

  /**
   * A full insertion without groups as folders: every iterated element gets
   * a row, under its parent's row or the root, and only stored IDs are added.
   */
  lemma {:induction false} InsertAllFlat(iters: Iters, lt: LayerTree, ids: seq<ItemId>)
    requires WellFormed(lt) && AllStored(lt, ids)
    requires LinkedOrRoot(iters, lt)
    ensures var r := InsertAll(iters, lt, ids, false);
      && LinkedOrRoot(r, lt)
      && (forall i :: 0 <= i < |ids| ==> HasRow(r, ids[i]))
      && iters.Keys <= r.Keys <= iters.Keys + lt.elems.Keys
    decreases |ids|
  {
    if ids != [] {
      var prefix := ids[..|ids| - 1];
      assert AllStored(lt, prefix) by {
        forall i | 0 <= i < |prefix| ensures prefix[i] in lt.elems {
          assert prefix[i] == ids[i];
        }
      }
      InsertAllFlat(iters, lt, prefix);
      var pre := InsertAll(iters, lt, prefix, false);
      var x := ids[|ids| - 1];
      ChainOfWellFormed(lt, x);
      InsertFlatStep(pre, lt, x);
      var r := InsertAll(iters, lt, ids, false);
      forall i | 0 <= i < |ids| ensures HasRow(r, ids[i]) {
        if i < |ids| - 1 {
          assert ids[i] == prefix[i];
        }
      }
    }
  }

  /** One element of the above: it gets a row under its parent's row or the root. */
  lemma InsertFlatStep(pre: Iters, lt: LayerTree, x: ItemId)
    requires AncestorChain(lt, x) && LinkedOrRoot(pre, lt)
    ensures var r := InsertElem(pre, lt, x);
      && LinkedOrRoot(r, lt)
      && HasRow(r, x)
      && (forall id :: HasRow(pre, id) ==> HasRow(r, id))
      && pre.Keys <= r.Keys <= pre.Keys + lt.elems.Keys
  {
    var ps := lt.elems[x].parents;
    if ps != [] {
      assert ps[|ps| - 1] in lt.elems;
    }
  }

  /** A row refreshed from its element: tag flag, sensitive, name. */
  ghost predicate Refreshed(iters: Iters, lt: LayerTree, id: ItemId) {
    id in lt.elems && HasRow(iters, id) &&
    iters[id].value.tagged == (lt.elems[id].tags != {}) &&
    iters[id].value.sensitive &&
    iters[id].value.name == lt.elems[id].name
  }

  /** The rows an incremental refresh of `ids` writes to: the elements and, with groups as folders, their ancestors. */
  ghost predicate RowsFor(iters: Iters, lt: LayerTree, ids: seq<ItemId>, gaf: bool)
    requires WellFormed(lt) && AllStored(lt, ids)
  {
    forall i :: 0 <= i < |ids| ==>
      HasRow(iters, ids[i]) && (gaf ==> forall p :: p in lt.elems[ids[i]].parents ==> HasRow(iters, p))
  }

  /** `_update_item_elem`: rewrite the mirrored fields of an existing row. */
  function UpdateElem(iters: Iters, lt: LayerTree, id: ItemId): (r: Iters)
    requires HasRow(iters, id) && id in lt.elems
  {
    var e := lt.elems[id];
    iters[id := Some(iters[id].value.(tagged := e.tags != {}, sensitive := true, name := e.name))]
  }

  /** `_update_parent_item_elems`: refresh the ancestors `ps`, root first. */
  function UpdateParents(iters: Iters, lt: LayerTree, ps: seq<ItemId>): Iters
    requires forall p :: p in ps ==> p in lt.elems && HasRow(iters, p)
    decreases |ps|, 0
  {
    if ps == [] then iters
    else
      var prefix := ps[..|ps| - 1];
      assert ps == prefix + [ps[|ps| - 1]];
      var pre := UpdateParents(iters, lt, prefix);
      UpdateParentsShape(iters, lt, prefix);
      UpdateElem(pre, lt, ps[|ps| - 1])
  }

  /**
   * Refreshing the ancestors keeps every row under its parent, leaves each
   * ancestor's row mirroring its element, and touches no other entry.
   */
  lemma {:induction false} UpdateParentsShape(iters: Iters, lt: LayerTree, ps: seq<ItemId>)
    requires forall p :: p in ps ==> p in lt.elems && HasRow(iters, p)
    ensures var r := UpdateParents(iters, lt, ps);
      && r.Keys == iters.Keys && SameStructure(iters, r)
      && (forall p :: p in ps ==> Refreshed(r, lt, p))
      && (forall x :: x !in ps && x in iters ==> r[x] == iters[x])
    decreases |ps|, 1
  {
    if ps != [] {
      var prefix := ps[..|ps| - 1];
      var last := ps[|ps| - 1];
      assert ps == prefix + [last];
      UpdateParentsShape(iters, lt, prefix);
      var pre := UpdateParents(iters, lt, prefix);
      var r := UpdateParents(iters, lt, ps);
      assert r == UpdateElem(pre, lt, last);
      forall p | p in ps ensures Refreshed(r, lt, p) {
        if p != last {
          assert p in prefix && Refreshed(pre, lt, p);
        }
      }
    }
  }

  /** The refresh of the first `n` ancestors. */
  function UpdateParentsPrefix(iters: Iters, lt: LayerTree, ps: seq<ItemId>, n: nat): Iters
    requires forall p :: p in ps ==> p in lt.elems && HasRow(iters, p)
    requires n <= |ps|
  {
    assert forall p :: p in ps[..n] ==> p in ps;
    UpdateParents(iters, lt, ps[..n])
  }

  /** One more ancestor refreshed: the prefix's table still has that ancestor's row. */
  lemma UpdateParentsSnoc(iters: Iters, lt: LayerTree, ps: seq<ItemId>, i: nat)
    requires forall p :: p in ps ==> p in lt.elems && HasRow(iters, p)
    requires i < |ps|
    ensures ps[i] in lt.elems && HasRow(UpdateParentsPrefix(iters, lt, ps, i), ps[i])
    ensures UpdateParentsPrefix(iters, lt, ps, i + 1) == UpdateElem(UpdateParentsPrefix(iters, lt, ps, i), lt, ps[i])
  {
    assert ps[..i + 1][..i] == ps[..i];
    assert ps[i] in ps;
    assert forall p :: p in ps[..i] ==> p in ps;
    UpdateParentsShape(iters, lt, ps[..i]);
    assert HasRow(iters, ps[i]);
    assert UpdateParentsPrefix(iters, lt, ps, i) == UpdateParents(iters, lt, ps[..i]);
  }

  /** The ends of the refresh loop over the ancestors. */
  lemma UpdateParentsPrefixEnds(iters: Iters, lt: LayerTree, ps: seq<ItemId>)
    requires forall p :: p in ps ==> p in lt.elems && HasRow(iters, p)
    ensures UpdateParentsPrefix(iters, lt, ps, 0) == iters
    ensures UpdateParentsPrefix(iters, lt, ps, |ps|) == UpdateParents(iters, lt, ps)
  {
    assert ps[..0] == [];
    assert ps[..|ps|] == ps;
  }

  /** Every iterated row, and with groups as folders each of its ancestors' rows, is refreshed. */
  ghost predicate AllRefreshed(iters: Iters, lt: LayerTree, ids: seq<ItemId>, gaf: bool)
    requires AllStored(lt, ids)
  {
    forall i :: 0 <= i < |ids| ==>
      Refreshed(iters, lt, ids[i]) && (gaf ==> forall p :: p in lt.elems[ids[i]].parents ==> Refreshed(iters, lt, p))
  }

  /**
   * `_update_items`: refresh every iterated row (and its ancestors' rows with
   * groups as folders). The structure is never changed: the same rows under
   * the same parents, and no ID is added.
   */
  function UpdateAll(iters: Iters, lt: LayerTree, ids: seq<ItemId>, gaf: bool): Iters
    requires WellFormed(lt) && AllStored(lt, ids) && RowsFor(iters, lt, ids, gaf)
    decreases |ids|, 0
  {
    if ids == [] then iters
    else
      var x := ids[|ids| - 1];
      var prefix := ids[..|ids| - 1];
      assert AllStored(lt, prefix) && RowsFor(iters, lt, prefix, gaf) by {
        forall i | 0 <= i < |prefix| ensures prefix[i] == ids[i] { }
      }
      var pre := UpdateAll(iters, lt, prefix, gaf);
      UpdateAllShape(iters, lt, prefix, gaf);
      var ps := lt.elems[x].parents;
      assert gaf ==> forall p :: p in ps ==> p in lt.elems && HasRow(pre, p) by {
        ChainOfWellFormed(lt, x);
      }
      var wp := if gaf then UpdateParents(pre, lt, ps) else pre;
      if gaf then UpdateParentsShape(pre, lt, ps); UpdateElem(wp, lt, x)
      else UpdateElem(wp, lt, x)
  }

  /** The structure is never changed: the same rows under the same parents, and no ID is added. */
  lemma {:induction false} UpdateAllShape(iters: Iters, lt: LayerTree, ids: seq<ItemId>, gaf: bool)
    requires WellFormed(lt) && AllStored(lt, ids) && RowsFor(iters, lt, ids, gaf)
    ensures var r := UpdateAll(iters, lt, ids, gaf);
      r.Keys == iters.Keys && SameStructure(iters, r)
    decreases |ids|, 1
  {
    if ids != [] {
      var x := ids[|ids| - 1];
      var prefix := ids[..|ids| - 1];
      assert AllStored(lt, prefix) && RowsFor(iters, lt, prefix, gaf) by {
        forall i | 0 <= i < |prefix| ensures prefix[i] == ids[i] { }
      }
      UpdateAllShape(iters, lt, prefix, gaf);
      var pre := UpdateAll(iters, lt, prefix, gaf);
      if gaf {
        ChainOfWellFormed(lt, x);
        UpdateParentsShape(pre, lt, lt.elems[x].parents);
      }
    }
  }

  /** The refresh of the first `n` iterated elements. */
  function UpdatePrefix(iters: Iters, lt: LayerTree, ids: seq<ItemId>, n: nat, gaf: bool): Iters
    requires WellFormed(lt) && AllStored(lt, ids) && RowsFor(iters, lt, ids, gaf) && n <= |ids|
  {
    RowsForPrefix(iters, lt, ids, n, gaf);
    UpdateAll(iters, lt, ids[..n], gaf)
  }

  lemma RowsForPrefix(iters: Iters, lt: LayerTree, ids: seq<ItemId>, n: nat, gaf: bool)
    requires WellFormed(lt) && AllStored(lt, ids) && RowsFor(iters, lt, ids, gaf) && n <= |ids|
    ensures AllStored(lt, ids[..n]) && RowsFor(iters, lt, ids[..n], gaf)
  {
    assert forall k :: 0 <= k < n ==> ids[..n][k] == ids[k];
  }

  /** One loop step of `_update_items`: the next element and its ancestors still have rows. */
  lemma UpdateAllSnoc(iters: Iters, lt: LayerTree, ids: seq<ItemId>, i: nat, gaf: bool)
    requires WellFormed(lt) && AllStored(lt, ids) && RowsFor(iters, lt, ids, gaf) && i < |ids|
    ensures var pre := UpdatePrefix(iters, lt, ids, i, gaf);
      && ids[i] in lt.elems
      && HasRow(pre, ids[i])
      && (gaf ==> forall p :: p in lt.elems[ids[i]].parents ==> p in lt.elems && HasRow(pre, p))
      && var wp := if gaf then UpdateParents(pre, lt, lt.elems[ids[i]].parents) else pre;
         && HasRow(wp, ids[i])
         && UpdatePrefix(iters, lt, ids, i + 1, gaf) == UpdateElem(wp, lt, ids[i])
  {
    RowsForPrefix(iters, lt, ids, i, gaf);
    RowsForPrefix(iters, lt, ids, i + 1, gaf);
    assert ids[..i + 1][..i] == ids[..i];
    var x := ids[i];
    assert ids[..i + 1][i] == x;
    assert x in lt.elems;
    ChainOfWellFormed(lt, x);
    var pre := UpdatePrefix(iters, lt, ids, i, gaf);
    UpdateAllShape(iters, lt, ids[..i], gaf);
    if gaf {
      UpdateParentsShape(pre, lt, lt.elems[x].parents);
    }
  }

  /** The ends of the refresh loop. */
  lemma UpdatePrefixEnds(iters: Iters, lt: LayerTree, ids: seq<ItemId>, gaf: bool)
    requires WellFormed(lt) && AllStored(lt, ids) && RowsFor(iters, lt, ids, gaf)
    ensures UpdatePrefix(iters, lt, ids, 0, gaf) == iters
    ensures UpdatePrefix(iters, lt, ids, |ids|, gaf) == UpdateAll(iters, lt, ids, gaf)
  {
    RowsForPrefix(iters, lt, ids, 0, gaf);
    assert ids[..0] == [];
    assert ids[..|ids|] == ids;
  }

  /** After a refresh every row it was asked to refresh mirrors its element. */
  lemma {:induction false} UpdateAllRefreshes(iters: Iters, lt: LayerTree, ids: seq<ItemId>, gaf: bool)
    requires WellFormed(lt) && AllStored(lt, ids) && RowsFor(iters, lt, ids, gaf)
    ensures AllRefreshed(UpdateAll(iters, lt, ids, gaf), lt, ids, gaf)
    decreases |ids|
  {
    if ids != [] {
      var x := ids[|ids| - 1];
      var prefix := ids[..|ids| - 1];
      assert AllStored(lt, prefix) && RowsFor(iters, lt, prefix, gaf) by {
        forall i | 0 <= i < |prefix| ensures prefix[i] == ids[i] { }
      }
      UpdateAllRefreshes(iters, lt, prefix, gaf);
      UpdateAllShape(iters, lt, prefix, gaf);
      var pre := UpdateAll(iters, lt, prefix, gaf);
      ChainOfWellFormed(lt, x);
      var wp := if gaf then UpdateParents(pre, lt, lt.elems[x].parents) else pre;
      assert HasRow(pre, x);
      RefreshStep(pre, lt, x, gaf);
      var r := UpdateElem(wp, lt, x);
      AllRefreshedKept(pre, r, lt, prefix, gaf);
      AllRefreshedSnoc(r, lt, ids, gaf);
    }
  }

  /** One element of the refresh: it and (with groups as folders) its ancestors end refreshed, and nothing refreshed is undone. */
  lemma RefreshStep(pre: Iters, lt: LayerTree, x: ItemId, gaf: bool)
    requires x in lt.elems && HasRow(pre, x)
    requires gaf ==> forall p :: p in lt.elems[x].parents ==> p in lt.elems && HasRow(pre, p)
    ensures var wp := if gaf then UpdateParents(pre, lt, lt.elems[x].parents) else pre;
      HasRow(wp, x) &&
      var r := UpdateElem(wp, lt, x);
      && Refreshed(r, lt, x)
      && (gaf ==> forall p :: p in lt.elems[x].parents ==> Refreshed(r, lt, p))
      && (forall y :: Refreshed(pre, lt, y) ==> Refreshed(r, lt, y))
  {
    if gaf {
      UpdateParentsShape(pre, lt, lt.elems[x].parents);
    }
  }

  /** Refreshed rows stay refreshed: the property carries over from `a` to `b`. */
  lemma AllRefreshedKept(a: Iters, b: Iters, lt: LayerTree, ids: seq<ItemId>, gaf: bool)
    requires AllStored(lt, ids) && AllRefreshed(a, lt, ids, gaf)
    requires forall y :: Refreshed(a, lt, y) ==> Refreshed(b, lt, y)
    ensures AllRefreshed(b, lt, ids, gaf)
  {
  }

  /** Extending a refreshed prefix by a last element whose rows are refreshed. */
  lemma AllRefreshedSnoc(r: Iters, lt: LayerTree, ids: seq<ItemId>, gaf: bool)
    requires AllStored(lt, ids) && ids != []
    requires AllStored(lt, ids[..|ids| - 1]) && AllRefreshed(r, lt, ids[..|ids| - 1], gaf)
    requires Refreshed(r, lt, ids[|ids| - 1])
    requires gaf ==> forall p :: p in lt.elems[ids[|ids| - 1]].parents ==> Refreshed(r, lt, p)
    ensures AllRefreshed(r, lt, ids, gaf)
  {
    var prefix := ids[..|ids| - 1];
    forall i | 0 <= i < |ids| - 1 ensures ids[i] == prefix[i] { }
  }

  /** A refresh over rows that are already refreshed changes nothing. */
  lemma {:induction false} UpdateAllFixed(iters: Iters, lt: LayerTree, ids: seq<ItemId>, gaf: bool)
    requires WellFormed(lt) && AllStored(lt, ids) && RowsFor(iters, lt, ids, gaf)
    requires AllRefreshed(iters, lt, ids, gaf)
    ensures UpdateAll(iters, lt, ids, gaf) == iters
    decreases |ids|
  {
    if ids != [] {
      var prefix := ids[..|ids| - 1];
      var x := ids[|ids| - 1];
      assert AllStored(lt, prefix) && RowsFor(iters, lt, prefix, gaf) && AllRefreshed(iters, lt, prefix, gaf) by {
        forall i | 0 <= i < |prefix| ensures prefix[i] == ids[i] { }
      }
      assert Refreshed(iters, lt, x);
      UpdateAllFixed(iters, lt, prefix, gaf);
      if gaf {
        UpdateParentsFixed(iters, lt, lt.elems[x].parents);
      }
      UpdateElemFixed(iters, lt, x);
    }
  }

  /** Refreshing a row that is already refreshed changes nothing. */
  lemma UpdateElemFixed(iters: Iters, lt: LayerTree, id: ItemId)
    requires Refreshed(iters, lt, id)
    ensures UpdateElem(iters, lt, id) == iters
  {
    var row := iters[id].value;
    assert row.(tagged := lt.elems[id].tags != {}, sensitive := true, name := lt.elems[id].name) == row;
  }

  lemma {:induction false} UpdateParentsFixed(iters: Iters, lt: LayerTree, ps: seq<ItemId>)
    requires forall p :: p in ps ==> p in lt.elems && HasRow(iters, p) && Refreshed(iters, lt, p)
    ensures UpdateParents(iters, lt, ps) == iters
    decreases |ps|
  {
    if ps != [] {
      UpdateParentsFixed(iters, lt, ps[..|ps| - 1]);
    }
  }

  /** An incremental refresh is idempotent: running it twice equals running it once. */
  lemma UpdateAllIdempotent(iters: Iters, lt: LayerTree, ids: seq<ItemId>, gaf: bool)
    requires WellFormed(lt) && AllStored(lt, ids) && RowsFor(iters, lt, ids, gaf)
    ensures var once := UpdateAll(iters, lt, ids, gaf);
      RowsFor(once, lt, ids, gaf) && UpdateAll(once, lt, ids, gaf) == once
  {
    var once := UpdateAll(iters, lt, ids, gaf);
    UpdateAllRefreshes(iters, lt, ids, gaf);
    UpdateAllFixed(once, lt, ids, gaf);
  }

  /** `_set_item_elem_sensitive`: set the flag of an existing row; a missing ID only gets the default. */
  function SetSensitive(iters: Iters, id: ItemId, sensitive: bool): (r: Iters)
  {
    if HasRow(iters, id) then iters[id := Some(iters[id].value.(sensitive := sensitive))]
    else Touch(iters, id)
  }

  /** Setting a flag changes that row's flag only; a missing ID only gets the default. */
  lemma SetSensitiveShape(iters: Iters, id: ItemId, sensitive: bool)
    ensures var r := SetSensitive(iters, id, sensitive);
      && r.Keys == iters.Keys + {id}
      && OnlySensitivityChanged(iters, r)
      && (HasRow(iters, id) ==> r[id].value.sensitive == sensitive)
      && (forall x :: x != id && x in iters ==> r[x] == iters[x])
  {
  }

  /** The `any(...)` of `_set_parent_item_elems_sensitive`: some child with a row is sensitive. */
  predicate AnyChildSensitive(iters: Iters, children: seq<ItemId>) {
    exists c :: c in children && HasRow(iters, c) && iters[c].value.sensitive
  }

  /**
   * `_set_parent_item_elems_sensitive`: for the ancestors `ps` (root first),
   * visited nearest first, set each to the OR of its children's flags.
   */
  function PropagateUp(iters: Iters, lt: LayerTree, ps: seq<ItemId>): Iters
    requires AllStored(lt, ps)
    decreases |ps|
  {
    if ps == [] then iters
    else
      var p := ps[|ps| - 1];
      PropagateUp(SetSensitive(iters, p, AnyChildSensitive(iters, lt.elems[p].children)), lt, ps[..|ps| - 1])
  }

  /** Propagation only touches the ancestors' flags. */
  lemma {:induction false} PropagateUpFrame(iters: Iters, lt: LayerTree, ps: seq<ItemId>)
    requires AllStored(lt, ps)
    ensures var r := PropagateUp(iters, lt, ps);
      && r.Keys == iters.Keys + (set p | p in ps)
      && OnlySensitivityChanged(iters, r)
      && (forall x :: x !in ps && x in iters ==> r[x] == iters[x])
    decreases |ps|
  {
    if ps != [] {
      var p := ps[|ps| - 1];
      var t := SetSensitive(iters, p, AnyChildSensitive(iters, lt.elems[p].children));
      SetSensitiveShape(iters, p, AnyChildSensitive(iters, lt.elems[p].children));
      var pre := ps[..|ps| - 1];
      PropagateUpFrame(t, lt, pre);
      assert ps == pre + [p];
      assert (set q | q in ps) == (set q | q in pre) + {p};
    }
  }

  /** The propagation over the first `n` ancestors. */
  function PropagatePrefix(iters: Iters, lt: LayerTree, ps: seq<ItemId>, n: nat): Iters
    requires AllStored(lt, ps) && n <= |ps|
  {
    AllStoredPrefix(lt, ps, n);
    PropagateUp(iters, lt, ps[..n])
  }

  /** One loop step of `_set_parent_item_elems_sensitive`, nearest ancestor first. */
  lemma PropagatePrefixStep(iters: Iters, lt: LayerTree, ps: seq<ItemId>, n: nat)
    requires AllStored(lt, ps) && 0 < n <= |ps|
    ensures ps[n - 1] in lt.elems
    ensures PropagatePrefix(iters, lt, ps, n) ==
      PropagatePrefix(SetSensitive(iters, ps[n - 1], AnyChildSensitive(iters, lt.elems[ps[n - 1]].children)), lt, ps, n - 1)
  {
    AllStoredPrefix(lt, ps, n);
    assert ps[..n][..n - 1] == ps[..n - 1];
  }

  /** The ends of the propagation loop. */
  lemma PropagatePrefixEnds(iters: Iters, lt: LayerTree, ps: seq<ItemId>)
    requires AllStored(lt, ps)
    ensures PropagatePrefix(iters, lt, ps, 0) == iters
    ensures PropagatePrefix(iters, lt, ps, |ps|) == PropagateUp(iters, lt, ps)
  {
    assert ps[..0] == [];
    assert ps[..|ps|] == ps;
  }

  /** Two tables that agree on the rows of `children` agree on the OR over them. */
  lemma AnyChildSame(a: Iters, b: Iters, children: seq<ItemId>)
    requires forall c :: c in children ==> (HasRow(a, c) <==> HasRow(b, c))
    requires forall c :: c in children && HasRow(a, c) && HasRow(b, c) ==> a[c].value.sensitive == b[c].value.sensitive
    ensures AnyChildSensitive(a, children) == AnyChildSensitive(b, children)
  {
    if AnyChildSensitive(a, children) {
      var c :| c in children && HasRow(a, c) && a[c].value.sensitive;
      assert HasRow(b, c) && b[c].value.sensitive;
    }
    if AnyChildSensitive(b, children) {
      var c :| c in children && HasRow(b, c) && b[c].value.sensitive;
      assert HasRow(a, c) && a[c].value.sensitive;
    }
  }

  /**
   * Bottom-up OR: after propagating over the first `n` ancestors of `x`,
   * each of them that has a row is sensitive exactly when one of its
   * children's rows is.
   */
  lemma {:induction false} PropagateUpOr(iters: Iters, lt: LayerTree, x: ItemId, n: nat)
    requires WellFormed(lt) && x in lt.elems && n <= |lt.elems[x].parents|
    ensures var all := lt.elems[x].parents;
      var r := PropagateUp(iters, lt, all[..n]);
      forall k :: 0 <= k < n && HasRow(iters, all[k]) ==>
        HasRow(r, all[k]) && r[all[k]].value.sensitive == AnyChildSensitive(r, lt.elems[all[k]].children)
    decreases n
  {
    var all := lt.elems[x].parents;
    if n > 0 {
      var ps := all[..n];
      var pre := all[..n - 1];
      var p := all[n - 1];
      assert ps[..n - 1] == pre && ps[n - 1] == p;
      var children := lt.elems[p].children;
      var t := SetSensitive(iters, p, AnyChildSensitive(iters, children));
      var r := PropagateUp(t, lt, pre);
      assert PropagateUp(iters, lt, ps) == r;
      PropagateUpOr(t, lt, x, n - 1);
      PropagateUpOrNearest(iters, lt, x, n);
      forall k | 0 <= k < n - 1 && HasRow(iters, all[k]) ensures HasRow(t, all[k]) { }
    }
  }

  /** The nearest of the first `n` ancestors keeps the OR it was given: no later step touches it or its children. */
  lemma PropagateUpOrNearest(iters: Iters, lt: LayerTree, x: ItemId, n: nat)
    requires WellFormed(lt) && x in lt.elems && 0 < n <= |lt.elems[x].parents|
    ensures var all := lt.elems[x].parents;
      var p := all[n - 1];
      var children := lt.elems[p].children;
      var t := SetSensitive(iters, p, AnyChildSensitive(iters, children));
      var r := PropagateUp(t, lt, all[..n - 1]);
      HasRow(iters, p) ==> HasRow(r, p) && r[p].value.sensitive == AnyChildSensitive(r, children)
  {
    var all := lt.elems[x].parents;
    var pre := all[..n - 1];
    var p := all[n - 1];
    var children := lt.elems[p].children;
    var t := SetSensitive(iters, p, AnyChildSensitive(iters, children));
    PropagateUpFrame(t, lt, pre);
    var r := PropagateUp(t, lt, pre);
    assert p !in pre by {
      forall j | 0 <= j < n - 1 ensures pre[j] != p {
        ParentsDistinct(lt, x, j, n - 1);
      }
    }
    forall c | c in children ensures c !in pre && c != p {
      NotOwnChild(lt, p);
      if c in pre {
        var j :| 0 <= j < n - 1 && pre[j] == c;
        AncestorNotChildOfNearer(lt, x, j, n - 1);
      }
    }
    AnyChildSame(iters, t, children);
    AnyChildSame(t, r, children);
  }

  /**
   * `_set_item_elems_sensitive`: set each element's flag and, with groups as
   * folders, propagate up its ancestors.
   */
  function SetAll(iters: Iters, lt: LayerTree, ids: seq<ItemId>, sensitive: bool, gaf: bool): Iters
    requires WellFormed(lt) && AllStored(lt, ids)
    decreases |ids|
  {
    if ids == [] then iters
    else
      var x := ids[|ids| - 1];
      var t := SetSensitive(SetAll(iters, lt, ids[..|ids| - 1], sensitive, gaf), x, sensitive);
      if gaf then PropagateUp(t, lt, lt.elems[x].parents) else t
  }

  /** The flags set for the first `n` listed elements. */
  function SetPrefix(iters: Iters, lt: LayerTree, ids: seq<ItemId>, n: nat, sensitive: bool, gaf: bool): Iters
    requires WellFormed(lt) && AllStored(lt, ids) && n <= |ids|
  {
    AllStoredPrefix(lt, ids, n);
    SetAll(iters, lt, ids[..n], sensitive, gaf)
  }

  /** One loop step of `_set_item_elems_sensitive`. */
  lemma SetAllSnoc(iters: Iters, lt: LayerTree, ids: seq<ItemId>, i: nat, sensitive: bool, gaf: bool)
    requires WellFormed(lt) && AllStored(lt, ids) && i < |ids|
    ensures ids[i] in lt.elems && AllStored(lt, lt.elems[ids[i]].parents)
    ensures var t := SetSensitive(SetPrefix(iters, lt, ids, i, sensitive, gaf), ids[i], sensitive);
      SetPrefix(iters, lt, ids, i + 1, sensitive, gaf) == if gaf then PropagateUp(t, lt, lt.elems[ids[i]].parents) else t
  {
    AllStoredPrefix(lt, ids, i);
    AllStoredPrefix(lt, ids, i + 1);
    assert ids[..i + 1][..i] == ids[..i];
    assert ids[i] in lt.elems;
    ChainOfWellFormed(lt, ids[i]);
  }

  /** The ends of the loop setting flags. */
  lemma SetPrefixEnds(iters: Iters, lt: LayerTree, ids: seq<ItemId>, sensitive: bool, gaf: bool)
    requires WellFormed(lt) && AllStored(lt, ids)
    ensures SetPrefix(iters, lt, ids, 0, sensitive, gaf) == iters
    ensures SetPrefix(iters, lt, ids, |ids|, sensitive, gaf) == SetAll(iters, lt, ids, sensitive, gaf)
  {
    assert ids[..0] == [];
    assert ids[..|ids|] == ids;
  }

  /** Setting flags never changes the rows, and only records stored IDs. */
  lemma {:induction false} SetAllShape(iters: Iters, lt: LayerTree, ids: seq<ItemId>, sensitive: bool, gaf: bool)
    requires WellFormed(lt) && AllStored(lt, ids)
    ensures var r := SetAll(iters, lt, ids, sensitive, gaf);
      OnlySensitivityChanged(iters, r) && iters.Keys <= r.Keys <= iters.Keys + lt.elems.Keys
    decreases |ids|
  {
    if ids != [] {
      var prefix := ids[..|ids| - 1];
      assert forall i :: 0 <= i < |prefix| ==> prefix[i] == ids[i];
      SetAllShape(iters, lt, prefix, sensitive, gaf);
      var x := ids[|ids| - 1];
      var t := SetSensitive(SetAll(iters, lt, prefix, sensitive, gaf), x, sensitive);
      SetSensitiveShape(SetAll(iters, lt, prefix, sensitive, gaf), x, sensitive);
      if gaf {
        PropagateUpFrame(t, lt, lt.elems[x].parents);
      }
    }
  }

  /** Without groups as folders exactly the listed rows take the flag. */
  lemma {:induction false} SetAllFlat(iters: Iters, lt: LayerTree, ids: seq<ItemId>, sensitive: bool)
    requires WellFormed(lt) && AllStored(lt, ids)
    ensures var r := SetAll(iters, lt, ids, sensitive, false);
      && r.Keys == iters.Keys + (set x | x in ids)
      && (forall id :: HasRow(iters, id) <==> HasRow(r, id))
      && (forall id :: HasRow(iters, id) ==>
            r[id].value == iters[id].value.(sensitive := if id in ids then sensitive else iters[id].value.sensitive))
    decreases |ids|
  {
    if ids != [] {
      var prefix := ids[..|ids| - 1];
      assert forall i :: 0 <= i < |prefix| ==> prefix[i] == ids[i];
      SetAllFlat(iters, lt, prefix, sensitive);
      assert ids == prefix + [ids[|ids| - 1]];
      SetFlatStep(iters, SetAll(iters, lt, prefix, sensitive, false), prefix, ids[|ids| - 1], sensitive);
    }
  }

  /** One element of the above. */
  lemma SetFlatStep(iters: Iters, pre: Iters, prefix: seq<ItemId>, x: ItemId, sensitive: bool)
    requires pre.Keys == iters.Keys + (set y | y in prefix)
    requires forall id :: HasRow(iters, id) <==> HasRow(pre, id)
    requires forall id :: HasRow(iters, id) ==>
      (HasRow(pre, id) &&
       pre[id].value == iters[id].value.(sensitive := if id in prefix then sensitive else iters[id].value.sensitive))
    ensures var r := SetSensitive(pre, x, sensitive);
      && r.Keys == iters.Keys + (set y | y in prefix + [x])
      && (forall id :: HasRow(iters, id) <==> HasRow(r, id))
      && (forall id :: HasRow(iters, id) ==>
            r[id].value == iters[id].value.(sensitive := if id in prefix + [x] then sensitive else iters[id].value.sensitive))
  {
    assert (set y | y in prefix + [x]) == (set y | y in prefix) + {x};
    forall id ensures id in prefix + [x] <==> id in prefix || id == x { }
  }

  /** The elements of `ids` that carry tags, in order (the `has_tags` filter). */
  function Tagged(lt: LayerTree, ids: seq<ItemId>): seq<ItemId>
    requires AllStored(lt, ids)
    decreases |ids|
  {
    if ids == [] then []
    else
      var x := ids[|ids| - 1];
      var prefix := ids[..|ids| - 1];
      assert AllStored(lt, prefix) by {
        forall i | 0 <= i < |prefix| ensures prefix[i] == ids[i] { }
      }
      Tagged(lt, prefix) + (if lt.elems[x].tags != {} then [x] else [])
  }

  /** The filter keeps exactly the tagged elements, so only stored IDs. */
  lemma {:induction false} TaggedMembers(lt: LayerTree, ids: seq<ItemId>)
    requires AllStored(lt, ids)
    ensures var r := Tagged(lt, ids);
      AllStored(lt, r) && forall x :: x in r <==> x in ids && lt.elems[x].tags != {}
    decreases |ids|
  {
    if ids != [] {
      var x := ids[|ids| - 1];
      var prefix := ids[..|ids| - 1];
      assert AllStored(lt, prefix) by {
        forall i | 0 <= i < |prefix| ensures prefix[i] == ids[i] { }
      }
      TaggedMembers(lt, prefix);
      assert ids == prefix + [x];
    }
  }

  /**
   * `_set_items_sensitive`: with "only selected", everything insensitive and
   * then the selected items sensitive; with "tagged only", the tagged items
   * insensitive and, with groups as folders, the tagged non-empty groups too
   * (without propagation).
   */
  function ItemsSensitive(iters: Iters, lt: LayerTree, selected: seq<ItemId>, st: Settings): Iters
    requires WellFormed(lt) && (st.exportOnlySelectedLayers ==> AllStored(lt, selected))
  {
    var gaf := st.layerGroupsAsFolders;
    var a :=
      if st.exportOnlySelectedLayers then SetAll(SetAll(iters, lt, lt.order, false, gaf), lt, selected, true, gaf)
      else iters;
    if !st.processTaggedLayers then a
    else
      TaggedMembers(lt, lt.order);
      TaggedMembers(lt, lt.groups);
      var b := SetAll(a, lt, Tagged(lt, lt.order), false, gaf);
      if gaf then SetAll(b, lt, Tagged(lt, lt.groups), false, false) else b
  }

  /** The sensitivity pass changes flags only, and records only stored IDs. */
  lemma ItemsSensitiveShape(iters: Iters, lt: LayerTree, selected: seq<ItemId>, st: Settings)
    requires WellFormed(lt) && (st.exportOnlySelectedLayers ==> AllStored(lt, selected))
    ensures var r := ItemsSensitive(iters, lt, selected, st);
      OnlySensitivityChanged(iters, r) && iters.Keys <= r.Keys <= iters.Keys + lt.elems.Keys
  {
    var gaf := st.layerGroupsAsFolders;
    var a := iters;
    if st.exportOnlySelectedLayers {
      SetAllShape(iters, lt, lt.order, false, gaf);
      var a0 := SetAll(iters, lt, lt.order, false, gaf);
      SetAllShape(a0, lt, selected, true, gaf);
      a := SetAll(a0, lt, selected, true, gaf);
    }
    if st.processTaggedLayers {
      TaggedMembers(lt, lt.order);
      TaggedMembers(lt, lt.groups);
      SetAllShape(a, lt, Tagged(lt, lt.order), false, gaf);
      var b := SetAll(a, lt, Tagged(lt, lt.order), false, gaf);
      if gaf {
        SetAllShape(b, lt, Tagged(lt, lt.groups), false, false);
      }
    }
  }

  /**
   * Without groups as folders every row ends as the settings say: tagged
   * items insensitive under "tagged only"; otherwise, under "only selected",
   * sensitive exactly when selected for iterated or selected items; any
   * other row keeps its flag.
   */
  lemma ItemsSensitiveFlat(iters: Iters, lt: LayerTree, selected: seq<ItemId>, st: Settings, id: ItemId)
    requires WellFormed(lt) && (st.exportOnlySelectedLayers ==> AllStored(lt, selected))
    requires !st.layerGroupsAsFolders && HasRow(iters, id)
    ensures var r := ItemsSensitive(iters, lt, selected, st);
      HasRow(r, id) &&
      r[id].value.sensitive ==
        if st.processTaggedLayers && id in lt.order && lt.elems[id].tags != {} then false
        else if st.exportOnlySelectedLayers && id in selected then true
        else if st.exportOnlySelectedLayers && id in lt.order then false
        else iters[id].value.sensitive
  {
    var a := iters;
    if st.exportOnlySelectedLayers {
      SetAllFlat(iters, lt, lt.order, false);
      var a0 := SetAll(iters, lt, lt.order, false, false);
      SetAllFlat(a0, lt, selected, true);
      a := SetAll(a0, lt, selected, true, false);
    }
    if st.processTaggedLayers {
      TaggedMembers(lt, lt.order);
      SetAllFlat(a, lt, Tagged(lt, lt.order), false);
    }
  }

  /**
   * With tagged layers processed and groups as folders, the last pass greys
   * out every tagged non-empty group that has a row, and nothing propagates
   * after it.
   */
  lemma ItemsSensitiveTaggedGroups(iters: Iters, lt: LayerTree, selected: seq<ItemId>, st: Settings)
    requires WellFormed(lt) && (st.exportOnlySelectedLayers ==> AllStored(lt, selected))
    requires st.processTaggedLayers && st.layerGroupsAsFolders
    ensures var r := ItemsSensitive(iters, lt, selected, st);
      forall g :: g in lt.groups && lt.elems[g].tags != {} && HasRow(r, g) ==> !r[g].value.sensitive
  {
    var a :=
      if st.exportOnlySelectedLayers then SetAll(SetAll(iters, lt, lt.order, false, true), lt, selected, true, true)
      else iters;
    TaggedMembers(lt, lt.order);
    TaggedMembers(lt, lt.groups);
    var b := SetAll(a, lt, Tagged(lt, lt.order), false, true);
    SetAllFlat(b, lt, Tagged(lt, lt.groups), false);
  }

  /**
   * `[item for item in selected if item in self._tree_iters]`: the selected
   * IDs the table knows (with a row or the stored default), in their order.
   */
  function FilterPresent(ids: seq<ItemId>, iters: Iters): (r: seq<ItemId>)
    ensures |r| <= |ids|
    decreases |ids|
  {
    if ids == [] then []
    else
      var x := ids[|ids| - 1];
      FilterPresent(ids[..|ids| - 1], iters) + (if x in iters then [x] else [])
  }

  /** The filter keeps exactly the IDs the table knows. */
  lemma {:induction false} FilterPresentMembers(ids: seq<ItemId>, iters: Iters)
    ensures forall x :: x in FilterPresent(ids, iters) <==> x in ids && x in iters
    decreases |ids|
  {
    if ids != [] {
      var prefix := ids[..|ids| - 1];
      FilterPresentMembers(prefix, iters);
      assert ids == prefix + [ids[|ids| - 1]];
    }
  }

  /** The filter keeps relative order: it distributes over concatenation. */
  lemma {:induction false} FilterPresentAppend(a: seq<ItemId>, b: seq<ItemId>, iters: Iters)
    ensures FilterPresent(a + b, iters) == FilterPresent(a, iters) + FilterPresent(b, iters)
    decreases |b|
  {
    if b == [] {
      assert a + b == a;
    } else {
      var x := b[|b| - 1];
      var b' := b[..|b| - 1];
      var tail := if x in iters then [x] else [];
      assert (a + b)[..|a + b| - 1] == a + b';
      assert (a + b)[|a + b| - 1] == x;
      assert FilterPresent(a + b, iters) == FilterPresent(a + b', iters) + tail;
      assert FilterPresent(b, iters) == FilterPresent(b', iters) + tail;
      FilterPresentAppend(a, b', iters);
    }
  }

  /** A selection whose IDs are all known survives unchanged; so filtering twice is filtering once. */
  lemma {:induction false} FilterPresentKeepsKnown(ids: seq<ItemId>, iters: Iters)
    requires forall i :: 0 <= i < |ids| ==> ids[i] in iters
    ensures FilterPresent(ids, iters) == ids
    decreases |ids|
  {
    if ids != [] {
      FilterPresentKeepsKnown(ids[..|ids| - 1], iters);
    }
  }

  /** The IDs of `ids` whose rows exist (the ones `_set_selection` selects in the view), in order. */
  function WithRows(ids: seq<ItemId>, iters: Iters): (r: seq<ItemId>)
    ensures |r| <= |ids|
    decreases |ids|
  {
    if ids == [] then []
    else
      var x := ids[|ids| - 1];
      WithRows(ids[..|ids| - 1], iters) + (if HasRow(iters, x) then [x] else [])
  }

  /** One loop step of the selection pass. */
  lemma WithRowsSnoc(ids: seq<ItemId>, iters: Iters, i: nat)
    requires i < |ids|
    ensures WithRows(ids[..i + 1], iters) == WithRows(ids[..i], iters) + (if HasRow(iters, ids[i]) then [ids[i]] else [])
  {
    assert ids[..i + 1][..i] == ids[..i];
  }

  /** The selected rows depend only on which IDs have a row. */
  lemma {:induction false} WithRowsSameRows(ids: seq<ItemId>, a: Iters, b: Iters)
    requires forall id :: HasRow(a, id) <==> HasRow(b, id)
    ensures WithRows(ids, a) == WithRows(ids, b)
    decreases |ids|
  {
    if ids != [] {
      WithRowsSameRows(ids[..|ids| - 1], a, b);
    }
  }

  /** The selected rows are exactly the IDs with a row. */
  lemma {:induction false} WithRowsMembers(ids: seq<ItemId>, iters: Iters)
    ensures forall x :: x in WithRows(ids, iters) <==> x in ids && HasRow(iters, x)
    decreases |ids|
  {
    if ids != [] {
      var prefix := ids[..|ids| - 1];
      WithRowsMembers(prefix, iters);
      assert ids == prefix + [ids[|ids| - 1]];
    }
  }

  /**
   * `_remove_no_longer_valid_collapsed_items`: with a layer tree, keep the
   * collapsed IDs the unfiltered tree contains; without one, keep them all.
   */
  function Pruned(collapsed: set<ItemId>, lt: Option<LayerTree>): set<ItemId>
  {
    if lt.None? then collapsed
    else set x | x in collapsed && Contains(lt.value.(isFiltered := false), x)
  }

  /** Pruning keeps exactly the collapsed IDs the tree still stores, all of them without a tree. */
  lemma PrunedMembers(collapsed: set<ItemId>, lt: Option<LayerTree>)
    ensures var r := Pruned(collapsed, lt);
      && r <= collapsed
      && (lt.Some? ==> forall x :: x in r <==> x in collapsed && x in lt.value.elems)
      && (lt.None? ==> r == collapsed)
  {
  }
}

/**
 * `ExportNamePreview` (export_layers/gui_previews.py): the tree of layer
 * names the plug-in dialog shows. The class keeps the source's fields and
 * runs its loops; each method is proved against the functions of NameTree.
 *
 * The GTK tree store is the `treeIters` table (rows keyed by layer ID), the
 * export pipeline is a tree handed in by the caller, and the view's
 * reactions (rows collapsed, rows selected, the scroll target) are returned.
 */
module NamePreview {
  import opened Wrappers
  import opened LayerTrees
  import opened NameTree
  import opened UpdateLocking

  /** Every field of the preview, for stating a method's whole effect at once. */
  datatype PreviewState = PreviewState(
    initialLayerTree: Option<LayerTree>,
    layerTree: Option<LayerTree>,
    collapsedItems: set<ItemId>,
    selectedItems: seq<ItemId>,
    treeIters: Iters,
    widgetSensitive: bool,
    rowExpandCollapseInteractive: bool,
    clearingPreview: bool,
    rowSelectInteractive: bool,
    initialScrollToSelection: bool)

  class ExportNamePreview {
    /** The lock every preview inherits from `ExportPreview`. */
    const gate: UpdateLock

    var initialLayerTree: Option<LayerTree>
    /** `self._layer_exporter.layer_tree`: the tree the last pipeline run left. */
    var layerTree: Option<LayerTree>
    var collapsedItems: set<ItemId>
    var selectedItems: seq<ItemId>
    var treeIters: Iters
    var widgetSensitive: bool
    var rowExpandCollapseInteractive: bool
    var clearingPreview: bool
    var rowSelectInteractive: bool
    var initialScrollToSelection: bool

    function State(): PreviewState
      reads this
    {
      PreviewState(initialLayerTree, layerTree, collapsedItems, selectedItems, treeIters, widgetSensitive,
                   rowExpandCollapseInteractive, clearingPreview, rowSelectInteractive, initialScrollToSelection)
    }

    /** The tree methods read; the pipeline trees are well formed. */
    ghost predicate HasTree()
      reads this`layerTree
    {
      layerTree.Some? && WellFormed(layerTree.value)
    }

    /** Missing collapsed and selected items default to empty; nothing is interactive-suppressed. */
    constructor(initial: Option<LayerTree>, collapsed: Option<set<ItemId>>, selected: Option<seq<ItemId>>)
      ensures fresh(gate) && gate.State() == Unlocked
      ensures State() == PreviewState(
        initial, None,
        if collapsed.Some? then collapsed.value else {},
        if selected.Some? then selected.value else [],
        map[], true, true, false, true, true)
    {
      gate := new UpdateLock();
      initialLayerTree := initial;
      layerTree := None;
      collapsedItems := if collapsed.Some? then collapsed.value else {};
      selectedItems := if selected.Some? then selected.value else [];
      treeIters := map[];
      widgetSensitive := true;
      rowExpandCollapseInteractive := true;
      clearingPreview := false;
      rowSelectInteractive := true;
      initialScrollToSelection := true;
    }

    /**
     * `update`: unless the lock is held, rebuild the table from the tree the
     * pipeline produces (`produced`) — or, with `updateExistingContentsOnly`,
     * refresh the existing rows in place — then re-apply collapsed rows,
     * selection and sensitivity. The rows collapsed, the rows selected and the
     * scroll target are returned for the view.
     */
    method Update(shouldEnableSensitive: bool, resetItems: bool, updateExistingContentsOnly: bool,
                  st: Settings, produced: LayerTree)
      returns (ran: bool, pipelineInput: Option<LayerTree>, collapsedRows: set<ItemId>,
               selectedRows: seq<ItemId>, scrollTo: Option<ItemId>)
      requires WellFormed(produced)
      requires updateExistingContentsOnly ==>
        && (st.exportOnlySelectedLayers ==> SelectedStored(selectedItems, treeIters, produced))
        && RowsFor(treeIters, produced, produced.order, st.layerGroupsAsFolders)
      modifies this
      ensures ran <==> !gate.State().locked
      ensures !ran ==> State() == old(State())
      ensures ran ==> initialLayerTree == (if resetItems then old(initialLayerTree) else None)
      ensures ran ==> layerTree == FilteredAgain(Some(produced))
      ensures ran ==> widgetSensitive == (old(widgetSensitive) || shouldEnableSensitive)
      ensures ran ==> (collapsedItems ==
        if updateExistingContentsOnly then old(collapsedItems) else Pruned(old(collapsedItems), Some(produced)))
      ensures ran ==> rowExpandCollapseInteractive == (old(rowExpandCollapseInteractive) || !updateExistingContentsOnly)
      ensures ran ==> clearingPreview == (old(clearingPreview) && updateExistingContentsOnly)
      ensures ran ==> rowSelectInteractive && !initialScrollToSelection
      ensures ran ==> HasTree() && (st.exportOnlySelectedLayers ==> AllStored(layerTree.value, selectedItems))
      ensures ran ==>
        var table := if updateExistingContentsOnly then UpdateAll(old(treeIters), produced, produced.order, st.layerGroupsAsFolders)
                     else Built(produced, st.layerGroupsAsFolders);
        var seen := if updateExistingContentsOnly then produced else FilteredAgain(Some(produced)).value;
        && selectedItems == FilterPresent(old(selectedItems), table)
        && treeIters == ItemsSensitive(table, seen, selectedItems, st)
      ensures ran ==> pipelineInput == PipelineInput(resetItems, old(initialLayerTree), old(layerTree))
      ensures ran ==> selectedRows == WithRows(selectedItems, treeIters)
      ensures ran ==> scrollTo == InitialScroll(old(initialScrollToSelection), selectedItems, treeIters)
      ensures ran ==> (collapsedRows ==
        if updateExistingContentsOnly then {}
        else set x | x in collapsedItems && HasRow(Built(produced, st.layerGroupsAsFolders), x))
    {
      ran, pipelineInput, collapsedRows, selectedRows, scrollTo := false, None, {}, [], None;
      if gate.updateLocked {
        return;
      }
      ran := true;
      pipelineInput, collapsedRows, selectedRows, scrollTo :=
        Refresh(shouldEnableSensitive, resetItems, updateExistingContentsOnly, st, produced);
    }

    /** The body of `update` once the lock is found free. */
    method Refresh(shouldEnableSensitive: bool, resetItems: bool, updateExistingContentsOnly: bool,
                   st: Settings, produced: LayerTree)
      returns (pipelineInput: Option<LayerTree>, collapsedRows: set<ItemId>,
               selectedRows: seq<ItemId>, scrollTo: Option<ItemId>)
      requires WellFormed(produced)
      requires updateExistingContentsOnly ==>
        && (st.exportOnlySelectedLayers ==> SelectedStored(selectedItems, treeIters, produced))
        && RowsFor(treeIters, produced, produced.order, st.layerGroupsAsFolders)
      modifies this`treeIters, this`clearingPreview, this`selectedItems, this`initialLayerTree, this`layerTree
      modifies this`collapsedItems, this`rowExpandCollapseInteractive, this`widgetSensitive
      modifies this`rowSelectInteractive, this`initialScrollToSelection
      ensures initialLayerTree == (if resetItems then old(initialLayerTree) else None)
      ensures layerTree == FilteredAgain(Some(produced))
      ensures widgetSensitive == (old(widgetSensitive) || shouldEnableSensitive)
      ensures (collapsedItems ==
        if updateExistingContentsOnly then old(collapsedItems) else Pruned(old(collapsedItems), Some(produced)))
      ensures rowExpandCollapseInteractive == (old(rowExpandCollapseInteractive) || !updateExistingContentsOnly)
      ensures clearingPreview == (old(clearingPreview) && updateExistingContentsOnly)
      ensures rowSelectInteractive && !initialScrollToSelection
      ensures HasTree() && (st.exportOnlySelectedLayers ==> AllStored(layerTree.value, selectedItems))
      ensures
        var table := if updateExistingContentsOnly then UpdateAll(old(treeIters), produced, produced.order, st.layerGroupsAsFolders)
                     else Built(produced, st.layerGroupsAsFolders);
        var seen := if updateExistingContentsOnly then produced else FilteredAgain(Some(produced)).value;
        && selectedItems == FilterPresent(old(selectedItems), table)
        && treeIters == ItemsSensitive(table, seen, selectedItems, st)
      ensures pipelineInput == PipelineInput(resetItems, old(initialLayerTree), old(layerTree))
      ensures selectedRows == WithRows(selectedItems, treeIters)
      ensures scrollTo == InitialScroll(old(initialScrollToSelection), selectedItems, treeIters)
      ensures collapsedRows ==
        if updateExistingContentsOnly then {}
        else set x | x in collapsedItems && HasRow(Built(produced, st.layerGroupsAsFolders), x)
    {
      if shouldEnableSensitive {
        widgetSensitive := true;
      }
      pipelineInput, collapsedRows := Reload(resetItems, updateExistingContentsOnly, st.layerGroupsAsFolders, produced);
      assert initialScrollToSelection == old(initialScrollToSelection);
      selectedRows, scrollTo := Reapply(st);
      UpdateDisplayedTags();
    }

    /**
     * What `_update_displayed_tags` does to the model's state: it lifts
     * `is_filtered` to collect the tags in use and sets it again, so every
     * completed update leaves the tree filtered. The tag menu is not modelled.
     */
    method UpdateDisplayedTags()
      modifies this`layerTree
      ensures layerTree == FilteredAgain(old(layerTree))
      ensures old(HasTree()) ==> HasTree()
    {
      if layerTree.Some? {
        layerTree := Some(layerTree.value.(isFiltered := false));
        layerTree := Some(layerTree.value.(isFiltered := true));
      }
    }

    /**
     * The second half of `update`: re-apply the selection to the rebuilt
     * table, then the sensitivity the settings call for.
     */
    method Reapply(st: Settings) returns (selectedRows: seq<ItemId>, scrollTo: Option<ItemId>)
      requires HasTree() && (st.exportOnlySelectedLayers ==> SelectedStored(selectedItems, treeIters, layerTree.value))
      modifies this`treeIters, this`selectedItems, this`rowSelectInteractive, this`initialScrollToSelection
      ensures selectedItems == FilterPresent(old(selectedItems), old(treeIters))
      ensures st.exportOnlySelectedLayers ==> AllStored(layerTree.value, selectedItems)
      ensures treeIters == ItemsSensitive(old(treeIters), layerTree.value, selectedItems, st)
      ensures selectedRows == WithRows(selectedItems, treeIters)
      ensures scrollTo == InitialScroll(old(initialScrollToSelection), selectedItems, treeIters)
      ensures rowSelectInteractive && !initialScrollToSelection
    {
      ghost var table, selected := treeIters, selectedItems;
      selectedRows, scrollTo := SetSelection();
      assert selectedItems == FilterPresent(selected, table);
      FilterPresentMembers(selected, table);
      if st.exportOnlySelectedLayers {
        forall i | 0 <= i < |selectedItems| ensures selectedItems[i] in layerTree.value.elems {
          var x := selectedItems[i];
          assert x in FilterPresent(selected, table);
          assert x in selected && x in table;
        }
      }
      SetItemsSensitive(st);
      ItemsSensitiveShape(table, layerTree.value, selectedItems, st);
      WithRowsSameRows(selectedItems, table, treeIters);
      if selectedItems != [] {
        assert HasRow(table, selectedItems[0]) <==> HasRow(treeIters, selectedItems[0]);
      }
    }

    /**
     * The first half of `update`: clear, hand the tree to the pipeline, then
     * insert every row afresh and re-collapse the recorded rows, or refresh
     * the existing rows in place.
     */
    method Reload(resetItems: bool, updateExistingContentsOnly: bool, gaf: bool, produced: LayerTree)
      returns (pipelineInput: Option<LayerTree>, collapsedRows: set<ItemId>)
      requires WellFormed(produced)
      requires updateExistingContentsOnly ==>
        RowsFor(treeIters, produced, produced.order, gaf)
      modifies this`treeIters, this`clearingPreview, this`selectedItems, this`initialLayerTree, this`layerTree
      modifies this`collapsedItems, this`rowExpandCollapseInteractive
      ensures pipelineInput == PipelineInput(resetItems, old(initialLayerTree), old(layerTree))
      ensures initialLayerTree == (if resetItems then old(initialLayerTree) else None)
      ensures layerTree == (if updateExistingContentsOnly then Some(produced) else FilteredAgain(Some(produced)))
      ensures HasTree() && layerTree.value.elems == produced.elems && layerTree.value.order == produced.order
      ensures layerTree.value.groups == produced.groups
      ensures collapsedItems == (if updateExistingContentsOnly then old(collapsedItems) else Pruned(old(collapsedItems), Some(produced)))
      ensures rowExpandCollapseInteractive == (old(rowExpandCollapseInteractive) || !updateExistingContentsOnly)
      ensures clearingPreview == (old(clearingPreview) && updateExistingContentsOnly)
      ensures selectedItems == old(selectedItems)
      ensures treeIters == if updateExistingContentsOnly then UpdateAll(old(treeIters), produced, produced.order, gaf)
                           else Built(produced, gaf)
      ensures updateExistingContentsOnly ==> treeIters.Keys == old(treeIters).Keys
      ensures !updateExistingContentsOnly ==> treeIters.Keys <= produced.elems.Keys
      ensures !updateExistingContentsOnly || SelectedStored(old(selectedItems), old(treeIters), produced) ==>
        SelectedStored(selectedItems, treeIters, layerTree.value)
      ensures collapsedRows == if updateExistingContentsOnly then {} else set x | x in collapsedItems && HasRow(Built(produced, gaf), x)
    {
      collapsedRows := {};
      if !updateExistingContentsOnly {
        Clear();
      }
      pipelineInput := ProcessItems(resetItems, produced);
      if !updateExistingContentsOnly {
        InsertItems(gaf);
        collapsedRows := SetExpandedItems(None, {});
        BuiltKeysStored(produced, gaf);
      } else {
        UpdateItems(gaf);
        UpdateAllShape(old(treeIters), produced, produced.order, gaf);
      }
    }

    /** `clear`: the table is emptied while selection events are marked as coming from the clear. */
    method Clear()
      modifies this`treeIters, this`clearingPreview, this`selectedItems
      ensures treeIters == map[] && !clearingPreview && selectedItems == old(selectedItems)
    {
      clearingPreview := true;
      treeIters := map[];
      // Emptying the store fires the selection handler, which ignores it.
      var requested := OnTreeSelectionChanged([], false);
      assert !requested;
      clearingPreview := false;
    }

    /** `set_collapsed_items`: replace the collapsed IDs and re-collapse the whole view. */
    method SetCollapsedItems(collapsed: set<ItemId>) returns (collapsedRows: set<ItemId>)
      modifies this`collapsedItems, this`layerTree, this`rowExpandCollapseInteractive
      ensures collapsedItems == Pruned(collapsed, old(layerTree))
      ensures collapsedRows == set x | x in collapsedItems && HasRow(treeIters, x)
      ensures layerTree == FilteredAgain(old(layerTree)) && rowExpandCollapseInteractive
    {
      collapsedItems := collapsed;
      collapsedRows := SetExpandedItems(None, {});
    }

    /** `set_selected_items`: replace the selection and re-apply it to the view. */
    method SetSelectedItems(selected: seq<ItemId>) returns (selectedRows: seq<ItemId>, scrollTo: Option<ItemId>)
      modifies this`selectedItems, this`rowSelectInteractive, this`initialScrollToSelection
      ensures selectedItems == FilterPresent(selected, treeIters)
      ensures selectedRows == WithRows(selectedItems, treeIters)
      ensures scrollTo == InitialScroll(old(initialScrollToSelection), selectedItems, treeIters)
      ensures rowSelectInteractive && !initialScrollToSelection
    {
      selectedItems := selected;
      selectedRows, scrollTo := SetSelection();
    }

    /** `_on_tree_view_row_collapsed`: a user collapse records the row's ID; a programmatic one is ignored. */
    method OnTreeViewRowCollapsed(id: ItemId)
      modifies this`collapsedItems
      ensures collapsedItems == if rowExpandCollapseInteractive then old(collapsedItems) + {id} else old(collapsedItems)
    {
      if rowExpandCollapseInteractive {
        collapsedItems := collapsedItems + {id};
      }
    }

    /**
     * `_on_tree_view_row_expanded`: a user expand forgets the row's ID and
     * re-collapses, below the row, the rows still recorded as collapsed;
     * `rowExpanded` is the view's answer to `row_expanded` after the expand.
     */
    method OnTreeViewRowExpanded(id: ItemId, rowExpanded: set<ItemId>) returns (collapsedRows: set<ItemId>)
      modifies this`collapsedItems, this`layerTree, this`rowExpandCollapseInteractive
      ensures rowExpandCollapseInteractive == old(rowExpandCollapseInteractive)
      ensures old(rowExpandCollapseInteractive) ==>
        && collapsedItems == Pruned(old(collapsedItems) - {id}, old(layerTree))
        && id !in collapsedItems
        && collapsedRows == (set x | x in collapsedItems && HasRow(treeIters, x) && x in rowExpanded)
        && layerTree == FilteredAgain(old(layerTree))
      ensures !old(rowExpandCollapseInteractive) ==>
        collapsedItems == old(collapsedItems) && layerTree == old(layerTree) && collapsedRows == {}
    {
      collapsedRows := {};
      if rowExpandCollapseInteractive {
        collapsedItems := collapsedItems - {id};
        collapsedRows := SetExpandedItems(Some(id), rowExpanded);
        PrunedMembers(old(collapsedItems) - {id}, old(layerTree));
      }
    }

    /**
     * `_on_tree_selection_changed`: a user selection replaces the selected
     * IDs; with "only selected layers" a changed selection asks for an
     * incremental update (returned rather than run). Ignored while clearing
     * and during programmatic selection.
     */
    method OnTreeSelectionChanged(current: seq<ItemId>, exportOnlySelectedLayers: bool)
      returns (updateRequested: bool)
      modifies this`selectedItems
      ensures (!clearingPreview && rowSelectInteractive) ==>
        && selectedItems == current
        && (updateRequested <==> exportOnlySelectedLayers && current != old(selectedItems))
      ensures (clearingPreview || !rowSelectInteractive) ==> selectedItems == old(selectedItems) && !updateRequested
    {
      updateRequested := false;
      if !clearingPreview && rowSelectInteractive {
        var previous := selectedItems;
        selectedItems := current;
        if exportOnlySelectedLayers && selectedItems != previous {
          updateRequested := true;
        }
      }
    }

    /**
     * `_process_items`: the tree handed to the pipeline is the initial tree
     * the first time (consumed), else the current tree, or none on a reset;
     * the pipeline's result (`produced`) becomes the current tree.
     */
    method ProcessItems(resetItems: bool, produced: LayerTree) returns (pipelineInput: Option<LayerTree>)
      modifies this`initialLayerTree, this`layerTree
      ensures pipelineInput == PipelineInput(resetItems, old(initialLayerTree), old(layerTree))
      ensures initialLayerTree == if resetItems then old(initialLayerTree) else None
      ensures layerTree == Some(produced)
    {
      if !resetItems {
        if initialLayerTree.Some? {
          pipelineInput := initialLayerTree;
          initialLayerTree := None;
        } else {
          pipelineInput := layerTree;
        }
      } else {
        pipelineInput := None;
      }
      layerTree := Some(produced);
    }

    /** `_insert_item_elem`. */
    method InsertItemElem(id: ItemId)
      requires layerTree.Some? && id in layerTree.value.elems
      modifies this`treeIters
      ensures treeIters == InsertElem(old(treeIters), layerTree.value, id)
    {
      treeIters := InsertElem(treeIters, layerTree.value, id);
    }

    /** `_insert_parent_item_elems`: each ancestor, root first, unless its lookup finds a row. */
    method InsertParentItemElems(id: ItemId)
      requires HasTree() && id in layerTree.value.elems
      modifies this`treeIters
      ensures treeIters == InsertParents(old(treeIters), layerTree.value, layerTree.value.elems[id].parents)
    {
      var lt := layerTree.value;
      var ps := lt.elems[id].parents;
      ChainOfWellFormed(lt, id);
      var i := 0;
      while i < |ps|
        invariant 0 <= i <= |ps|
        invariant treeIters == InsertParents(old(treeIters), lt, ps[..i])
      {
        InsertParentsSnoc(old(treeIters), lt, ps, i);
        var p := ps[i];
        treeIters := Touch(treeIters, p);
        if treeIters[p].None? {
          InsertItemElem(p);
        }
        i := i + 1;
      }
      assert ps[..i] == ps;
    }

    /** `_insert_items`: every iterated element, after its ancestors with groups as folders. */
    method InsertItems(layerGroupsAsFolders: bool)
      requires HasTree()
      modifies this`treeIters
      ensures treeIters == InsertAll(old(treeIters), layerTree.value, layerTree.value.order, layerGroupsAsFolders)
    {
      var lt := layerTree.value;
      var ids := lt.order;
      ghost var t0 := treeIters;
      InsertPrefixEnds(t0, lt, ids, layerGroupsAsFolders);
      var i := 0;
      while i < |ids|
        invariant 0 <= i <= |ids|
        invariant treeIters == InsertPrefix(t0, lt, ids, i, layerGroupsAsFolders)
      {
        InsertAllSnoc(t0, lt, ids, i, layerGroupsAsFolders);
        if layerGroupsAsFolders {
          InsertParentItemElems(ids[i]);
        }
        InsertItemElem(ids[i]);
        i := i + 1;
      }
    }

    /** `_update_item_elem`: refresh an existing row. */
    method UpdateItemElem(id: ItemId)
      requires layerTree.Some? && id in layerTree.value.elems && HasRow(treeIters, id)
      modifies this`treeIters
      ensures treeIters == UpdateElem(old(treeIters), layerTree.value, id)
    {
      treeIters := UpdateElem(treeIters, layerTree.value, id);
    }

    /** `_update_parent_item_elems`: refresh each ancestor's row, root first. */
    method UpdateParentItemElems(id: ItemId)
      requires HasTree() && id in layerTree.value.elems
      requires forall p :: p in layerTree.value.elems[id].parents ==> HasRow(treeIters, p)
      modifies this`treeIters
      ensures treeIters == UpdateParents(old(treeIters), layerTree.value, layerTree.value.elems[id].parents)
    {
      var lt := layerTree.value;
      var ps := lt.elems[id].parents;
      ChainOfWellFormed(lt, id);
      ghost var t0 := treeIters;
      assert forall p :: p in ps ==> p in lt.elems && HasRow(t0, p);
      UpdateParentsPrefixEnds(t0, lt, ps);
      var i := 0;
      while i < |ps|
        invariant 0 <= i <= |ps|
        invariant treeIters == UpdateParentsPrefix(t0, lt, ps, i)
      {
        UpdateParentsSnoc(t0, lt, ps, i);
        treeIters := UpdateElem(treeIters, lt, ps[i]);
        i := i + 1;
      }
    }

    /** `_update_items`: refresh every iterated row (and its ancestors' with groups as folders). */
    method UpdateItems(layerGroupsAsFolders: bool)
      requires HasTree() && RowsFor(treeIters, layerTree.value, layerTree.value.order, layerGroupsAsFolders)
      modifies this`treeIters
      ensures treeIters == UpdateAll(old(treeIters), layerTree.value, layerTree.value.order, layerGroupsAsFolders)
    {
      var lt := layerTree.value;
      var ids := lt.order;
      ghost var t0 := treeIters;
      UpdatePrefixEnds(t0, lt, ids, layerGroupsAsFolders);
      var i := 0;
      while i < |ids|
        invariant 0 <= i <= |ids|
        invariant treeIters == UpdatePrefix(t0, lt, ids, i, layerGroupsAsFolders)
      {
        UpdateAllSnoc(t0, lt, ids, i, layerGroupsAsFolders);
        if layerGroupsAsFolders {
          UpdateParentItemElems(ids[i]);
        }
        UpdateItemElem(ids[i]);
        i := i + 1;
      }
    }

    /** `_set_item_elem_sensitive`: the lookup stores the default for a missing ID. */
    method SetItemElemSensitive(id: ItemId, sensitive: bool)
      modifies this`treeIters
      ensures treeIters == SetSensitive(old(treeIters), id, sensitive)
    {
      treeIters := SetSensitive(treeIters, id, sensitive);
    }

    /** `_set_parent_item_elems_sensitive`: ancestors nearest first, each to the OR of its children. */
    method SetParentItemElemsSensitive(id: ItemId)
      requires HasTree() && id in layerTree.value.elems
      modifies this`treeIters
      ensures treeIters == PropagateUp(old(treeIters), layerTree.value, layerTree.value.elems[id].parents)
    {
      var lt := layerTree.value;
      var ps := lt.elems[id].parents;
      ChainOfWellFormed(lt, id);
      assert AllStored(lt, ps);
      ghost var t0 := treeIters;
      PropagatePrefixEnds(t0, lt, ps);
      var i := |ps|;
      while i > 0
        invariant 0 <= i <= |ps|
        invariant PropagatePrefix(treeIters, lt, ps, i) == PropagateUp(t0, lt, ps)
      {
        var p := ps[i - 1];
        PropagatePrefixStep(treeIters, lt, ps, i);
        var parentSensitive := AnyChildSensitive(treeIters, lt.elems[p].children);
        SetItemElemSensitive(p, parentSensitive);
        i := i - 1;
      }
      PropagatePrefixEnds(treeIters, lt, ps);
    }

    /** `_set_item_elems_sensitive`. */
    method SetItemElemsSensitive(ids: seq<ItemId>, sensitive: bool, layerGroupsAsFolders: bool)
      requires HasTree() && AllStored(layerTree.value, ids)
      modifies this`treeIters
      ensures treeIters == SetAll(old(treeIters), layerTree.value, ids, sensitive, layerGroupsAsFolders)
    {
      var lt := layerTree.value;
      ghost var t0 := treeIters;
      SetPrefixEnds(t0, lt, ids, sensitive, layerGroupsAsFolders);
      var i := 0;
      while i < |ids|
        invariant 0 <= i <= |ids|
        invariant treeIters == SetPrefix(t0, lt, ids, i, sensitive, layerGroupsAsFolders)
      {
        SetAllSnoc(t0, lt, ids, i, sensitive, layerGroupsAsFolders);
        SetItemElemSensitive(ids[i], sensitive);
        if layerGroupsAsFolders {
          SetParentItemElemsSensitive(ids[i]);
        }
        i := i + 1;
      }
    }

    /** `_set_items_sensitive`. */
    method SetItemsSensitive(st: Settings)
      requires HasTree() && (st.exportOnlySelectedLayers ==> AllStored(layerTree.value, selectedItems))
      modifies this`treeIters
      ensures treeIters == ItemsSensitive(old(treeIters), layerTree.value, selectedItems, st)
    {
      var lt := layerTree.value;
      var gaf := st.layerGroupsAsFolders;
      if st.exportOnlySelectedLayers {
        SetItemElemsSensitive(lt.order, false, gaf);
        SetItemElemsSensitive(selectedItems, true, gaf);
      }
      if st.processTaggedLayers {
        TaggedMembers(lt, lt.order);
        TaggedMembers(lt, lt.groups);
        SetItemElemsSensitive(Tagged(lt, lt.order), false, gaf);
        if gaf {
          SetItemElemsSensitive(Tagged(lt, lt.groups), false, false);
        }
      }
    }

    /**
     * `_set_expanded_items`: expand the view (all of it, or below the row
     * `path`), prune the collapsed IDs, then collapse every recorded row that
     * has a row in the table (below `path`: only those `rowExpanded` reports
     * expanded). The collapse events this fires are ignored.
     */
    method SetExpandedItems(path: Option<ItemId>, rowExpanded: set<ItemId>) returns (collapsedRows: set<ItemId>)
      modifies this`collapsedItems, this`layerTree, this`rowExpandCollapseInteractive
      ensures collapsedItems == Pruned(old(collapsedItems), old(layerTree))
      ensures collapsedRows == set x | x in collapsedItems && HasRow(treeIters, x) && (path.None? || x in rowExpanded)
      ensures layerTree == FilteredAgain(old(layerTree)) && rowExpandCollapseInteractive
    {
      rowExpandCollapseInteractive := false;
      RemoveNoLongerValidCollapsedItems();
      collapsedRows := {};
      var todo := collapsedItems;
      while todo != {}
        invariant todo <= collapsedItems && !rowExpandCollapseInteractive
        invariant collapsedRows == set x | x in collapsedItems - todo && HasRow(treeIters, x) && (path.None? || x in rowExpanded)
        invariant collapsedItems == Pruned(old(collapsedItems), old(layerTree))
        invariant layerTree == FilteredAgain(old(layerTree))
        decreases todo
      {
        SomeMember(todo);
        var id :| id in todo;
        if id in treeIters && treeIters[id].Some? && (path.None? || id in rowExpanded) {
          collapsedRows := collapsedRows + {id};
          OnTreeViewRowCollapsed(id);
        }
        todo := todo - {id};
      }
      rowExpandCollapseInteractive := true;
    }

    /** `_remove_no_longer_valid_collapsed_items`. */
    method RemoveNoLongerValidCollapsedItems()
      modifies this`collapsedItems, this`layerTree
      ensures collapsedItems == Pruned(old(collapsedItems), old(layerTree))
      ensures layerTree == FilteredAgain(old(layerTree))
    {
      if layerTree.None? {
        return;
      }
      layerTree := Some(layerTree.value.(isFiltered := false));
      collapsedItems := set x | x in collapsedItems && Contains(layerTree.value, x);
      layerTree := Some(layerTree.value.(isFiltered := true));
    }

    /**
     * `_set_selection`: drop the selected IDs the table does not know,
     * select the rows of the rest (events ignored), and on the first call
     * report the row to scroll to.
     */
    method SetSelection() returns (selectedRows: seq<ItemId>, scrollTo: Option<ItemId>)
      modifies this`selectedItems, this`rowSelectInteractive, this`initialScrollToSelection
      ensures selectedItems == FilterPresent(old(selectedItems), treeIters)
      ensures selectedRows == WithRows(selectedItems, treeIters)
      ensures scrollTo == InitialScroll(old(initialScrollToSelection), selectedItems, treeIters)
      ensures rowSelectInteractive && !initialScrollToSelection
    {
      rowSelectInteractive := false;
      selectedItems := FilterPresent(selectedItems, treeIters);
      FilterPresentMembers(old(selectedItems), treeIters);
      selectedRows := [];
      var i := 0;
      while i < |selectedItems|
        invariant 0 <= i <= |selectedItems| && !rowSelectInteractive
        invariant selectedRows == WithRows(selectedItems[..i], treeIters)
        invariant selectedItems == FilterPresent(old(selectedItems), treeIters)
        invariant initialScrollToSelection == old(initialScrollToSelection)
      {
        WithRowsSnoc(selectedItems, treeIters, i);
        var item := selectedItems[i];
        assert item in selectedItems;
        if treeIters[item].Some? {
          selectedRows := selectedRows + [item];
          var requested := OnTreeSelectionChanged(selectedRows, false);
        }
        i := i + 1;
      }
      assert selectedItems[..i] == selectedItems;
      scrollTo := None;
      if initialScrollToSelection {
        if selectedItems != [] && HasRow(treeIters, selectedItems[0]) {
          scrollTo := Some(selectedItems[0]);
        }
        initialScrollToSelection := false;
      }
      rowSelectInteractive := true;
    }
  }

  /** A non-empty set has a member (the loop over `_collapsed_items` picks one). */
  lemma SomeMember(s: set<ItemId>)
    requires s != {}
    ensures exists x :: x in s
  {
    if forall x :: x !in s {
      assert false;
    }
  }

  /**
   * `_set_items_sensitive` looks up every selected ID that survived the
   * filter against the table (`layer_tree[item_id]`, a KeyError otherwise):
   * those must be stored in the tree.
   */
  predicate SelectedStored(selected: seq<ItemId>, iters: Iters, lt: LayerTree) {
    forall x :: x in selected && x in iters ==> x in lt.elems
  }

  /** The table a full rebuild inserts (`_insert_items` into the cleared table). */
  function Built(lt: LayerTree, gaf: bool): Iters
    requires WellFormed(lt)
  {
    InsertAll(map[], lt, lt.order, gaf)
  }

  /** A full rebuild gives rows only to stored elements. */
  lemma BuiltKeysStored(lt: LayerTree, gaf: bool)
    requires WellFormed(lt)
    ensures Built(lt, gaf).Keys <= lt.elems.Keys
  {
    if gaf {
      InsertAllFolders(map[], lt, lt.order);
      CoveredStored(lt, lt.order);
    } else {
      InsertAllFlat(map[], lt, lt.order);
    }
  }

  /** The tree `_process_items` hands to the pipeline. */
  function PipelineInput(resetItems: bool, initial: Option<LayerTree>, current: Option<LayerTree>): (r: Option<LayerTree>)
    ensures resetItems ==> r.None?
    ensures !resetItems && initial.Some? ==> r == initial
    ensures !resetItems && initial.None? ==> r == current
  {
    if resetItems then None else if initial.Some? then initial else current
  }

  /** The tree after pruning, which leaves it filtered (absent stays absent). */
  function FilteredAgain(lt: Option<LayerTree>): (r: Option<LayerTree>)
    ensures r.Some? <==> lt.Some?
    ensures r.Some? ==>
      (r.value.isFiltered && r.value.elems == lt.value.elems &&
       r.value.order == lt.value.order && r.value.groups == lt.value.groups)
  {
    if lt.None? then None else Some(lt.value.(isFiltered := true))
  }

  /** `_set_initial_scroll_to_selection` on the first pass: the first selected item, when it has a row. */
  function InitialScroll(first: bool, selected: seq<ItemId>, iters: Iters): (r: Option<ItemId>)
    ensures r.Some? <==> first && selected != [] && HasRow(iters, selected[0])
    ensures r.Some? ==> r.value == selected[0]
  {
    if first && selected != [] && HasRow(iters, selected[0]) then Some(selected[0]) else None
  }
}

# Export Layers previews: the update lock, the name tree and the image preview

This project models, in Dafny, the core of `export_layers/gui_previews.py`
from the GIMP plug-in Export Layers. That core is the two previews the
plug-in dialog shows beside its settings, and the lock they share.

- **The update lock** (`ExportPreview.lock_update`). Callers lock the
  preview, either with a key or unconditionally, while they change several
  settings. `update` does nothing while the preview is locked.
- **The name preview** (`ExportNamePreview`). It is a tree of the layer
  names the export will produce. It rebuilds its table of rows from the
  layer tree the export pipeline leaves behind, or refreshes that table in
  place. It keeps the user's collapsed rows and selected layers across
  rebuilds. It greys out the layers the export will skip. It uses two
  "interactive" flags to tell the user's expand/collapse and selection
  events apart from its own.
- **The image preview** (`ExportImagePreview`). It renders one layer. It
  picks the preview size that fits the widget while keeping the layer's
  aspect ratio. When the widget shrinks below the rendered image, it
  rescales the image, and it caches the last rescale size so that it skips
  repeated rescales.

Modules, one per file:

| file | module | contents |
|---|---|---|
| `wrappers.dfy` | `Wrappers` | `Option` |
| `update_lock.dfy` | `UpdateLocking` | the lock state, `LockStep`, and the class `UpdateLock` that both previews hold as `gate` |
| `layer_tree.dfy` | `LayerTrees` | the layer tree handed over by the export pipeline, as a value |
| `name_tree.dfy` | `NameTree` | the row table `_tree_iters` and the functions that specify every pass over it |
| `name_preview.dfy` | `NamePreview` | the class `ExportNamePreview`, whose methods run the source's loops over its fields |
| `preview_size.dfy` | `PreviewSizing` | `_get_preview_size` on exact integers, and the rescale decision of `_resize_preview` |
| `image_preview.dfy` | `ImagePreview` | the class `ExportImagePreview`, and the functions that specify its update, resize and layer-element setter |

Each method is proved against a pure function of the old state, either as a
whole-state equation `State() == F(old(State()), ...)` or field by field.
The lemmas beside those functions state what the source promises about
them.

The base class `ExportPreview` is modelled by composition. Each preview
holds `const gate: UpdateLock`, and its `Update` is a no-op whenever
`gate` is locked.

Calls into GTK, GIMP and the export pipeline become parameters:

- the layer tree the pipeline produces;
- whether the layer filter matches an element, and whether a GIMP item is still valid;
- the size of the rendered thumbnail;
- which rows the view has expanded;
- the current selection of the view.

What the view should do is returned to the caller rather than performed:

- the rows to collapse;
- the rows to select;
- the row to scroll to;
- whether an update is requested;
- which layer tree was handed to the pipeline.

Where the docstring and the code of `lock_update` disagree, the model
follows the code. The docstring (gui_previews.py:91-92) says that a keyed
unlock with a key that never locked does nothing. The code
(gui_previews.py:102-109), however, recomputes `locked` from the key set
after every keyed call. A keyed unlock therefore also lifts an earlier
unconditional lock. `UpdateLocking.KeyedUnlockLiftsUnconditionalLock`
states this behaviour.

## Model

| member | source | states |
|---|---|---|
| UpdateLocking.LockStep | export_layers/gui_previews.py:82-109 | The state is always consistent: keys held imply locked. An unkeyed call empties the key set and sets the flag to the requested value. A keyed call holds its key exactly when it locks, leaves every other key untouched, and leaves the preview locked exactly when some key is still held. |
| UpdateLocking.KeyedRunHoldsKeys | export_layers/gui_previews.py:90-109 | For any sequence of keyed calls, a key is held exactly when the last call naming it locked, or, if no call named it, when it was held before. After a non-empty sequence of keyed calls, the preview is locked exactly when some key is held. |
| UpdateLocking.HeldKeyKeepsLock | export_layers/gui_previews.py:87-90 | Suppose a keyed lock is followed only by keyed calls, and none of them unlocks that key. Then the key is still held and the preview is still locked: other keys cannot unlock it. |
| UpdateLocking.KeyedUnlockLiftsUnconditionalLock | export_layers/gui_previews.py:91-109 | After an unconditional lock, a keyed unlock with a key that never locked leaves the preview fully unlocked, contrary to the docstring. |
| UpdateLocking.UnkeyedUnlockReleasesAll | export_layers/gui_previews.py:94-100 | Any sequence of calls that ends with an unkeyed unlock leaves the preview unlocked with no keys, whatever keys were held before. |
| UpdateLocking.UpdateLock.constructor | export_layers/gui_previews.py:58-62 | A new preview is unlocked and holds no keys. |
| UpdateLocking.UpdateLock.LockUpdate | export_layers/gui_previews.py:82-109 | One call moves the lock state by `LockStep`, and so keeps it consistent. |
| LayerTrees.Contains | export_layers/gui_previews.py:716-722 | On an unfiltered tree, `id in layer_tree` holds exactly when the tree stores the element. |
| LayerTrees.ParentOf | export_layers/gui_previews.py:588-592 | An element has a parent exactly when its ancestor list is non-empty. |
| NameTree.Touch | export_layers/gui_previews.py:147 | Reading `_tree_iters` at a missing ID stores the default None there. An ID already present is left as it is. |
| NameTree.InsertElem | export_layers/gui_previews.py:588-603 | Appends one row: the element's tag flag, sensitive, and its name. The row goes under the parent's row when the parent has one, and under the root otherwise. Reading a parent that has no row stores the default for it. `InsertElemLinked` states what it adds. |
| NameTree.InsertMissing | export_layers/gui_previews.py:613-615 | One step of the ancestor loop. An ancestor that has a row keeps it; otherwise `InsertElem` gives it one. The read stores the default either way. `InsertMissingLinked` states the result. |
| NameTree.InsertParents | export_layers/gui_previews.py:612-615 | Runs `InsertMissing` over an element's ancestors, root first. `InsertAncestors` states which rows it adds. |
| NameTree.InsertAll | export_layers/gui_previews.py:582-586 | Walks the tree's iteration order. With groups as folders, the missing ancestors are inserted first, then the element's own row. `InsertAllFolders` and `InsertAllFlat` state the table it builds. |
| NameTree.InsertElemLinked | export_layers/gui_previews.py:588-603 | Appending one element adds exactly its ID to the table. It keeps every existing row and keeps each row hanging under its parent's row, provided the parent's row exists. |
| NameTree.InsertAncestors | export_layers/gui_previews.py:612-615 | Inserting an element's missing ancestors, root first, adds exactly those ancestors to the table. It gives each of them a row, keeps every existing row, and keeps each row under its parent's row. |
| NameTree.InsertMissingLinked | export_layers/gui_previews.py:612-615 | Once the ancestors before it have rows, a missing ancestor is inserted under its parent's row. An ancestor that already has a row is left alone. |
| NameTree.InsertAllFolders | export_layers/gui_previews.py:582-603 | With layer groups as folders, inserting all items gives a row to every element and every ancestor, and nothing else. Every row hangs under its parent's row. |
| NameTree.InsertAllFlat | export_layers/gui_previews.py:582-603 | Without folders, every element gets a row, and only stored elements are added. Each row hangs under the root or under its parent's row. |
| NameTree.UpdateElem | export_layers/gui_previews.py:605-610 | Rewrites one existing row with the element's tag flag, sensitive, and its name. The row keeps its parent, and no other row changes. |
| NameTree.UpdateParents | export_layers/gui_previews.py:617-619 | Runs `UpdateElem` over an element's ancestors, root first. `UpdateParentsShape` states the result. |
| NameTree.UpdateAll | export_layers/gui_previews.py:576-580 | Walks the tree's iteration order. With groups as folders, the ancestors' rows are refreshed first, then the element's own row. `UpdateAllShape`, `UpdateAllRefreshes`, `UpdateAllFixed` and `UpdateAllIdempotent` state the result. |
| NameTree.UpdateParentsShape | export_layers/gui_previews.py:605-619 | Refreshing an element's ancestors changes neither the rows nor their parents. Each ancestor's row then carries its current name and tag flag and is sensitive, and every other entry is unchanged. |
| NameTree.UpdateAllShape | export_layers/gui_previews.py:576-580 | An in-place refresh changes neither the set of rows nor any row's parent. This is the "not reparented, added or removed" promise of `update_existing_contents_only`. |
| NameTree.UpdateAllRefreshes | export_layers/gui_previews.py:576-580 | After an in-place refresh, every element's row (and, with folders, every ancestor's row) shows its current name and tag flag and is sensitive. |
| NameTree.UpdateAllFixed | export_layers/gui_previews.py:576-580 | A table whose rows are all already up to date is left exactly as it is by a refresh. |
| NameTree.UpdateAllIdempotent | export_layers/gui_previews.py:576-580 | Refreshing twice gives the same table as refreshing once. |
| NameTree.SetSensitive | export_layers/gui_previews.py:658-661 | Sets the sensitive flag of an ID that has a row. An ID without a row only has the default stored for it. `SetSensitiveShape` states the result. |
| NameTree.AnyChildSensitive | export_layers/gui_previews.py:665-667 | The `any(...)` over the children the table knows: some child with a row is sensitive. A child that holds only the default counts as insensitive (see Left out). |
| NameTree.PropagateUp | export_layers/gui_previews.py:663-668 | Visits the ancestors nearest first. Each one is set to `AnyChildSensitive` of its children as they stand at that moment. `PropagateUpFrame`, `PropagateUpOr` and `PropagateUpOrNearest` state the result. |
| NameTree.SetSensitiveShape | export_layers/gui_previews.py:658-661 | Setting one item's sensitivity changes only that row's sensitive flag, and only if it has a row. A missing ID only gains the stored default. |
| NameTree.PropagateUpFrame | export_layers/gui_previews.py:663-668 | Propagating sensitivity up an ancestor chain changes only sensitive flags, and only on those ancestors. |
| NameTree.PropagateUpOr | export_layers/gui_previews.py:663-668 | After the pass, each ancestor that has a row is sensitive exactly when one of its children with a row is sensitive. The pass runs nearest ancestor first. |
| NameTree.PropagateUpOrNearest | export_layers/gui_previews.py:663-668 | The step for one ancestor: the OR over its children that it computes still holds once the remaining, farther ancestors are processed. |
| NameTree.SetAll | export_layers/gui_previews.py:670-674 | Runs `SetSensitive` over the listed elements in order. With groups as folders, each element is followed by `PropagateUp` over its ancestors. `SetAllShape` and `SetAllFlat` state the result. |
| NameTree.SetAllShape | export_layers/gui_previews.py:670-674 | Setting sensitivity over a list of elements (with folders, propagating up) changes only sensitive flags, and adds only defaults for stored IDs. |
| NameTree.SetAllFlat | export_layers/gui_previews.py:670-674 | Without folders, each listed row gets exactly the requested sensitivity, and every other row keeps its own. |
| NameTree.Tagged | export_layers/gui_previews.py:644-646 | The listed elements that carry tags, in order: the temporary `has_tags` rule applied to an iteration. `TaggedMembers` states its members. |
| NameTree.TaggedMembers | export_layers/gui_previews.py:644-646 | The `has_tags` filter keeps exactly the listed elements that carry tags. |
| NameTree.ItemsSensitive | export_layers/gui_previews.py:637-653 | The table after `_set_items_sensitive`. With "only selected layers", every element is set insensitive, then the selected ones sensitive. With "tagged layers", the tagged elements are set insensitive. With groups as folders, the tagged non-empty groups are then also set insensitive, without propagation. `ItemsSensitiveShape` and `ItemsSensitiveFlat` state the result. |
| NameTree.ItemsSensitiveShape | export_layers/gui_previews.py:637-653 | Greying out skipped items changes only sensitive flags and never adds or removes a row. |
| NameTree.ItemsSensitiveFlat | export_layers/gui_previews.py:637-646 | Without folders, a row is insensitive if the layer is tagged and tagged layers are processed. Otherwise it is sensitive if only selected layers are exported and the layer is selected, and insensitive if only selected layers are exported and the layer is not selected. In any other case it keeps its previous state. |
| NameTree.ItemsSensitiveTaggedGroups | export_layers/gui_previews.py:648-653 | With tagged layers processed and groups as folders, every tagged non-empty group that has a row ends insensitive. The last pass sets them without propagating, so no later step turns them sensitive again. |
| NameTree.FilterPresent | export_layers/gui_previews.py:729 | The filtered selection is never longer than the selection. |
| NameTree.FilterPresentMembers | export_layers/gui_previews.py:729 | The filtered selection holds exactly the selected IDs that the table knows. |
| NameTree.FilterPresentAppend | export_layers/gui_previews.py:729 | The filter keeps relative order: filtering a concatenation is concatenating the filtered parts. |
| NameTree.FilterPresentKeepsKnown | export_layers/gui_previews.py:729 | A selection of known IDs passes through unchanged, so filtering twice is the same as filtering once. |
| NameTree.WithRows | export_layers/gui_previews.py:731-734 | The selected IDs whose row exists, in selection order: the rows `_set_selection` selects in the view. It is never longer than the selection. `WithRowsMembers` states its members. |
| NameTree.WithRowsMembers | export_layers/gui_previews.py:731-734 | The rows selected in the view are exactly the selected IDs that have a row. |
| NameTree.WithRowsSameRows | export_layers/gui_previews.py:731-734 | Which rows get selected depends only on which IDs have rows, not on their contents. |
| NameTree.Pruned | export_layers/gui_previews.py:716-724 | Without a tree, the collapsed set unchanged. With one, the collapsed IDs that the unfiltered tree contains. `PrunedMembers` states its members. |
| NameTree.PrunedMembers | export_layers/gui_previews.py:716-724 | With a layer tree, pruning keeps exactly the collapsed IDs that the unfiltered tree stores. Without a tree, every collapsed ID is kept. Nothing is ever added. |
| NamePreview.ExportNamePreview.constructor | export_layers/gui_previews.py:131-157 | Missing collapsed and selected items default to empty. The table is empty, both interactive flags are set, and the first selection pass scrolls to the selection. |
| NamePreview.ExportNamePreview.Update | export_layers/gui_previews.py:159-201 | Locked: nothing changes and nothing runs. Unlocked: the table is rebuilt from the produced tree, or refreshed in place with `update_existing_contents_only`. In the rebuild case, collapsed items are pruned, and the rows returned for collapsing are exactly the pruned collapsed IDs that have a row in the rebuilt table. An in-place refresh collapses no row. The selection is filtered to the known IDs, and sensitivity follows the settings. Either way the tree ends filtered again. The result also reports which tree the pipeline received, the rows to select and the initial scroll target. An in-place refresh needs only that every row it refreshes exists and, when only selected layers are exported, that the selected IDs the table knows are stored in the tree. Rows of deleted layers may remain. |
| NamePreview.ExportNamePreview.Refresh | export_layers/gui_previews.py:176-201 | The body of `update` once the lock is found free: it enables the widget if asked, then runs `Reload`, `Reapply` and `UpdateDisplayedTags`. It ensures the unlocked half of `Update`'s contract, clause for clause. |
| NamePreview.ExportNamePreview.Reload | export_layers/gui_previews.py:179-190 | The first half of an update. It clears and rebuilds the table, or refreshes it in place, and reports which rows to collapse again. In-place refreshes never touch collapsed items or their rows, and keep the table's IDs, so a selected ID the table knows stays stored in the tree. |
| NamePreview.ExportNamePreview.Reapply | export_layers/gui_previews.py:192-193 | The second half of an update. It filters the selection to the table's IDs and applies the sensitivity the settings call for. When only selected layers are exported, it needs the selected IDs the table knows to be stored in the tree, as the lookup at gui_previews.py:641 does; the selection is then all stored. |
| NamePreview.ExportNamePreview.UpdateDisplayedTags | export_layers/gui_previews.py:354-365 | Leaves the tree filtered again, with the same elements and order. |
| NamePreview.ExportNamePreview.Clear | export_layers/gui_previews.py:203-211 | The table is emptied and the clearing flag is down again afterwards. The selection is kept. |
| NamePreview.ExportNamePreview.SetCollapsedItems | export_layers/gui_previews.py:216-222 | The collapsed set becomes the given set pruned against the tree. Exactly the pruned IDs that have rows are collapsed. |
| NamePreview.ExportNamePreview.SetSelectedItems | export_layers/gui_previews.py:224-230 | The selection becomes the given IDs that the table knows, in order. The view selects the ones with rows. |
| NamePreview.ExportNamePreview.OnTreeViewRowCollapsed | export_layers/gui_previews.py:526-529 | A collapse by the user adds the row's ID to the collapsed set. A programmatic collapse changes nothing. |
| NamePreview.ExportNamePreview.OnTreeViewRowExpanded | export_layers/gui_previews.py:531-539 | An expansion by the user removes the ID from the collapsed set, then prunes that set against the unfiltered tree, which is left filtered again. The rows returned for collapsing are the pruned collapsed IDs that have a row and that the view reports as expanded after the expansion. A programmatic expansion changes nothing and collapses no row. |
| NamePreview.ExportNamePreview.OnTreeSelectionChanged | export_layers/gui_previews.py:541-550 | A selection change by the user replaces the stored selection. It requests an update exactly when only selected layers are exported and the selection actually changed. A change made while clearing or by the preview itself is ignored. |
| NamePreview.ExportNamePreview.ProcessItems | export_layers/gui_previews.py:559-574 | The pipeline receives no tree when items are reset. Otherwise it receives the initial tree, used once and then dropped, or the current tree. |
| NamePreview.ExportNamePreview.InsertItemElem | export_layers/gui_previews.py:588-603 | Appends one element's row under its parent's row, as `NameTree.InsertElem` specifies. |
| NamePreview.ExportNamePreview.InsertParentItemElems | export_layers/gui_previews.py:612-615 | The loop over an element's ancestors inserts exactly the missing ones, root first. |
| NamePreview.ExportNamePreview.InsertItems | export_layers/gui_previews.py:582-586 | The loop over the tree leaves the table that `NameTree.InsertAll` describes. |
| NamePreview.ExportNamePreview.UpdateItemElem | export_layers/gui_previews.py:605-610 | Rewrites one row's name, tag flag and sensitivity in place. |
| NamePreview.ExportNamePreview.UpdateParentItemElems | export_layers/gui_previews.py:617-619 | The loop over the ancestors refreshes each of their rows. |
| NamePreview.ExportNamePreview.UpdateItems | export_layers/gui_previews.py:576-580 | The loop over the tree leaves the table that `NameTree.UpdateAll` describes. |
| NamePreview.ExportNamePreview.SetItemElemSensitive | export_layers/gui_previews.py:658-661 | Sets one row's sensitivity, and only if the row exists. |
| NamePreview.ExportNamePreview.SetParentItemElemsSensitive | export_layers/gui_previews.py:663-668 | The loop over the reversed ancestors leaves the table that `NameTree.PropagateUp` describes. |
| NamePreview.ExportNamePreview.SetItemElemsSensitive | export_layers/gui_previews.py:670-674 | The loop over the elements leaves the table that `NameTree.SetAll` describes. |
| NamePreview.ExportNamePreview.SetItemsSensitive | export_layers/gui_previews.py:637-653 | The passes over the whole tree, the selected items and the tagged items (with folders, also the tagged groups) leave the table that `NameTree.ItemsSensitive` describes. |
| NamePreview.ExportNamePreview.SetExpandedItems | export_layers/gui_previews.py:687-714 | Prunes the collapsed set. With no path it collapses every pruned ID that has a row; with a path, only those the view shows expanded. The interactive flag is down during the loop and up afterwards. |
| NamePreview.ExportNamePreview.RemoveNoLongerValidCollapsedItems | export_layers/gui_previews.py:716-724 | Keeps the collapsed IDs that the unfiltered tree stores, and leaves the tree filtered again. |
| NamePreview.ExportNamePreview.SetSelection | export_layers/gui_previews.py:726-740 | Filters the selection to the IDs the table knows and selects those with rows. Only on the first pass does it scroll to the first selected item. |
| NamePreview.Built | export_layers/gui_previews.py:179-188 | The table a full update inserts into the cleared table: `InsertAll` over the tree's whole iteration, starting empty. |
| NamePreview.BuiltKeysStored | export_layers/gui_previews.py:582-603 | A full rebuild gives rows only to IDs the tree stores. |
| NamePreview.SelectedStored | export_layers/gui_previews.py:640-641 | The selected IDs the table knows are all stored in the tree. This is what the lookup `layer_tree[item_id]` needs when only selected layers are exported. |
| NamePreview.SomeMember | export_layers/gui_previews.py:705-713 | A helper for the loop over `_collapsed_items`, with no content of its own: a non-empty set has a member. |
| NamePreview.PipelineInput | export_layers/gui_previews.py:559-569 | Resetting items hands the pipeline no tree. Otherwise an initial tree takes precedence over the current one. |
| NamePreview.FilteredAgain | export_layers/gui_previews.py:719-724 | Lifting and restoring `is_filtered` leaves a tree only if there was one. That tree stores the same elements and iterates in the same order, and it is filtered again. |
| NamePreview.InitialScroll | export_layers/gui_previews.py:750-754 | A scroll target exists exactly when it is the first pass, the selection is non-empty and its first item has a row. The target is that first item. |
| PreviewSizing.RoundRatio | export_layers/gui_previews.py:1062-1075 | `int(round(p / q))` for non-negative values: the result is within one half of p/q, and a tie rounds up. |
| PreviewSizing.RoundRatioError | export_layers/gui_previews.py:1062-1075 | The rounded ratio, scaled back by q, lies within q/2 of p. |
| PreviewSizing.Min3 | export_layers/gui_previews.py:1062-1070 | The minimum of widget, image and maximum size: bounded by each of them and equal to one of them. |
| PreviewSizing.FitByHeight | export_layers/gui_previews.py:1062-1068 | The branch for a widget wider than tall. The height is the minimum of the widget's height, the image's height and the maximum size, and the width is rounded to the aspect. If that width overflows the widget, the width becomes the widget's and the height is rounded again. `FitByHeightBounds` states its bounds. |
| PreviewSizing.FitByHeightBounds | export_layers/gui_previews.py:1062-1068 | The wide-widget branch fits the widget's width and stays within its own height bound. |
| PreviewSizing.FitByWidth | export_layers/gui_previews.py:1069-1075 | The other branch, with width and height exchanged. `FitByWidthBounds` states its bounds. |
| PreviewSizing.FitByWidthBounds | export_layers/gui_previews.py:1069-1075 | The tall-widget branch fits the widget's height and stays within its own width bound. |
| PreviewSizing.PreviewSize | export_layers/gui_previews.py:1057-1082 | The preview size is at least 1x1. |
| PreviewSizing.PreviewSizePrimaryBound | export_layers/gui_previews.py:1062-1076 | The leading side (height for a wide widget, width otherwise) never exceeds the widget, the image or 1024 pixels, unless it was raised to 1. |
| PreviewSizing.PreviewSizeFitsAllocation | export_layers/gui_previews.py:1057-1082 | In a widget of positive size, the preview fits inside the widget on both sides. |
| PreviewSizing.SecondPassShrinks | export_layers/gui_previews.py:1062-1075 | When the first pass overflows the other side, the second pass does not exceed the first pass's bound. |
| PreviewSizing.PreviewSizeKeepsAspect | export_layers/gui_previews.py:1062-1076 | Unless one side was clamped to 1, the preview has the image's aspect ratio up to rounding to the nearest pixel. |
| PreviewSizing.RescaleTarget | export_layers/gui_previews.py:1084-1110 | There is no rescale without a pixbuf, or when the widget is at least as large as the pixbuf on both sides. A rescale goes to the preview size of the pixbuf. The rescale is skipped exactly when that size is already cached. |
| PreviewSizing.IsLargerThanImage | export_layers/gui_previews.py:858-866 | A pixbuf is shown and the widget is strictly larger than it in both directions; without a pixbuf, false. `LargerThanImageSkipsRescale` states what follows from it. |
| PreviewSizing.LargerThanImageSkipsRescale | export_layers/gui_previews.py:858-866 | When `is_larger_than_image` holds, a resize never rescales. |
| PreviewSizing.RescaleSettles | export_layers/gui_previews.py:1095-1110 | Once a rescale has recorded its size, repeating it at the same allocation does nothing. |
| PreviewSizing.RescaleFitsAllocation | export_layers/gui_previews.py:1092-1110 | In a widget of positive size, a rescale target is at least 1x1 and fits inside the widget. |
| ImagePreview.WithLayerElem | export_layers/gui_previews.py:881-887 | The setter stores the element. Setting None also drops the pixbuf and both cached sizes; setting an element keeps them. |
| ImagePreview.InitialLayerElem | export_layers/gui_previews.py:911-922 | An existing element is kept. Without one, the initial layer ID is used once and then forgotten. The element is found exactly when the pipeline left a tree that contains that ID, and it is the element stored under that ID. |
| ImagePreview.InitialLayerElemUsedOnce | export_layers/gui_previews.py:911-922 | A second call without an element never finds the initial layer again, whatever tree it is given. |
| ImagePreview.Cleared | export_layers/gui_previews.py:840-844 | The state after `clear(use_layer_name)`: the setter with None, the image emptied and hidden, the placeholder shown, and the "No selection" label unless the layer name is kept. `ClearedShowsPlaceholder` states the result. |
| ImagePreview.ClearedShowsPlaceholder | export_layers/gui_previews.py:840-844 | Clearing drops the element, the pixbuf and the displayed image, and shows the placeholder. The label reads "No selection" unless the layer name is kept. Nothing else changes. |
| ImagePreview.AfterResize | export_layers/gui_previews.py:1084-1110 | The state after `_resize_preview`: unchanged when `RescaleTarget` gives nothing. Otherwise the image is shown at the target size and that size is recorded. `AfterResizeRecordsPreviewSize` states the result. |
| ImagePreview.Resized | export_layers/gui_previews.py:849-856 | The state after `resize()`: `AfterResize` of the current pixbuf, except while an update is rendering or the image is unmapped, when nothing changes. The `Resized*` lemmas state its properties. |
| ImagePreview.AfterResizeRecordsPreviewSize | export_layers/gui_previews.py:1084-1110 | A resize either changes nothing, or it displays the pixbuf at its preview size and records that size. It does the latter only when the pixbuf overflows the widget and the size is not already cached. |
| ImagePreview.ResizedIdempotent | export_layers/gui_previews.py:849-856 | Resizing twice at the same allocation is resizing once, and the cache stays consistent. |
| ImagePreview.ResizedKeepsCacheMatchingDisplay | export_layers/gui_previews.py:849-856 | A resize keeps the cache consistent and keeps the cached size equal to the displayed size. |
| ImagePreview.ResizedWhileUpdating | export_layers/gui_previews.py:854-856 | While an update runs, or while the image is not mapped, a resize does nothing. |
| ImagePreview.ResizedFits | export_layers/gui_previews.py:849-856 | Whenever a resize changes the display, the new image is at least 1x1 and fits the widget. |
| ImagePreview.UpdatedElem | export_layers/gui_previews.py:807 | The element `update` settles on: the one `_set_initial_layer_elem` returns for the current element, the initial ID and the exporter's tree. |
| ImagePreview.ExportReached | export_layers/gui_previews.py:807-816 | An update gets as far as exporting: there is a settled element, the filter accepts it, and its GIMP item is still valid. |
| ImagePreview.Chosen | export_layers/gui_previews.py:805-808 | The start of `update` once the lock is free: the widget enabled if asked, then the element settled through `_set_initial_layer_elem` and stored with the `layer_elem` setter. `ChosenSettlesLayer` states the result. |
| ImagePreview.ChosenSettlesLayer | export_layers/gui_previews.py:805-808 | The start of an update enables sensitivity on request and settles the element, using the initial ID once. It keeps the pixbuf and the cache when an element is found, and it keeps both cache invariants. |
| ImagePreview.Previewed | export_layers/gui_previews.py:809-838 | The rest of `update` from the settled element. With no element, nothing changes. An element the filter rejects is dropped. An invalid item clears the preview. Otherwise `Exported` runs: this is the corrected step, which drops the cache (see Findings). `PreviewedOutcome` and `PreviewedKeepsCacheConsistent` state the result. |
| ImagePreview.ExportedAsWritten | export_layers/gui_previews.py:818-838 | The export step as the source has it. The image widget is shown with the layer's name and the initial tree is used up. Then the rendered pixbuf is shown, keeping the size cached by the previous rescale, or the preview is cleared keeping the name. |
| ImagePreview.Exported | export_layers/gui_previews.py:818-838 | The corrected export step: `ExportedAsWritten` with the cached rescale size dropped along with the pixbuf it described (see Findings). |
| ImagePreview.PreviewedAsWritten | export_layers/gui_previews.py:809-838 | The rest of `update` as the source has it: the branches of `Previewed`, with `ExportedAsWritten` as the export step. |
| ImagePreview.AfterUpdate | export_layers/gui_previews.py:801-838 | The corrected `update` once the lock is free: `Chosen`, then `Previewed`. `UpdateKeepsCacheConsistent`, `UpdateShowsRenderedLayer`, `UpdateFallsBackToPlaceholder` and `UpdateUsesInitialsOnce` state the result. |
| ImagePreview.AfterUpdateAsWritten | export_layers/gui_previews.py:801-838 | The source's `update` once the lock is free: `Chosen`, then `PreviewedAsWritten`. `AsWrittenDiffersOnlyInCache`, `UpdateAsWrittenShowsRenderedLayer`, `UpdateAsWrittenCache` and `StaleCacheLeavesOverflow` state the result. |
| ImagePreview.PreviewedOutcome | export_layers/gui_previews.py:809-838 | A layer stays shown exactly when it matches the filter, is still valid and renders. It is then shown by its name, at the rendered size. Proved of the corrected export step, so the cache is reset (see Findings). A layer that matches but is invalid or fails to render leaves the placeholder, labelled "No selection" or with the layer name respectively. The initial tree is dropped once the export is reached. |
| ImagePreview.PreviewedKeepsCacheConsistent | export_layers/gui_previews.py:809-838 | With the corrected export step (see Findings), every way out of the second half of an update keeps the cache consistent and equal to the displayed size. |
| ImagePreview.UpdateKeepsCacheConsistent | export_layers/gui_previews.py:801-838 | With the corrected export step (see Findings), a whole update keeps both cache invariants. |
| ImagePreview.UpdateShowsRenderedLayer | export_layers/gui_previews.py:801-838 | After an update, a layer is previewed exactly when the settled element reaches the export and renders. It is then displayed at the rendered size with its name. Proved of the corrected update, so the cache is reset (see Findings). |
| ImagePreview.UpdateFallsBackToPlaceholder | export_layers/gui_previews.py:816-836 | A matching element that is invalid or fails to render leaves no element, no pixbuf and the placeholder shown. The label reads "No selection" for an invalid item and keeps the layer name for a failed render. |
| ImagePreview.UpdateUsesInitialsOnce | export_layers/gui_previews.py:801-838 | An update forgets the initial layer ID once it looks for an element. It drops the initial tree once an export runs, and it enables sensitivity on request. |
| ImagePreview.AfterLayerElemRefresh | export_layers/gui_previews.py:868-875 | The state after `update_layer_elem()`: when there is an element and the current tree contains its ID, and the filter accepts the tree's element for that ID, that element replaces it and its name is shown. Otherwise nothing changes. `LayerElemRefreshKeepsLayer` states the result. |
| ImagePreview.LayerElemRefreshKeepsLayer | export_layers/gui_previews.py:868-875 | Refreshing the element keeps the same layer ID (or none), and keeps the pixbuf, the cache and the displayed image. |
| ImagePreview.StaleCacheLeavesOverflow | export_layers/gui_previews.py:801-838 | As written: after a rescale, a widget grown and then a re-render by `update`, shrinking the widget back leaves the full-size image overflowing it. |
| ImagePreview.AsWrittenDiffersOnlyInCache | export_layers/gui_previews.py:801-838 | The update as written equals the corrected update, except after a successful render, where it keeps the rescale size cached before the update. |
| ImagePreview.UpdateAsWrittenShowsRenderedLayer | export_layers/gui_previews.py:801-838 | As written, a layer is previewed after an update exactly when the settled element reaches the export and renders. It is then displayed at the rendered size with its name, and the cache still holds the size from before the update. |
| ImagePreview.UpdateAsWrittenCache | export_layers/gui_previews.py:801-838 | As written, an update keeps the cache consistent. After a render with a size cached, the cache matches the display exactly when the new pixbuf has the cached size. In every other case the match is kept. |
| ImagePreview.ResizedFitsOverflowingPixbuf | export_layers/gui_previews.py:849-856 | With the corrected update, resizing a widget smaller than the pixbuf always leaves a displayed image that fits the widget. The cache keeps matching the display. |
| ImagePreview.ExportImagePreview.constructor | export_layers/gui_previews.py:769-799 | A new preview has no element, no pixbuf, no cache and the "No selection" placeholder, and both cache invariants hold. |
| ImagePreview.ExportImagePreview.Update | export_layers/gui_previews.py:801-838 | Locked: nothing changes and the pipeline is not run. Unlocked: the new state is the one `AfterUpdate` describes, and the pipeline receives the initial tree, used once, or the current tree exactly when the export is reached. |
| ImagePreview.ExportImagePreview.Settle | export_layers/gui_previews.py:804-808 | The new state is the one `Chosen` describes. |
| ImagePreview.ExportImagePreview.ShowLayer | export_layers/gui_previews.py:809-838 | The new state is the one `Previewed` describes. The pipeline receives a tree exactly when the export is reached: the initial tree if one is left, else the exporter's current tree. |
| ImagePreview.ExportImagePreview.Export | export_layers/gui_previews.py:818-838 | Shows the rendered pixbuf with the layer's name, or clears keeping the name. The initial tree is used up and the cache is dropped (the corrected step, see Findings). Returns the tree the export runs on. |
| ImagePreview.ExportImagePreview.SetInitialLayerElem | export_layers/gui_previews.py:911-922 | Returns the element and leaves the initial ID as `InitialLayerElem` describes. |
| ImagePreview.ExportImagePreview.SetLayerElem | export_layers/gui_previews.py:881-887 | Stores the element; None drops the pixbuf and both cached sizes. |
| ImagePreview.ExportImagePreview.Clear | export_layers/gui_previews.py:840-844 | Drops the element, the pixbuf, the cache and the image, and shows the placeholder with the right label. |
| ImagePreview.ExportImagePreview.Resize | export_layers/gui_previews.py:849-856 | The new state is the one `Resized` describes. |
| ImagePreview.ExportImagePreview.ResizePreview | export_layers/gui_previews.py:1084-1110 | Its three early returns and its rescale leave the state that `AfterResize` describes. |
| ImagePreview.ExportImagePreview.UpdateLayerElem | export_layers/gui_previews.py:868-875 | The new state is the one `AfterLayerElemRefresh` describes. |

## Left out

- The GTK widgets, icons, markup escaping, column autosizing and the `on_after_update` and `on_selection_changed` callbacks are not modelled. The view's behaviour is returned as data: rows to collapse, rows to select, the scroll target, and whether an update is requested.
- The export pipeline (`export_layers/exportlayers.py`), `modify_export_settings` and `reset_item_elements` are not part of this model. The produced layer tree, the filter's verdict, the item's validity and the rendered thumbnail size are parameters.
- `_enable_filtered_items`: the tree's `order` is what iteration yields once the selection and tag rules are lifted. The filter rules themselves, and their temporary addition and removal, are not modelled.
- The name preview's tag menu, the tag collection of `_update_displayed_tags` (only its reset of the tree's `is_filtered` is modelled), `_get_icon_from_item_elem`, `_set_cursor`, and the `get_layer_elems_from_selected_rows` and `get_layer_elem_from_cursor` accessors are not modelled: they draw the view or read it.
- The GTK tree store's paths: rows are keyed by layer ID, so re-inserting an ID replaces its entry, where GTK would leave an orphaned row.
- `_tree_model.get_path(None)`, reached when the first selected ID has only the stored default, would raise in the source. `NamePreview.InitialScroll` does not scroll in that case.
- `set_sensitive` is modelled only as the `widgetSensitive` flag. `temporarily_disable_setting_events_on_update` is a settings hand-off outside this core.
- The image preview's rendering (`_get_in_memory_preview`, `_get_image_preview`, thumbnails, mask removal, alpha-checkerboard compositing, `_cleanup`) is modelled only by the size of the rendered pixbuf. The restore of the tree's filter after the export is not modelled.
- The event pumping before rendering (`gtk.events_pending`) and `_on_vbox_size_allocate`, which only hides the placeholder icon, are not modelled.
- `PreviewSizing.PreviewSize` uses exact rational rounding with ties going up. It does not model IEEE double rounding of `(a / b) * c` near a half.
- `_get_in_memory_preview` also computes `_preview_scaling_factor` and resizes the image copy. That size only feeds the rendered pixbuf, which is a parameter here.
- The name preview's `Update` is split into `Refresh` (the unlocked body), `Reload` and `Reapply`, and the image preview's into `Settle`, `ShowLayer` and `Export`, so that each proof stays small. Together they run the source's statements in the source's order.
- `ImagePreview.ExportImagePreview.Update` follows the corrected behaviour from Findings: a re-render resets the cached rescale size. The code as written keeps it; `ImagePreview.AfterUpdateAsWritten` models that.
- PreviewedOutcome: states the outcome of the corrected export step, which resets the rescale cache. The source keeps the cache; `ImagePreview.UpdateAsWrittenShowsRenderedLayer` states the outcome as written.
- PreviewedKeepsCacheConsistent: holds of the corrected export step only. As written, the cache stops matching the display after a re-render at a new size, as `ImagePreview.UpdateAsWrittenCache` states.
- UpdateKeepsCacheConsistent: holds of the corrected update only. As written, only the consistency half holds, as `ImagePreview.UpdateAsWrittenCache` states.
- UpdateShowsRenderedLayer: states that the cache is reset, which is the correction. As written, the cache keeps its old size, as `ImagePreview.UpdateAsWrittenShowsRenderedLayer` states.
- SetParentItemElemsSensitive: counts a child that holds only the stored default as insensitive. The source passes that default (None) to `get_value` at gui_previews.py:665-667, which raises a TypeError. This happens when an earlier pass stored the default for a child and a later pass propagates to its parent, and the model does not capture the raise.
- SetItemElemsSensitive: with groups as folders, its propagation inherits the gap of SetParentItemElemsSensitive: it completes where the source raises on a child holding only the default.
- SetItemsSensitive: with groups as folders, its passes inherit the gap of SetParentItemElemsSensitive: they complete where the source raises on a child holding only the default.
- Reapply: its sensitivity pass inherits the gap of SetParentItemElemsSensitive: it completes where the source raises on a child holding only the default.
- Update: an in-place refresh requires a row for every element it refreshes, and, with folders, for each element's ancestors. A layer added since the last full update has no row, so the source's `_tree_model.set(None, …)` at gui_previews.py:606 raises a TypeError. The model does not capture that raise. The same holds for UpdateItems, UpdateItemElem and UpdateParentItemElems.
- Update: the requirement that, when only selected layers are exported, every selected ID the table knows is stored in the tree stands for the KeyError that `layer_tree[item_id]` at gui_previews.py:641 raises otherwise. That raise is not modelled either.

## Findings

| source | as written | input that shows it | evidently intended | confidence | as-written member | corrected member |
|---|---|---|---|---|---|---|
| export_layers/gui_previews.py:801-838 | `update` replaces `_preview_pixbuf` with a freshly rendered pixbuf but leaves `_previous_preview_pixbuf_width/height` as they were. The setter resets them only when the element becomes None. | Render a 200x100 layer. Shrink the widget to 100x100: the image is rescaled to 100x50 and 100x50 is cached. Grow the widget to 200x200: no rescale. Update: re-rendered at 200x100. Shrink back to 100x100: the target 100x50 equals the cache, so the rescale is skipped and the 200x100 image stays. | `resize` promises that the image fits the widget after a resize, so a new pixbuf should invalidate the cached rescale size. | medium; not executed | ImagePreview.StaleCacheLeavesOverflow | ImagePreview.ResizedFitsOverflowingPixbuf |

/**
 * `ExportImagePreview` (export_layers/gui_previews.py): the preview of one
 * layer's exported contents. The model keeps the bookkeeping around the
 * rendered image: which layer is previewed, the pixbuf GIMP rendered for it,
 * the cached size of the last rescale, and what the widget shows.
 *
 * The export pipeline and GIMP's thumbnail are inputs: the filter's verdict
 * (`isMatch`), whether the GIMP item still exists (`isValid`) and the size of
 * the pixbuf the export renders (`rendered`, None when the export fails).
 * Sizes come from PreviewSizing.
 */
module ImagePreview {
  import opened Wrappers
  import opened LayerTrees
  import opened PreviewSizing
  import opened UpdateLocking

  /** The label text `clear` shows when no layer name is kept. */
  const NoSelectionLabel: string := "No selection"

  /** Every field of the preview that its methods change. */
  datatype ImageState = ImageState(
    initialLayerTree: Option<LayerTree>,
    initialPreviewedLayerId: Option<ItemId>,
    layerElem: Option<ItemElem>,
    /** `_preview_pixbuf`: the unscaled pixbuf of the last export, by its size. */
    previewPixbuf: Option<Size>,
    previousPreviewPixbufWidth: Option<nat>,
    previousPreviewPixbufHeight: Option<nat>,
    /** The size of the pixbuf `_preview_image` shows; None once cleared. */
    displayed: Option<Size>,
    previewShown: bool,
    placeholderShown: bool,
    labelText: string,
    widgetSensitive: bool,
    isUpdating: bool)

  /**
   * The state the methods keep: a pixbuf exists only for a previewed layer,
   * a cached rescale size only for an existing pixbuf, the two cached sides
   * are set together, and a pixbuf has no zero side.
   */
  predicate CacheConsistent(s: ImageState) {
    && (s.layerElem.None? ==> s.previewPixbuf.None?)
    && (s.previewPixbuf.None? ==> s.previousPreviewPixbufWidth.None?)
    && (s.previousPreviewPixbufWidth.Some? <==> s.previousPreviewPixbufHeight.Some?)
    && (s.previewPixbuf.Some? ==> Positive(s.previewPixbuf.value))
  }

  /**
   * The `layer_elem` setter: store the element; setting None also drops the
   * pixbuf and the cached rescale size.
   */
  function WithLayerElem(s: ImageState, value: Option<ItemElem>): (r: ImageState)
    ensures r.layerElem == value
    ensures value.None? ==>
      r.previewPixbuf.None? && r.previousPreviewPixbufWidth.None? && r.previousPreviewPixbufHeight.None?
    ensures value.Some? ==>
      r.previewPixbuf == s.previewPixbuf && r.previousPreviewPixbufWidth == s.previousPreviewPixbufWidth &&
      r.previousPreviewPixbufHeight == s.previousPreviewPixbufHeight
  {
    if value.None? then
      s.(layerElem := value, previewPixbuf := None, previousPreviewPixbufWidth := None,
         previousPreviewPixbufHeight := None)
    else s.(layerElem := value)
  }

  /**
   * `_set_initial_layer_elem(layer_elem)` against the exporter's current
   * tree: the element to preview and what remains of the initial layer ID.
   * A missing element is looked up by the initial ID, which is used up by
   * the attempt whether or not the tree holds it.
   */
  function InitialLayerElem(layerElem: Option<ItemElem>, initialId: Option<ItemId>,
                            current: Option<LayerTree>): (r: (Option<ItemElem>, Option<ItemId>))
    requires current.Some? ==> WellFormed(current.value)
    ensures layerElem.Some? ==> r == (layerElem, initialId)
    ensures layerElem.None? ==> r.1.None?
    ensures layerElem.None? ==>
      (r.0.Some? <==> current.Some? && initialId.Some? && Contains(current.value, initialId.value))
    ensures layerElem.None? && r.0.Some? ==>
      initialId.value in current.value.elems && r.0.value == current.value.elems[initialId.value] &&
      r.0.value.id == initialId.value
  {
    if layerElem.None? then
      if current.Some? && initialId.Some? && Contains(current.value, initialId.value) then
        (Some(current.value.elems[initialId.value]), None)
      else (None, None)
    else (layerElem, initialId)
  }

  /** The initial layer ID serves one lookup: a second one finds nothing, whatever the tree. */
  lemma InitialLayerElemUsedOnce(initialId: Option<ItemId>, first: Option<LayerTree>, second: Option<LayerTree>)
    requires first.Some? ==> WellFormed(first.value)
    requires second.Some? ==> WellFormed(second.value)
    ensures InitialLayerElem(None, InitialLayerElem(None, initialId, first).1, second) == (None, None)
  {
  }

  /**
   * `clear(use_layer_name)`: no layer (so no pixbuf and no cached size), the
   * image emptied and hidden, the placeholder shown and, unless the layer
   * name is kept, the "No selection" label.
   */
  function Cleared(s: ImageState, useLayerName: bool): (r: ImageState)
  {
    WithLayerElem(s, None).(displayed := None, previewShown := false, placeholderShown := true,
                            labelText := if useLayerName then s.labelText else NoSelectionLabel)
  }

  /**
   * After `clear` nothing is previewed and the placeholder is up, whatever
   * the state before; the initial layer and tree and the sensitivity stay.
   */
  lemma ClearedShowsPlaceholder(s: ImageState, useLayerName: bool)
    ensures var r := Cleared(s, useLayerName);
      && CacheConsistent(r)
      && r.layerElem.None? && r.displayed.None? && !r.previewShown && r.placeholderShown
      && r.labelText == (if useLayerName then s.labelText else NoSelectionLabel)
      && r.initialLayerTree == s.initialLayerTree && r.initialPreviewedLayerId == s.initialPreviewedLayerId
      && r.widgetSensitive == s.widgetSensitive && r.isUpdating == s.isUpdating
  {
  }

  /**
   * `_resize_preview(allocation, pixbuf)`: when RescaleTarget calls for a
   * rescale, show the pixbuf at that size and record the size; otherwise
   * change nothing.
   */
  function AfterResize(s: ImageState, allocation: Size, pixbuf: Option<Size>): (r: ImageState)
    requires pixbuf.Some? ==> Positive(pixbuf.value)
  {
    var t := RescaleTarget(allocation, pixbuf, s.previousPreviewPixbufWidth, s.previousPreviewPixbufHeight);
    if t.None? then s
    else s.(displayed := t, previousPreviewPixbufWidth := Some(t.value.width),
            previousPreviewPixbufHeight := Some(t.value.height))
  }

  /** `resize()`: rescale the current pixbuf, unless an update is rendering or the image is unmapped. */
  function Resized(s: ImageState, allocation: Size, mapped: bool): (r: ImageState)
    requires s.previewPixbuf.Some? ==> Positive(s.previewPixbuf.value)
  {
    if !s.isUpdating && mapped then AfterResize(s, allocation, s.previewPixbuf) else s
  }

  /**
   * A rescale either changes nothing or shows and records exactly the size
   * `_get_preview_size` computes for the pixbuf, and only when the pixbuf
   * overflows the widget and that size differs from the recorded one.
   */
  lemma AfterResizeRecordsPreviewSize(s: ImageState, allocation: Size, pixbuf: Option<Size>)
    requires pixbuf.Some? ==> Positive(pixbuf.value)
    ensures var r := AfterResize(s, allocation, pixbuf);
      r == s ||
      (&& pixbuf.Some?
       && !(allocation.width >= pixbuf.value.width && allocation.height >= pixbuf.value.height)
       && var p := PreviewSize(allocation, pixbuf.value.width, pixbuf.value.height);
          && (s.previousPreviewPixbufWidth != Some(p.width) || s.previousPreviewPixbufHeight != Some(p.height))
          && r == s.(displayed := Some(p), previousPreviewPixbufWidth := Some(p.width),
                     previousPreviewPixbufHeight := Some(p.height)))
  {
  }

  /** Rescaling twice at the same allocation does no more than rescaling once. */
  lemma ResizedIdempotent(s: ImageState, allocation: Size, mapped: bool)
    requires CacheConsistent(s)
    ensures CacheConsistent(Resized(s, allocation, mapped))
    ensures Resized(Resized(s, allocation, mapped), allocation, mapped) == Resized(s, allocation, mapped)
  {
    if !s.isUpdating && mapped {
      var t := RescaleTarget(allocation, s.previewPixbuf, s.previousPreviewPixbufWidth, s.previousPreviewPixbufHeight);
      if t.Some? {
        RescaleSettles(allocation, s.previewPixbuf, s.previousPreviewPixbufWidth, s.previousPreviewPixbufHeight);
      }
    }
  }

  /** A resize keeps the cache naming the size on display. */
  lemma ResizedKeepsCacheMatchingDisplay(s: ImageState, allocation: Size, mapped: bool)
    requires CacheConsistent(s) && CacheMatchesDisplay(s)
    ensures CacheConsistent(Resized(s, allocation, mapped)) && CacheMatchesDisplay(Resized(s, allocation, mapped))
  {
  }

  /** While `update` renders (`_is_updating`), a resize request changes nothing. */
  lemma ResizedWhileUpdating(s: ImageState, allocation: Size, mapped: bool)
    requires s.previewPixbuf.Some? ==> Positive(s.previewPixbuf.value)
    requires s.isUpdating || !mapped
    ensures Resized(s, allocation, mapped) == s
  {
  }

  /** With a non-empty widget, whatever a resize shows fits inside the widget. */
  lemma ResizedFits(s: ImageState, allocation: Size, mapped: bool)
    requires CacheConsistent(s) && Positive(allocation)
    requires Resized(s, allocation, mapped).displayed != s.displayed
    ensures var d := Resized(s, allocation, mapped).displayed;
      d.Some? && Positive(d.value) && d.value.width <= allocation.width && d.value.height <= allocation.height
  {
    RescaleFitsAllocation(allocation, s.previewPixbuf, s.previousPreviewPixbufWidth, s.previousPreviewPixbufHeight);
  }

  /** The element `update` settles on after `_set_initial_layer_elem`. */
  function UpdatedElem(s: ImageState, current: Option<LayerTree>): Option<ItemElem>
    requires current.Some? ==> WellFormed(current.value)
  {
    InitialLayerElem(s.layerElem, s.initialPreviewedLayerId, current).0
  }

  /** `update` gets as far as exporting: a layer to preview that passes the filter and still exists. */
  predicate ExportReached(s: ImageState, current: Option<LayerTree>,
                          isMatch: ItemElem -> bool, isValid: ItemElem -> bool)
    requires current.Some? ==> WellFormed(current.value)
  {
    var e := UpdatedElem(s, current);
    e.Some? && isMatch(e.value) && isValid(e.value)
  }

  /**
   * The first steps of `update(should_enable_sensitive)` once the lock has
   * been found free: enable the widget if asked, then settle on the layer to
   * preview through `_set_initial_layer_elem` and the `layer_elem` setter.
   */
  function Chosen(s: ImageState, shouldEnableSensitive: bool, current: Option<LayerTree>): (r: ImageState)
    requires current.Some? ==> WellFormed(current.value)
  {
    var (elem, restId) := InitialLayerElem(s.layerElem, s.initialPreviewedLayerId, current);
    WithLayerElem(
      s.(widgetSensitive := s.widgetSensitive || shouldEnableSensitive, initialPreviewedLayerId := restId), elem)
  }

  /**
   * The rest of `update`, from the settled layer: nothing without one; drop
   * it when the filter rejects it; clear when its GIMP item is gone;
   * otherwise show the image widget with the layer's name, export it (using
   * up the initial tree), and show the rendered pixbuf — or clear keeping
   * the name when the export fails.
   */
  function Previewed(c: ImageState, isMatch: ItemElem -> bool, isValid: ItemElem -> bool,
                     rendered: Option<Size>): (r: ImageState)
  {
    if c.layerElem.None? then c
    else if !isMatch(c.layerElem.value) then WithLayerElem(c, None)
    else if !isValid(c.layerElem.value) then Cleared(c, false)
    else Exported(c, rendered)
  }

  /**
   * The export step of `update` for a previewed layer, as the source has it:
   * show the image widget with the layer's name, export (using up the
   * initial tree), then show the rendered pixbuf — keeping the size cached
   * by the last rescale of the previous pixbuf — or clear keeping the name.
   */
  function ExportedAsWritten(c: ImageState, rendered: Option<Size>): (r: ImageState)
    requires c.layerElem.Some?
  {
    var shown := c.(placeholderShown := false, previewShown := true, labelText := c.layerElem.value.name,
                    initialLayerTree := None);
    if rendered.Some? then shown.(previewPixbuf := rendered, displayed := rendered, isUpdating := false)
    else Cleared(shown, true).(isUpdating := false)
  }

  /**
   * The export step with the rescale cache dropped along with the pixbuf it
   * described: the cache then always names the size on display.
   */
  function Exported(c: ImageState, rendered: Option<Size>): (r: ImageState)
    requires c.layerElem.Some?
  {
    var r := ExportedAsWritten(c, rendered);
    r.(previousPreviewPixbufWidth := None, previousPreviewPixbufHeight := None)
  }

  /**
   * What `_resize_preview`'s early return on an equal size relies on: a
   * cached size is the size of the image on display.
   */
  predicate CacheMatchesDisplay(s: ImageState) {
    s.previousPreviewPixbufWidth.Some? && s.previousPreviewPixbufHeight.Some? ==>
      s.displayed == Some(Size(s.previousPreviewPixbufWidth.value, s.previousPreviewPixbufHeight.value))
  }

  /**
   * As written, a re-render keeps the stale cache: a 200x100 pixbuf rescaled
   * to 100x50 in a 100x100 widget, the widget grown to 200x200, `update`
   * re-rendering the layer at 200x100, and the widget shrunk back to
   * 100x100 — the rescale is skipped and the whole 200x100 image stays on
   * display.
   */
  lemma StaleCacheLeavesOverflow()
    ensures var e := ItemElem(1, "layer", Item, [], [], {});
      var shown := ImageState(None, None, Some(e), Some(Size(200, 100)), None, None, Some(Size(200, 100)),
                              true, false, "layer", true, false);
      var shrunk := Resized(shown, Size(100, 100), true);
      var grown := Resized(shrunk, Size(200, 200), true);
      var rerendered := AfterUpdateAsWritten(grown, false, None, (x: ItemElem) => true, (x: ItemElem) => true,
                                             Some(Size(200, 100)));
      var shrunkAgain := Resized(rerendered, Size(100, 100), true);
      && shrunk.displayed == Some(Size(100, 50))
      && grown == shrunk
      && !CacheMatchesDisplay(rerendered)
      && shrunkAgain.displayed == Some(Size(200, 100))
  {
    assert PreviewSize(Size(100, 100), 200, 100) == Size(100, 50);
  }

  /**
   * The corrected step: whenever the pixbuf is wider or taller than the
   * widget, a resize leaves on display an image that fits — the promise of
   * `resize`.
   */
  lemma ResizedFitsOverflowingPixbuf(s: ImageState, allocation: Size)
    requires CacheConsistent(s) && CacheMatchesDisplay(s) && Positive(allocation) && !s.isUpdating
    requires s.previewPixbuf.Some?
    requires !(allocation.width >= s.previewPixbuf.value.width && allocation.height >= s.previewPixbuf.value.height)
    ensures var d := Resized(s, allocation, true).displayed;
      d.Some? && d.value.width <= allocation.width && d.value.height <= allocation.height
    ensures CacheMatchesDisplay(Resized(s, allocation, true))
  {
    var p := s.previewPixbuf.value;
    PreviewSizeFitsAllocation(allocation, p.width, p.height);
  }

  /** `update` once the lock has been found free. */
  function AfterUpdate(s: ImageState, shouldEnableSensitive: bool, current: Option<LayerTree>,
                       isMatch: ItemElem -> bool, isValid: ItemElem -> bool, rendered: Option<Size>): (r: ImageState)
    requires current.Some? ==> WellFormed(current.value)
  {
    Previewed(Chosen(s, shouldEnableSensitive, current), isMatch, isValid, rendered)
  }

  /**
   * The settled state: the element `_set_initial_layer_elem` picks, the
   * initial ID used up when there was no element, and — for a non-None
   * element — the pixbuf and cache untouched.
   */
  lemma ChosenSettlesLayer(s: ImageState, shouldEnableSensitive: bool, current: Option<LayerTree>)
    requires current.Some? ==> WellFormed(current.value)
    ensures var c := Chosen(s, shouldEnableSensitive, current);
      && c.layerElem == UpdatedElem(s, current)
      && c.initialPreviewedLayerId == (if s.layerElem.None? then None else s.initialPreviewedLayerId)
      && c.initialLayerTree == s.initialLayerTree
      && c.widgetSensitive == (s.widgetSensitive || shouldEnableSensitive)
      && (c.layerElem.Some? ==>
            && c.previewPixbuf == s.previewPixbuf
            && c.previousPreviewPixbufWidth == s.previousPreviewPixbufWidth
            && c.previousPreviewPixbufHeight == s.previousPreviewPixbufHeight)
      && (CacheConsistent(s) ==> CacheConsistent(c))
      && (CacheMatchesDisplay(s) ==> CacheMatchesDisplay(c))
  {
    var (elem, restId) := InitialLayerElem(s.layerElem, s.initialPreviewedLayerId, current);
    var enabled := s.(widgetSensitive := s.widgetSensitive || shouldEnableSensitive, initialPreviewedLayerId := restId);
    assert Chosen(s, shouldEnableSensitive, current) == WithLayerElem(enabled, elem);
  }

  /** The rest of `update` keeps the cache bookkeeping consistent. */
  lemma PreviewedKeepsCacheConsistent(c: ImageState, isMatch: ItemElem -> bool, isValid: ItemElem -> bool,
                                      rendered: Option<Size>)
    requires rendered.Some? ==> Positive(rendered.value)
    requires CacheConsistent(c) && CacheMatchesDisplay(c)
    ensures CacheConsistent(Previewed(c, isMatch, isValid, rendered))
    ensures CacheMatchesDisplay(Previewed(c, isMatch, isValid, rendered))
  {
    if c.layerElem.Some? && isMatch(c.layerElem.value) && isValid(c.layerElem.value) && rendered.None? {
      ClearedShowsPlaceholder(c.(placeholderShown := false, previewShown := true,
                                 labelText := c.layerElem.value.name, initialLayerTree := None), true);
    }
  }

  /** The outcome of the rest of `update` for the settled layer. */
  lemma PreviewedOutcome(c: ImageState, isMatch: ItemElem -> bool, isValid: ItemElem -> bool, rendered: Option<Size>)
    ensures var r := Previewed(c, isMatch, isValid, rendered);
      var reached := c.layerElem.Some? && isMatch(c.layerElem.value) && isValid(c.layerElem.value);
      && (r.layerElem.Some? <==> reached && rendered.Some?)
      && (r.layerElem.Some? ==>
            && r.layerElem == c.layerElem
            && r.previewPixbuf == rendered && r.displayed == rendered
            && r.previewShown && !r.placeholderShown && r.labelText == c.layerElem.value.name
            && r.previousPreviewPixbufWidth.None? && r.previousPreviewPixbufHeight.None?)
      && (c.layerElem.Some? && isMatch(c.layerElem.value) && r.layerElem.None? ==>
            && r.previewPixbuf.None? && r.displayed.None? && r.placeholderShown && !r.previewShown
            && r.labelText == (if isValid(c.layerElem.value) then c.layerElem.value.name else NoSelectionLabel))
      && r.initialPreviewedLayerId == c.initialPreviewedLayerId
      && r.initialLayerTree == (if reached then None else c.initialLayerTree)
      && r.widgetSensitive == c.widgetSensitive
  {
    if c.layerElem.Some? && isMatch(c.layerElem.value) {
      if !isValid(c.layerElem.value) {
        ClearedShowsPlaceholder(c, false);
      } else if rendered.None? {
        ClearedShowsPlaceholder(c.(placeholderShown := false, previewShown := true,
                                   labelText := c.layerElem.value.name, initialLayerTree := None), true);
      }
    }
  }

  /** `update` keeps the cache bookkeeping consistent, and the cache naming the size on display. */
  lemma UpdateKeepsCacheConsistent(s: ImageState, shouldEnableSensitive: bool, current: Option<LayerTree>,
                                   isMatch: ItemElem -> bool, isValid: ItemElem -> bool, rendered: Option<Size>)
    requires current.Some? ==> WellFormed(current.value)
    requires rendered.Some? ==> Positive(rendered.value)
    requires CacheConsistent(s) && CacheMatchesDisplay(s)
    ensures CacheConsistent(AfterUpdate(s, shouldEnableSensitive, current, isMatch, isValid, rendered))
    ensures CacheMatchesDisplay(AfterUpdate(s, shouldEnableSensitive, current, isMatch, isValid, rendered))
  {
    ChosenSettlesLayer(s, shouldEnableSensitive, current);
    PreviewedKeepsCacheConsistent(Chosen(s, shouldEnableSensitive, current), isMatch, isValid, rendered);
  }

  /**
   * A layer stays previewed after `update` exactly when it passed the filter,
   * its item exists and the export rendered; it is then shown, by name, at
   * the rendered size, with no rescale size cached.
   */
  lemma UpdateShowsRenderedLayer(s: ImageState, shouldEnableSensitive: bool, current: Option<LayerTree>,
                                 isMatch: ItemElem -> bool, isValid: ItemElem -> bool, rendered: Option<Size>)
    requires current.Some? ==> WellFormed(current.value)
    ensures var r := AfterUpdate(s, shouldEnableSensitive, current, isMatch, isValid, rendered);
      var e := UpdatedElem(s, current);
      && (r.layerElem.Some? <==> ExportReached(s, current, isMatch, isValid) && rendered.Some?)
      && (r.layerElem.Some? ==>
            && r.layerElem == e
            && r.previewPixbuf == rendered && r.displayed == rendered
            && r.previewShown && !r.placeholderShown && r.labelText == e.value.name
            && r.previousPreviewPixbufWidth.None? && r.previousPreviewPixbufHeight.None?)
  {
    ChosenSettlesLayer(s, shouldEnableSensitive, current);
    PreviewedOutcome(Chosen(s, shouldEnableSensitive, current), isMatch, isValid, rendered);
  }

  /**
   * When `update` reaches the item check but cannot show the layer, the
   * widget falls back to the placeholder: "No selection" for a vanished
   * item, the layer's own name for a failed export.
   */
  lemma UpdateFallsBackToPlaceholder(s: ImageState, shouldEnableSensitive: bool, current: Option<LayerTree>,
                                     isMatch: ItemElem -> bool, isValid: ItemElem -> bool, rendered: Option<Size>)
    requires current.Some? ==> WellFormed(current.value)
    requires UpdatedElem(s, current).Some? && isMatch(UpdatedElem(s, current).value)
    requires !isValid(UpdatedElem(s, current).value) || rendered.None?
    ensures var r := AfterUpdate(s, shouldEnableSensitive, current, isMatch, isValid, rendered);
      && r.layerElem.None? && r.previewPixbuf.None? && r.displayed.None?
      && r.placeholderShown && !r.previewShown
      && r.labelText == (if isValid(UpdatedElem(s, current).value) then UpdatedElem(s, current).value.name
                         else NoSelectionLabel)
  {
    ChosenSettlesLayer(s, shouldEnableSensitive, current);
    PreviewedOutcome(Chosen(s, shouldEnableSensitive, current), isMatch, isValid, rendered);
  }

  /**
   * `update` uses the initial layer ID only when no layer is previewed, and
   * the initial tree only when it exports; each is then gone for good.
   */
  lemma UpdateUsesInitialsOnce(s: ImageState, shouldEnableSensitive: bool, current: Option<LayerTree>,
                               isMatch: ItemElem -> bool, isValid: ItemElem -> bool, rendered: Option<Size>)
    requires current.Some? ==> WellFormed(current.value)
    ensures var r := AfterUpdate(s, shouldEnableSensitive, current, isMatch, isValid, rendered);
      && r.initialPreviewedLayerId == (if s.layerElem.None? then None else s.initialPreviewedLayerId)
      && r.initialLayerTree == (if ExportReached(s, current, isMatch, isValid) then None else s.initialLayerTree)
      && r.widgetSensitive == (s.widgetSensitive || shouldEnableSensitive)
  {
    ChosenSettlesLayer(s, shouldEnableSensitive, current);
    PreviewedOutcome(Chosen(s, shouldEnableSensitive, current), isMatch, isValid, rendered);
  }

  /**
   * The rest of `update` as the source has it: the branches of `Previewed`,
   * except that the export step keeps the rescale cache of the previous
   * pixbuf.
   */
  function PreviewedAsWritten(c: ImageState, isMatch: ItemElem -> bool, isValid: ItemElem -> bool,
                              rendered: Option<Size>): (r: ImageState)
  {
    if c.layerElem.Some? && isMatch(c.layerElem.value) && isValid(c.layerElem.value) then ExportedAsWritten(c, rendered)
    else Previewed(c, isMatch, isValid, rendered)
  }

  /** `update` as the source has it, once the lock has been found free. */
  function AfterUpdateAsWritten(s: ImageState, shouldEnableSensitive: bool, current: Option<LayerTree>,
                                isMatch: ItemElem -> bool, isValid: ItemElem -> bool,
                                rendered: Option<Size>): (r: ImageState)
    requires current.Some? ==> WellFormed(current.value)
  {
    PreviewedAsWritten(Chosen(s, shouldEnableSensitive, current), isMatch, isValid, rendered)
  }

  /**
   * The source's `update` and the corrected one differ only after a
   * successful render, and only in the cache: the source keeps the size
   * cached before the update.
   */
  lemma AsWrittenDiffersOnlyInCache(s: ImageState, shouldEnableSensitive: bool, current: Option<LayerTree>,
                                    isMatch: ItemElem -> bool, isValid: ItemElem -> bool, rendered: Option<Size>)
    requires current.Some? ==> WellFormed(current.value)
    ensures var w := AfterUpdateAsWritten(s, shouldEnableSensitive, current, isMatch, isValid, rendered);
      var f := AfterUpdate(s, shouldEnableSensitive, current, isMatch, isValid, rendered);
      w == if ExportReached(s, current, isMatch, isValid) && rendered.Some? then
             f.(previousPreviewPixbufWidth := s.previousPreviewPixbufWidth,
                previousPreviewPixbufHeight := s.previousPreviewPixbufHeight)
           else f
  {
    ChosenSettlesLayer(s, shouldEnableSensitive, current);
  }

  /**
   * The source's `update` shows a layer exactly when the corrected one does,
   * in the same way, but with the rescale size cached before the update.
   */
  lemma UpdateAsWrittenShowsRenderedLayer(s: ImageState, shouldEnableSensitive: bool, current: Option<LayerTree>,
                                          isMatch: ItemElem -> bool, isValid: ItemElem -> bool,
                                          rendered: Option<Size>)
    requires current.Some? ==> WellFormed(current.value)
    ensures var r := AfterUpdateAsWritten(s, shouldEnableSensitive, current, isMatch, isValid, rendered);
      var e := UpdatedElem(s, current);
      && (r.layerElem.Some? <==> ExportReached(s, current, isMatch, isValid) && rendered.Some?)
      && (r.layerElem.Some? ==>
            && r.layerElem == e
            && r.previewPixbuf == rendered && r.displayed == rendered
            && r.previewShown && !r.placeholderShown && r.labelText == e.value.name
            && r.previousPreviewPixbufWidth == s.previousPreviewPixbufWidth
            && r.previousPreviewPixbufHeight == s.previousPreviewPixbufHeight)
  {
    AsWrittenDiffersOnlyInCache(s, shouldEnableSensitive, current, isMatch, isValid, rendered);
    UpdateShowsRenderedLayer(s, shouldEnableSensitive, current, isMatch, isValid, rendered);
  }

  /**
   * The source's `update` keeps the cache consistent, but the cache names
   * the size on display afterwards only when no size was cached or the new
   * pixbuf happens to have the cached size.
   */
  lemma UpdateAsWrittenCache(s: ImageState, shouldEnableSensitive: bool, current: Option<LayerTree>,
                             isMatch: ItemElem -> bool, isValid: ItemElem -> bool, rendered: Option<Size>)
    requires current.Some? ==> WellFormed(current.value)
    requires rendered.Some? ==> Positive(rendered.value)
    requires CacheConsistent(s) && CacheMatchesDisplay(s)
    ensures var r := AfterUpdateAsWritten(s, shouldEnableSensitive, current, isMatch, isValid, rendered);
      && CacheConsistent(r)
      && (ExportReached(s, current, isMatch, isValid) && rendered.Some? && s.previousPreviewPixbufWidth.Some? ==>
            (CacheMatchesDisplay(r) <==>
               rendered == Some(Size(s.previousPreviewPixbufWidth.value, s.previousPreviewPixbufHeight.value))))
      && (!(ExportReached(s, current, isMatch, isValid) && rendered.Some?) ==> CacheMatchesDisplay(r))
  {
    AsWrittenDiffersOnlyInCache(s, shouldEnableSensitive, current, isMatch, isValid, rendered);
    UpdateKeepsCacheConsistent(s, shouldEnableSensitive, current, isMatch, isValid, rendered);
    UpdateShowsRenderedLayer(s, shouldEnableSensitive, current, isMatch, isValid, rendered);
  }

  /**
   * `update_layer_elem()`: replace the previewed element with the exporter's
   * current element of the same ID when the current tree holds it and the
   * filter accepts it, and show its name.
   */
  function AfterLayerElemRefresh(s: ImageState, current: Option<LayerTree>, isMatch: ItemElem -> bool): (r: ImageState)
    requires current.Some? ==> WellFormed(current.value)
  {
    if s.layerElem.Some? && current.Some? && Contains(current.value, s.layerElem.value.id) then
      var e := current.value.elems[s.layerElem.value.id];
      if isMatch(e) then WithLayerElem(s, Some(e)).(labelText := e.name) else s
    else s
  }

  /** Refreshing keeps the layer's identity and, being non-None, the pixbuf and the cache. */
  lemma LayerElemRefreshKeepsLayer(s: ImageState, current: Option<LayerTree>, isMatch: ItemElem -> bool)
    requires current.Some? ==> WellFormed(current.value)
    ensures var r := AfterLayerElemRefresh(s, current, isMatch);
      && (r.layerElem.Some? <==> s.layerElem.Some?)
      && (r.layerElem.Some? ==> r.layerElem.value.id == s.layerElem.value.id)
      && r.previewPixbuf == s.previewPixbuf
      && r.previousPreviewPixbufWidth == s.previousPreviewPixbufWidth
      && r.previousPreviewPixbufHeight == s.previousPreviewPixbufHeight
      && r.displayed == s.displayed
  {
    if s.layerElem.Some? && current.Some? && Contains(current.value, s.layerElem.value.id) {
      assert s.layerElem.value.id in current.value.elems;
    }
  }

  class ExportImagePreview {
    /** The lock every preview inherits from `ExportPreview`. */
    const gate: UpdateLock

    var initialLayerTree: Option<LayerTree>
    var initialPreviewedLayerId: Option<ItemId>
    var layerElem: Option<ItemElem>
    var previewPixbuf: Option<Size>
    var previousPreviewPixbufWidth: Option<nat>
    var previousPreviewPixbufHeight: Option<nat>
    var displayed: Option<Size>
    var previewShown: bool
    var placeholderShown: bool
    var labelText: string
    var widgetSensitive: bool
    var isUpdating: bool

    function State(): ImageState
      reads this
    {
      ImageState(initialLayerTree, initialPreviewedLayerId, layerElem, previewPixbuf,
                 previousPreviewPixbufWidth, previousPreviewPixbufHeight, displayed,
                 previewShown, placeholderShown, labelText, widgetSensitive, isUpdating)
    }

    /** Nothing previewed, the placeholder and "No selection" shown, the lock free. */
    constructor(initialTree: Option<LayerTree>, initialId: Option<ItemId>)
      ensures fresh(gate) && gate.State() == Unlocked
      ensures State() == ImageState(initialTree, initialId, None, None, None, None, None,
                                    false, true, NoSelectionLabel, true, false)
      ensures CacheConsistent(State()) && CacheMatchesDisplay(State())
    {
      gate := new UpdateLock();
      initialLayerTree := initialTree;
      initialPreviewedLayerId := initialId;
      layerElem := None;
      previewPixbuf := None;
      previousPreviewPixbufWidth := None;
      previousPreviewPixbufHeight := None;
      displayed := None;
      previewShown := false;
      placeholderShown := true;
      labelText := NoSelectionLabel;
      widgetSensitive := true;
      isUpdating := false;
    }

    /**
     * `update`: nothing at all while the lock is held; otherwise the steps
     * of AfterUpdate. The tree the export runs on is returned when the
     * export is reached: the initial tree if one is left, else the
     * exporter's current tree.
     */
    method Update(shouldEnableSensitive: bool, current: Option<LayerTree>,
                  isMatch: ItemElem -> bool, isValid: ItemElem -> bool, rendered: Option<Size>)
      returns (pipelineInput: Option<LayerTree>)
      requires current.Some? ==> WellFormed(current.value)
      requires rendered.Some? ==> Positive(rendered.value)
      modifies this
      ensures gate.State().locked ==> State() == old(State()) && pipelineInput.None?
      ensures !gate.State().locked ==>
        State() == AfterUpdate(old(State()), shouldEnableSensitive, current, isMatch, isValid, rendered)
      ensures pipelineInput ==
        if !gate.State().locked && ExportReached(old(State()), current, isMatch, isValid) then
          (if old(initialLayerTree).Some? then old(initialLayerTree) else current)
        else None
    {
      pipelineInput := None;
      if gate.updateLocked {
        return;
      }
      Settle(shouldEnableSensitive, current);
      pipelineInput := ShowLayer(isMatch, isValid, rendered, current);
    }

    /** The steps of `update` that settle on the layer to preview (Chosen). */
    method Settle(shouldEnableSensitive: bool, current: Option<LayerTree>)
      requires current.Some? ==> WellFormed(current.value)
      modifies this`widgetSensitive, this`initialPreviewedLayerId, this`layerElem, this`previewPixbuf,
               this`previousPreviewPixbufWidth, this`previousPreviewPixbufHeight
      ensures State() == Chosen(old(State()), shouldEnableSensitive, current)
    {
      if shouldEnableSensitive {
        widgetSensitive := true;
      }
      var elem := SetInitialLayerElem(layerElem, current);
      SetLayerElem(elem);
    }

    /** The steps of `update` after the layer to preview is settled (Previewed). */
    method ShowLayer(isMatch: ItemElem -> bool, isValid: ItemElem -> bool, rendered: Option<Size>,
                     current: Option<LayerTree>)
      returns (pipelineInput: Option<LayerTree>)
      modifies this
      ensures State() == Previewed(old(State()), isMatch, isValid, rendered)
      ensures pipelineInput ==
        if old(layerElem).Some? && isMatch(old(layerElem).value) && isValid(old(layerElem).value) then
          (if old(initialLayerTree).Some? then old(initialLayerTree) else current)
        else None
    {
      pipelineInput := None;
      if layerElem.None? {
        return;
      }
      if !isMatch(layerElem.value) {
        SetLayerElem(None);
        return;
      }
      if !isValid(layerElem.value) {
        Clear(false);
        return;
      }
      pipelineInput := Export(rendered, current);
    }

    /** `update`'s export of the previewed layer (Exported); `_get_image_preview` picks the tree. */
    method Export(rendered: Option<Size>, current: Option<LayerTree>) returns (pipelineInput: Option<LayerTree>)
      requires layerElem.Some?
      modifies this`isUpdating, this`placeholderShown, this`previewShown, this`labelText, this`initialLayerTree,
               this`layerElem, this`previewPixbuf, this`previousPreviewPixbufWidth,
               this`previousPreviewPixbufHeight, this`displayed
      ensures layerElem == (if rendered.Some? then old(layerElem) else None)
      ensures previewPixbuf == rendered && displayed == rendered
      ensures previousPreviewPixbufWidth.None? && previousPreviewPixbufHeight.None?
      ensures previewShown == rendered.Some? && placeholderShown == rendered.None?
      ensures labelText == old(layerElem).value.name && initialLayerTree.None? && !isUpdating
      ensures pipelineInput == if old(initialLayerTree).Some? then old(initialLayerTree) else current
    {
      isUpdating := true;
      placeholderShown := false;
      previewShown := true;
      labelText := layerElem.value.name;
      pipelineInput := if initialLayerTree.Some? then initialLayerTree else current;
      initialLayerTree := None;
      if rendered.Some? {
        previewPixbuf := rendered;
        displayed := rendered;
        // The cached rescale size described the previous pixbuf (see Exported).
        previousPreviewPixbufWidth := None;
        previousPreviewPixbufHeight := None;
      } else {
        Clear(true);
      }
      isUpdating := false;
    }

    /** `clear(use_layer_name)`. */
    method Clear(useLayerName: bool)
      modifies this`layerElem, this`previewPixbuf, this`previousPreviewPixbufWidth,
               this`previousPreviewPixbufHeight, this`displayed, this`previewShown,
               this`placeholderShown, this`labelText
      ensures layerElem.None? && previewPixbuf.None? && previousPreviewPixbufWidth.None?
      ensures previousPreviewPixbufHeight.None? && displayed.None? && !previewShown && placeholderShown
      ensures labelText == if useLayerName then old(labelText) else NoSelectionLabel
    {
      SetLayerElem(None);
      displayed := None;
      previewShown := false;
      placeholderShown := true;
      if !useLayerName {
        labelText := NoSelectionLabel;
      }
    }

    /** The `layer_elem` setter. */
    method SetLayerElem(value: Option<ItemElem>)
      modifies this`layerElem, this`previewPixbuf, this`previousPreviewPixbufWidth, this`previousPreviewPixbufHeight
      ensures layerElem == value
      ensures previewPixbuf == if value.None? then None else old(previewPixbuf)
      ensures previousPreviewPixbufWidth == if value.None? then None else old(previousPreviewPixbufWidth)
      ensures previousPreviewPixbufHeight == if value.None? then None else old(previousPreviewPixbufHeight)
    {
      layerElem := value;
      if value.None? {
        previewPixbuf := None;
        previousPreviewPixbufWidth := None;
        previousPreviewPixbufHeight := None;
      }
    }

    /** `_set_initial_layer_elem(layer_elem)`: returns the element to preview, using up the initial ID. */
    method SetInitialLayerElem(elem: Option<ItemElem>, current: Option<LayerTree>) returns (r: Option<ItemElem>)
      requires current.Some? ==> WellFormed(current.value)
      modifies this`initialPreviewedLayerId
      ensures (r, initialPreviewedLayerId) == InitialLayerElem(elem, old(initialPreviewedLayerId), current)
    {
      if elem.None? {
        if current.Some? && initialPreviewedLayerId.Some? && Contains(current.value, initialPreviewedLayerId.value) {
          r := Some(current.value.elems[initialPreviewedLayerId.value]);
          initialPreviewedLayerId := None;
          return;
        } else {
          initialPreviewedLayerId := None;
          return None;
        }
      } else {
        return elem;
      }
    }

    /** `resize()`, given the image widget's allocation and whether it is mapped. */
    method Resize(allocation: Size, mapped: bool)
      requires previewPixbuf.Some? ==> Positive(previewPixbuf.value)
      modifies this`displayed, this`previousPreviewPixbufWidth, this`previousPreviewPixbufHeight
      ensures State() == Resized(old(State()), allocation, mapped)
    {
      if !isUpdating && mapped {
        ResizePreview(allocation, previewPixbuf);
      }
    }

    /** `_resize_preview(preview_allocation, preview_pixbuf)`, with its three early returns. */
    method ResizePreview(allocation: Size, pixbuf: Option<Size>)
      requires pixbuf.Some? ==> Positive(pixbuf.value)
      modifies this`displayed, this`previousPreviewPixbufWidth, this`previousPreviewPixbufHeight
      ensures State() == AfterResize(old(State()), allocation, pixbuf)
    {
      if pixbuf.None? {
        return;
      }
      if allocation.width >= pixbuf.value.width && allocation.height >= pixbuf.value.height {
        return;
      }
      var scaled := PreviewSize(allocation, pixbuf.value.width, pixbuf.value.height);
      if previousPreviewPixbufWidth == Some(scaled.width) && previousPreviewPixbufHeight == Some(scaled.height) {
        return;
      }
      displayed := Some(scaled);
      previousPreviewPixbufWidth := Some(scaled.width);
      previousPreviewPixbufHeight := Some(scaled.height);
    }

    /** `update_layer_elem()`. */
    method UpdateLayerElem(current: Option<LayerTree>, isMatch: ItemElem -> bool)
      requires current.Some? ==> WellFormed(current.value)
      modifies this`layerElem, this`previewPixbuf, this`previousPreviewPixbufWidth,
               this`previousPreviewPixbufHeight, this`labelText
      ensures State() == AfterLayerElemRefresh(old(State()), current, isMatch)
    {
      if layerElem.Some? && current.Some? && Contains(current.value, layerElem.value.id) {
        var e := current.value.elems[layerElem.value.id];
        if isMatch(e) {
          SetLayerElem(Some(e));
          labelText := e.name;
        }
      }
    }
  }
}

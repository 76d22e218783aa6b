/**
 * The layer tree the export pipeline hands to the previews. The pipeline
 * itself (export_layers/exportlayers.py) is not part of this model: a tree
 * is a value the previews read.
 */
module LayerTrees {
  import opened Wrappers

  /** A GIMP item ID. */
  type ItemId = int

  type Tag = string

  /** `ITEM`, `NONEMPTY_GROUP`, `EMPTY_GROUP`. */
  datatype ItemType = Item | NonemptyGroup | EmptyGroup

  /**
   * An item element: its ID, the name the pipeline computed, its type, the
   * IDs of its ancestors running root first (`parents`), its children and
   * its tags.
   */
  datatype ItemElem = ItemElem(id: ItemId, name: string, itemType: ItemType,
                               parents: seq<ItemId>, children: seq<ItemId>, tags: set<Tag>)

  /**
   * A layer tree: every element by ID; `order`, the elements iteration
   * yields while the tree is filtered (what `for layer_elem in layer_tree`
   * sees at the moment the preview reads it); `groups`, the non-empty groups
   * iteration yields when the item-type filter admits only those; and the
   * `is_filtered` flag.
   */
  datatype LayerTree = LayerTree(elems: map<ItemId, ItemElem>, order: seq<ItemId>,
                                 groups: seq<ItemId>, isFiltered: bool)

  /**
   * The shape every tree from the pipeline has: elements are stored under
   * their own ID; an ancestor's own ancestors are the prefix before it; a
   * child's ancestors are its parent's followed by the parent; and iteration
   * yields stored elements only.
   */
  ghost predicate WellFormed(lt: LayerTree) {
    && (forall id :: id in lt.elems ==> lt.elems[id].id == id)
    && (forall id, k :: id in lt.elems && 0 <= k < |lt.elems[id].parents| ==>
          lt.elems[id].parents[k] in lt.elems &&
          lt.elems[lt.elems[id].parents[k]].parents == lt.elems[id].parents[..k])
    && (forall id, c :: id in lt.elems && c in lt.elems[id].children ==>
          c in lt.elems && lt.elems[c].parents == lt.elems[id].parents + [id])
    && (forall i :: 0 <= i < |lt.order| ==> lt.order[i] in lt.elems)
    && (forall i :: 0 <= i < |lt.groups| ==> lt.groups[i] in lt.elems)
  }

  /** `id in layer_tree`: filtered membership while `is_filtered` is set. */
  function Contains(lt: LayerTree, id: ItemId): (r: bool)
    ensures !lt.isFiltered ==> (r <==> id in lt.elems)
  {
    if lt.isFiltered then id in lt.order else id in lt.elems
  }

  /** `item_elem.parent`: the nearest ancestor, if any. */
  function ParentOf(lt: LayerTree, id: ItemId): (r: Option<ItemId>)
    requires id in lt.elems
    ensures r.Some? <==> lt.elems[id].parents != []
  {
    var ps := lt.elems[id].parents;
    if ps == [] then None else Some(ps[|ps| - 1])
  }

  /** Every ID of `ids` names a stored element. */
  predicate AllStored(lt: LayerTree, ids: seq<ItemId>) {
    forall i :: 0 <= i < |ids| ==> ids[i] in lt.elems
  }

  /** The ancestors of a stored element, as a set. */
  function Ancestors(lt: LayerTree, id: ItemId): set<ItemId>
    requires id in lt.elems
  {
    set p | p in lt.elems[id].parents
  }

  /** The ancestors of `x` are stored, each with the ancestors before it as its own. */
  ghost predicate AncestorChain(lt: LayerTree, x: ItemId) {
    x in lt.elems &&
    forall k :: 0 <= k < |lt.elems[x].parents| ==>
      lt.elems[x].parents[k] in lt.elems &&
      lt.elems[lt.elems[x].parents[k]].parents == lt.elems[x].parents[..k]
  }

  lemma ChainOfWellFormed(lt: LayerTree, x: ItemId)
    requires WellFormed(lt) && x in lt.elems
    ensures AncestorChain(lt, x)
  {
  }

  /** No element is listed twice among one element's ancestors. */
  lemma {:induction false} ParentsDistinct(lt: LayerTree, x: ItemId, j: nat, k: nat)
    requires WellFormed(lt) && x in lt.elems
    requires j < k < |lt.elems[x].parents|
    ensures lt.elems[x].parents[j] != lt.elems[x].parents[k]
  {
    var ps := lt.elems[x].parents;
    assert |lt.elems[ps[j]].parents| == j;
    assert |lt.elems[ps[k]].parents| == k;
  }

  /** No ancestor of an element is a child of a nearer (or the same) ancestor. */
  lemma {:induction false} AncestorNotChildOfNearer(lt: LayerTree, x: ItemId, j: nat, k: nat)
    requires WellFormed(lt) && x in lt.elems
    requires j <= k < |lt.elems[x].parents|
    ensures lt.elems[x].parents[j] !in lt.elems[lt.elems[x].parents[k]].children
  {
    var ps := lt.elems[x].parents;
    assert ps[k] in lt.elems;
    assert lt.elems[ps[j]].parents == ps[..j];
    assert lt.elems[ps[k]].parents == ps[..k];
    var child, parent := ps[j], ps[k];
    if child in lt.elems[parent].children {
      assert false;
    }
  }

  /** No element is its own child. */
  lemma NotOwnChild(lt: LayerTree, p: ItemId)
    requires WellFormed(lt) && p in lt.elems
    ensures p !in lt.elems[p].children
  {
  }
}

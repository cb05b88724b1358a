/**
 * The tree control's own logic: the items it shows, which element each
 * item carries, the "has children" flag, and the tracker that makes an
 * element's children appear only the first time its item is expanded.
 */
module Tree {
  import opened Wrappers
  import opened Xml

  /**
   * One item of the tree control: its caption, the index of its parent
   * item (None for the root item), the element attached with
   * `SetPyData` (null when none is), and whether it shows an expander.
   */
  datatype Item = Item(caption: string, parent: Option<nat>, data: Element?, hasChildren: bool)

  /** The item appended under `parent` for element `e`. */
  function ChildItem(parent: nat, e: Element, flagAll: bool): Item
    reads e
  {
    Item(e.tag, Some(parent), e, flagAll || HasChildren(e))
  }

  /**
   * The items appended under `parent`, one per element of `cs`, in order.
   * With `flagAll` every item is flagged as having children; otherwise
   * only the items whose element has children are.
   */
  function ChildItems(parent: nat, cs: seq<Element>, flagAll: bool): seq<Item>
    reads cs
  {
    if cs == [] then []
    else ChildItems(parent, cs[..|cs| - 1], flagAll) + [ChildItem(parent, cs[|cs| - 1], flagAll)]
  }

  /** Item `k` of the appended items is the one for `cs[k]`, under `parent`. */
  lemma {:induction false} ChildItemsAt(parent: nat, cs: seq<Element>, flagAll: bool)
    ensures |ChildItems(parent, cs, flagAll)| == |cs|
    ensures forall k :: 0 <= k < |cs| ==>
      ChildItems(parent, cs, flagAll)[k] == Item(cs[k].tag, Some(parent), cs[k], flagAll || HasChildren(cs[k]))
  {
    if cs != [] {
      ChildItemsAt(parent, cs[..|cs| - 1], flagAll);
    }
  }

  /**
   * Whether expanding an item carrying `data` materialises its children:
   * the element has not been expanded yet and is truthy.
   */
  predicate ShouldExpand(data: Element?, expanded: set<Element?>)
    reads data
  {
    data !in expanded && Truthy(data)
  }

  /** The items that expanding item `item`, which carries `data`, appends. */
  function ExpansionItems(item: nat, data: Element?, expanded: set<Element?>): (r: seq<Item>)
    reads data, if data == null then [] else data.children
    ensures !ShouldExpand(data, expanded) ==> r == []
    ensures ShouldExpand(data, expanded) ==> |r| == |data.children| > 0
  {
    if ShouldExpand(data, expanded) then
      ChildItemsAt(item, data.children, false);
      ChildItems(item, data.children, false)
    else []
  }

  /**
   * Expanding an element not yet expanded appends one item per child, in
   * document order, each carrying that child and flagged iff the child
   * has children of its own.
   */
  lemma ExpansionItemsShape(item: nat, data: Element, expanded: set<Element?>)
    requires data !in expanded
    ensures var r := ExpansionItems(item, data, expanded);
      && |r| == |data.children|
      && forall k :: 0 <= k < |r| ==>
           r[k] == Item(data.children[k].tag, Some(item), data.children[k], HasChildren(data.children[k]))
  {
    ChildItemsAt(item, data.children, false);
  }

  /** Once an element is in the tracker, expanding it again appends nothing. */
  lemma ReexpansionAppendsNothing(item: nat, data: Element?, expanded: set<Element?>)
    requires data in expanded
    ensures ExpansionItems(item, data, expanded) == []
  {
  }

  /** An item without an element, or whose element has no children, expands to nothing. */
  lemma EmptyExpansion(item: nat, data: Element?, expanded: set<Element?>)
    requires data == null || !HasChildren(data)
    ensures ExpansionItems(item, data, expanded) == []
  {
  }

  /**
   * The tracker is keyed by identity: once `a` is recorded, expanding it
   * again appends nothing, while expanding an item carrying a distinct
   * element `b` appends what it did before, however equal their tags and
   * texts.
   */
  lemma TrackingByIdentity(a: Element, b: Element, item: nat, other: nat, expanded: set<Element?>)
    requires a != b && a.tag == b.tag && a.text == b.text
    ensures ExpansionItems(item, a, expanded + {a}) == []
    ensures ExpansionItems(other, b, expanded + {a}) == ExpansionItems(other, b, expanded)
  {
  }

  /** Item 0 is the root and has no parent; every other item hangs under an earlier one. */
  ghost predicate WellFormed(items: seq<Item>)
  {
    && |items| > 0
    && items[0].parent == None
    && forall k :: 0 < k < |items| ==> items[k].parent.Some? && items[k].parent.value < k
  }

  /** Appending children under an existing item keeps the items well formed. */
  lemma AppendPreservesWellFormed(items: seq<Item>, item: nat, cs: seq<Element>)
    requires WellFormed(items) && item < |items|
    ensures WellFormed(items + ChildItems(item, cs, false))
  {
    ChildItemsAt(item, cs, false);
    var all := items + ChildItems(item, cs, false);
    forall k | |items| <= k < |all|
      ensures all[k].parent.Some? && all[k].parent.value < k
    {
      assert all[k] == ChildItems(item, cs, false)[k - |items|];
    }
  }

  /** The tree control (`XmlTree`). */
  class XmlTree {
    const xmlRoot: Element
    const channel: Channel
    var items: seq<Item>
    /** The identities of the elements whose items have been expanded (`self.expanded`). */
    var expanded: set<Element?>

    /** Item 0 is the root; every other item hangs under an earlier one. */
    ghost predicate Valid()
      reads this
    {
      WellFormed(items)
    }

    /**
     * The root item is labelled with the root's tag and carries no
     * element; one item per child of the root follows, in order, each
     * carrying its child and each flagged as having children.
     */
    constructor (xmlRoot: Element, channel: Channel)
      ensures this.xmlRoot == xmlRoot && this.channel == channel
      ensures items == [Item(xmlRoot.tag, None, null, false)] + ChildItems(0, xmlRoot.children, true)
      ensures expanded == {}
      ensures Valid()
    {
      this.xmlRoot := xmlRoot;
      this.channel := channel;
      var acc := [Item(xmlRoot.tag, None, null, false)];
      var cs := xmlRoot.children;
      var i := 0;
      while i < |cs|
        invariant i <= |cs|
        invariant acc == [Item(xmlRoot.tag, None, null, false)] + ChildItems(0, cs[..i], true)
      {
        assert cs[..i + 1][..i] == cs[..i];
        acc := acc + [ChildItem(0, cs[i], true)];
        i := i + 1;
      }
      assert cs[..i] == cs;
      items := acc;
      expanded := {};
      ChildItemsAt(0, cs, true);
    }

    /**
     * `add_elements(item, book)`: appends one item per child of `book`
     * under `item`, flagged iff that child has children.
     */
    method AddElements(item: nat, book: Element)
      requires Valid() && item < |items|
      modifies this
      ensures Valid()
      ensures items == old(items) + ChildItems(item, book.children, false)
      ensures expanded == old(expanded)
    {
      var cs := book.children;
      var i := 0;
      while i < |cs|
        invariant i <= |cs|
        invariant items == old(items) + ChildItems(item, cs[..i], false)
        invariant expanded == old(expanded)
      {
        assert cs[..i + 1][..i] == cs[..i];
        items := items + [ChildItem(item, cs[i], false)];
        i := i + 1;
      }
      assert cs[..i] == cs;
      AppendPreservesWellFormed(old(items), item, cs);
    }

    /**
     * `on_item_expanding`: when the item's element is truthy and not yet
     * expanded, its children are appended under the item; in every case
     * the element (null included) is recorded as expanded.
     */
    method OnItemExpanding(item: nat)
      requires Valid() && item < |items|
      modifies this
      ensures Valid()
      ensures items == old(items) + ExpansionItems(item, old(items[item].data), old(expanded))
      ensures expanded == old(expanded) + {old(items[item].data)}
    {
      var xmlObj := items[item].data;
      if xmlObj !in expanded && Truthy(xmlObj) {
        var cs := xmlObj.children;
        var i := 0;
        while i < |cs|
          invariant i <= |cs|
          invariant items == old(items) + ChildItems(item, cs[..i], false)
          invariant expanded == old(expanded)
        {
          assert cs[..i + 1][..i] == cs[..i];
          items := items + [ChildItem(item, cs[i], false)];
          i := i + 1;
        }
        assert cs[..i] == cs;
        AppendPreservesWellFormed(old(items), item, cs);
      }
      expanded := expanded + {xmlObj};
    }

    /** `on_tree_selection`: publishes on `ui_updater` exactly the element attached to the item. */
    method OnTreeSelection(item: nat)
      requires item < |items|
      modifies channel
      ensures channel.log == old(channel.log) + [UiUpdater(items[item].data)]
    {
      channel.Send(UiUpdater(items[item].data));
    }
  }
}

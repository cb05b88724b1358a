/**
 * The editor panel (`XmlEditorPanel`): which tag/value rows it shows for
 * a selected element, the widget list it clears and rebuilds, and the
 * handler that writes an edited value back into the element.
 */
module Editor {
  import opened Wrappers
  import opened Xml

  /** A widget of the panel: a static label, or a value field bound to an element. */
  datatype Widget = Label(caption: string) | ValueField(value: string, bound: Element)

  /** The two header labels every update starts with. */
  const Headers: seq<Widget> := [Label("Tags"), Label("Value")]

  /** `child.text if child.text else ''`. */
  function ShownText(t: Option<string>): (s: string)
    ensures TextTruthy(t) ==> s == t.value
    ensures !TextTruthy(t) ==> s == ""
  {
    match t
    case Some(v) => v
    case None => ""
  }

  /** The tag label and value field shown for a leaf child. */
  function LeafRow(c: Element): seq<Widget>
    reads c
  {
    [Label(c.tag), ValueField(ShownText(c.text), c)]
  }

  /** The rows shown for one child: none when it has children of its own. */
  function RowsFor(c: Element): seq<Widget>
    reads c
  {
    if HasChildren(c) then [] else LeafRow(c)
  }

  /** The rows shown for the children `cs`: one per child without children, in order. */
  function LeafRows(cs: seq<Element>): seq<Widget>
    reads cs
  {
    if cs == [] then []
    else
      LeafRows(cs[..|cs| - 1]) + RowsFor(cs[|cs| - 1])
  }

  /** Reference definition: the children without children of their own, in document order. */
  function Leaves(cs: seq<Element>): seq<Element>
    reads cs
  {
    if cs == [] then []
    else if HasChildren(cs[0]) then Leaves(cs[1..])
    else [cs[0]] + Leaves(cs[1..])
  }

  /** Exactly the children without children are shown. */
  lemma {:induction false} LeavesMembers(cs: seq<Element>)
    ensures forall e :: e in Leaves(cs) <==> e in cs && !HasChildren(e)
  {
    if cs != [] {
      LeavesMembers(cs[1..]);
      assert cs == [cs[0]] + cs[1..];
    }
  }

  lemma {:induction false} LeavesAppend(cs: seq<Element>, c: Element)
    ensures Leaves(cs + [c]) == Leaves(cs) + (if HasChildren(c) then [] else [c])
  {
    if cs == [] {
      assert Leaves([c][1..]) == [];
    } else {
      assert (cs + [c])[1..] == cs[1..] + [c];
      LeavesAppend(cs[1..], c);
    }
  }

  /**
   * The shown rows are, pair by pair, a tag label and a value field for
   * each leaf child in document order; a child without text gets an
   * empty field.
   */
  lemma {:induction false} LeafRowsAt(cs: seq<Element>)
    ensures |LeafRows(cs)| == 2 * |Leaves(cs)|
    ensures forall j :: 0 <= j < |Leaves(cs)| ==>
      && LeafRows(cs)[2 * j] == Label(Leaves(cs)[j].tag)
      && LeafRows(cs)[2 * j + 1] == ValueField(ShownText(Leaves(cs)[j].text), Leaves(cs)[j])
  {
    if cs != [] {
      var init, last := cs[..|cs| - 1], cs[|cs| - 1];
      assert cs == init + [last];
      LeafRowsAt(init);
      LeavesAppend(init, last);
    }
  }

  /** One more child of the loop adds its row, if it is a leaf. */
  lemma LeafRowsStep(cs: seq<Element>, i: nat)
    requires i < |cs|
    ensures LeafRows(cs[..i + 1]) == LeafRows(cs[..i]) + RowsFor(cs[i])
  {
    assert cs[..i + 1][..i] == cs[..i];
  }

  /**
   * Associativity of appending rows: nothing new, stated once only to help
   * the solver through the loop of `AddLeafRows`.
   */
  lemma AppendAssoc(a: seq<Widget>, b: seq<Widget>, c: seq<Widget>)
    ensures a + b + c == a + (b + c)
  {
  }

  /** The self row: shown for a leaf element with a non-empty tag and text. */
  predicate SelfRowShown(xml: Element)
    reads xml
  {
    NonEmpty(xml.tag) && TextTruthy(xml.text) && xml.children == []
  }

  /** The rows `update_xml_editor(xml)` leaves in the panel. */
  function EditorRows(xml: Element?): (r: seq<Widget>)
    reads xml, if xml == null then [] else xml.children
    ensures |r| >= 2 && r[..2] == Headers
    ensures xml == null ==> r == Headers
    ensures xml != null && SelfRowShown(xml) ==> r[2..] == [Label(xml.tag), ValueField(xml.text.value, xml)]
  {
    if xml == null then Headers
    else
      Headers + LeafRows(xml.children)
        + (if SelfRowShown(xml) then [Label(xml.tag), ValueField(xml.text.value, xml)] else [])
  }

  /** With no element selected, only the two headers are shown. */
  lemma NoElementOnlyHeaders()
    ensures EditorRows(null) == [Label("Tags"), Label("Value")]
  {
  }

  /**
   * The panel holds the two headers, two widgets per leaf child, and two
   * more when the self row is shown; the self row and the child rows
   * never appear together.
   */
  lemma EditorRowsCount(xml: Element)
    ensures |EditorRows(xml)| == 2 + 2 * |Leaves(xml.children)| + (if SelfRowShown(xml) then 2 else 0)
    ensures SelfRowShown(xml) ==> EditorRows(xml) == Headers + [Label(xml.tag), ValueField(xml.text.value, xml)]
    ensures EditorRows(xml)[..2] == Headers
  {
    LeafRowsAt(xml.children);
  }

  /** Every value field among the child rows is bound to a leaf child. */
  lemma {:induction false} LeafRowFieldsBound(cs: seq<Element>)
    ensures forall w :: w in LeafRows(cs) && w.ValueField? ==> w.bound in cs && !HasChildren(w.bound)
  {
    if cs != [] {
      var init, last := cs[..|cs| - 1], cs[|cs| - 1];
      LeafRowFieldsBound(init);
      assert forall e :: e in init ==> e in cs;
    }
  }

  /** Every value field is bound to the element itself or to one of its leaf children. */
  lemma FieldsBoundToShownElements(xml: Element)
    ensures forall w :: w in EditorRows(xml) && w.ValueField? ==>
      w.bound == xml || (w.bound in xml.children && !HasChildren(w.bound))
  {
    LeafRowFieldsBound(xml.children);
  }

  /** Why editing a value field can fail as the handler is written. */
  datatype EditError = TextIsNone

  /**
   * The text an edit leaves in the element, as `on_element_change` is
   * written: it first prints `'Old: ' + xml_obj.text`, which raises a
   * TypeError when the element has no text, before the assignment.
   */
  function EditedTextAsWritten(current: Option<string>, s: string): (r: Result<Option<string>, EditError>)
    ensures r.Failure? <==> current == None
    ensures r.Success? ==> r.value == Some(s)
  {
    if current.None? then Failure(TextIsNone) else Success(Some(s))
  }

  /**
   * A leaf child without text is shown with an empty value field, yet
   * typing into that field raises instead of setting the text.
   */
  lemma TextlessLeafEditIsLost(c: Element, s: string)
    requires !HasChildren(c) && c.text == None
    ensures LeafRows([c]) == [Label(c.tag), ValueField("", c)]
    ensures EditedTextAsWritten(c.text, s) == Failure(TextIsNone)
  {
  }

  /** The text an edit is evidently meant to leave: the field's new string. */
  function EditedText(current: Option<string>, s: string): (r: Option<string>)
    ensures r == Some(s)
    ensures current.Some? ==> EditedTextAsWritten(current, s) == Success(r)
  {
    Some(s)
  }

  /** The editor panel and the widgets it currently shows. */
  class XmlEditorPanel {
    var widgets: seq<Widget>
    /** Every widget `clear` has destroyed so far, in order. */
    var destroyed: seq<Widget>

    constructor ()
      ensures widgets == [] && destroyed == []
    {
      widgets := [];
      destroyed := [];
    }

    /** `clear`: destroys every tracked widget, in order, and empties the list. */
    method Clear()
      modifies this
      ensures destroyed == old(destroyed) + old(widgets)
      ensures widgets == []
    {
      var i := 0;
      while i < |widgets|
        invariant i <= |widgets|
        invariant widgets == old(widgets)
        invariant destroyed == old(destroyed) + widgets[..i]
      {
        destroyed := destroyed + [widgets[i]];
        i := i + 1;
      }
      assert widgets[..i] == widgets;
      widgets := [];
    }

    /** `add_single_xml_elements`: the tag label and value field of the element itself. */
    method AddSingleXmlElements(xmlObj: Element)
      requires xmlObj.text.Some?
      modifies this
      ensures widgets == old(widgets) + [Label(xmlObj.tag), ValueField(xmlObj.text.value, xmlObj)]
      ensures destroyed == old(destroyed)
    {
      widgets := widgets + [Label(xmlObj.tag)];
      widgets := widgets + [ValueField(xmlObj.text.value, xmlObj)];
    }

    /**
     * The loop of `update_xml_editor`: a tag label and a value field for
     * each child that has no children, in order; other children are skipped.
     */
    method AddLeafRows(cs: seq<Element>)
      modifies this
      ensures widgets == old(widgets) + LeafRows(cs)
      ensures destroyed == old(destroyed)
    {
      ghost var before := widgets;
      var i := 0;
      while i < |cs|
        modifies this`widgets
        invariant i <= |cs|
        invariant widgets == before + LeafRows(cs[..i])
      {
        LeafRowsStep(cs, i);
        AppendAssoc(before, LeafRows(cs[..i]), RowsFor(cs[i]));
        var child := cs[i];
        if !HasChildren(child) {
          var text := if TextTruthy(child.text) then child.text.value else "";
          widgets := widgets + [Label(child.tag), ValueField(text, child)];
        }
        i := i + 1;
      }
      assert cs[..i] == cs;
    }

    /**
     * `update_xml_editor(xml)`: clears the panel, adds the two headers,
     * then a row per leaf child and, for a leaf with tag and text, the
     * row of the element itself.
     */
    method UpdateXmlEditor(xml: Element?)
      modifies this
      ensures destroyed == old(destroyed) + old(widgets)
      ensures widgets == EditorRows(xml)
    {
      Clear();
      widgets := widgets + [Label("Tags"), Label("Value")];
      if xml != null {
        AddLeafRows(xml.children);
        if NonEmpty(xml.tag) && TextTruthy(xml.text) {
          if xml.children == [] {
            AddSingleXmlElements(xml);
          }
        }
      }
    }

    /**
     * `on_element_change` as written: a field bound to an element without
     * text raises and leaves the element as it was.
     */
    method OnElementChangeAsWritten(xmlObj: Element, s: string) returns (r: Outcome<EditError>)
      modifies xmlObj
      ensures r.Fail? <==> old(xmlObj.text) == None
      ensures EditedTextAsWritten(old(xmlObj.text), s).Success? ==> xmlObj.text == EditedTextAsWritten(old(xmlObj.text), s).value
      ensures r.Fail? ==> xmlObj.text == old(xmlObj.text)
      ensures xmlObj.tag == old(xmlObj.tag) && xmlObj.attrib == old(xmlObj.attrib)
      ensures xmlObj.children == old(xmlObj.children)
    {
      if xmlObj.text.None? {
        return Fail(TextIsNone);
      }
      xmlObj.text := Some(s);
      r := Pass;
    }

    /**
     * `on_element_change`: the bound element's text becomes the field's
     * new string; its tag, attributes and children are untouched.
     */
    method OnElementChange(xmlObj: Element, s: string)
      modifies xmlObj
      ensures xmlObj.text == EditedText(old(xmlObj.text), s)
      ensures xmlObj.tag == old(xmlObj.tag) && xmlObj.attrib == old(xmlObj.attrib)
      ensures xmlObj.children == old(xmlObj.children)
    {
      xmlObj.text := Some(s);
    }
  }
}

/**
 * The element tree the editor works on (lxml elements) and the notification
 * channel the widgets use to tell each other about changes.
 */
module Xml {
  import opened Wrappers

  /**
   * One XML element. Elements are compared by identity (the editor keys
   * its expansion tracker on `id(element)`), so an element is an object.
   * `text` is None when the element has no text, as in lxml.
   */
  class Element {
    var tag: string
    var text: Option<string>
    var attrib: map<string, string>
    var children: seq<Element>

    /** A new element without text, attributes or children. */
    constructor (tag: string)
      ensures this.tag == tag && text == None && attrib == map[] && children == []
    {
      this.tag := tag;
      text := None;
      attrib := map[];
      children := [];
    }
  }

  /** `element.getchildren()` is non-empty. */
  predicate HasChildren(e: Element)
    reads e
  {
    |e.children| > 0
  }

  /**
   * Python truthiness of an optional lxml element: None is false, and an
   * element is false when it has no children.
   */
  predicate Truthy(e: Element?)
    reads e
  {
    e != null && HasChildren(e)
  }

  /** Python truthiness of a string. */
  predicate NonEmpty(s: string)
  {
    s != ""
  }

  /** Python truthiness of an optional string. */
  predicate TextTruthy(t: Option<string>)
  {
    t.Some? && NonEmpty(t.value)
  }

  /** The two topics the core publishes on, with the element they carry. */
  datatype Message =
    | UiUpdater(xmlObj: Element?)
    | TreeUpdate(element: Element)

  /**
   * The publish/subscribe bus, reduced to the ordered record of what was
   * published on it.
   */
  class Channel {
    var log: seq<Message>

    constructor ()
      ensures log == []
    {
      log := [];
    }

    method Send(m: Message)
      modifies this
      ensures log == old(log) + [m]
    {
      log := log + [m];
    }
  }
}

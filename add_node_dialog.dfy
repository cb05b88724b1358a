/** The "New Node" dialog (`NodeDialog`): appends a child to the selected element. */
module NodeDialogs {
  import opened Wrappers
  import opened Xml
  import opened Keys

  /** The dialog, the element it adds to and the bus it publishes on. */
  class NodeDialog {
    const xmlObj: Element
    const channel: Channel
    var closed: bool

    constructor (xmlObj: Element, channel: Channel)
      ensures this.xmlObj == xmlObj && this.channel == channel && !closed
    {
      this.xmlObj := xmlObj;
      this.channel := channel;
      closed := false;
    }

    /**
     * `on_save` with the tag and value fields holding `tag` and `value`:
     * a new element with that tag and text, and no attributes or
     * children, becomes the last child; the existing children stay as
     * they were, the new element is published on `tree_update`, and the
     * dialog closes.
     */
    method OnSave(tag: string, value: string) returns (element: Element)
      modifies xmlObj, channel, this
      ensures fresh(element)
      ensures xmlObj.children == old(xmlObj.children) + [element]
      ensures element.tag == tag && element.text == Some(value)
      ensures element.attrib == map[] && element.children == []
      ensures xmlObj.tag == old(xmlObj.tag) && xmlObj.text == old(xmlObj.text)
      ensures xmlObj.attrib == old(xmlObj.attrib)
      ensures channel.log == old(channel.log) + [TreeUpdate(element)]
      ensures closed
    {
      element := new Element(tag);
      xmlObj.children := xmlObj.children + [element];
      element.text := Some(value);
      channel.Send(TreeUpdate(element));
      closed := true;
    }

    /** `on_enter`: Return or keypad Enter saves and yields the new child; other keys do nothing here. */
    method OnEnter(keycode: int, tag: string, value: string) returns (added: Option<Element>)
      modifies xmlObj, channel, this
      ensures !IsEnterKey(keycode) ==>
        added == None && unchanged(xmlObj) && unchanged(channel) && closed == old(closed)
      ensures IsEnterKey(keycode) ==>
        && added.Some? && fresh(added.value)
        && xmlObj.children == old(xmlObj.children) + [added.value]
        && added.value.tag == tag && added.value.text == Some(value)
        && added.value.attrib == map[] && added.value.children == []
        && channel.log == old(channel.log) + [TreeUpdate(added.value)]
        && closed
      ensures xmlObj.tag == old(xmlObj.tag) && xmlObj.text == old(xmlObj.text)
      ensures xmlObj.attrib == old(xmlObj.attrib)
    {
      added := None;
      if IsEnterKey(keycode) {
        var element := OnSave(tag, value);
        added := Some(element);
      }
    }

    /** `on_cancel`: closes the dialog; the element is not touched. */
    method OnCancel()
      modifies this
      ensures closed
    {
      closed := true;
    }
  }
}

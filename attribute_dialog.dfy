/** The "Add Attribute" dialog (`AttributeDialog`): upserts one attribute of an element. */
module AttributeDialogs {
  import opened Wrappers
  import opened Xml
  import opened Keys

  /** Saving with an empty attribute name raises instead of saving. */
  datatype SaveError = EmptyKey

  /**
   * `attrib[key] = value`, refused for an empty key: the key then maps to
   * the value, every other attribute is kept, and no other key appears.
   */
  function SetAttribute(attrs: map<string, string>, key: string, value: string): (r: Result<map<string, string>, SaveError>)
    ensures r.Failure? <==> !NonEmpty(key)
    ensures r.Success? ==>
      && r.value.Keys == attrs.Keys + {key}
      && r.value[key] == value
      && forall k :: k in attrs && k != key ==> r.value[k] == attrs[k]
  {
    if NonEmpty(key) then Success(attrs[key := value]) else Failure(EmptyKey)
  }

  /** Saving a key twice leaves one entry holding the later value. */
  lemma SetAttributeTwice(attrs: map<string, string>, key: string, v1: string, v2: string)
    requires NonEmpty(key)
    ensures SetAttribute(SetAttribute(attrs, key, v1).value, key, v2) == SetAttribute(attrs, key, v2)
  {
    var once, twice := attrs[key := v2], attrs[key := v1][key := v2];
    assert once.Keys == twice.Keys;
    assert forall k :: k in once ==> once[k] == twice[k];
    assert once == twice;
    assert SetAttribute(attrs, key, v1) == Success(attrs[key := v1]);
  }

  /** Saving the same key and value twice is the same as saving it once. */
  lemma SetAttributeIdempotent(attrs: map<string, string>, key: string, value: string)
    requires NonEmpty(key)
    ensures SetAttribute(SetAttribute(attrs, key, value).value, key, value) == SetAttribute(attrs, key, value)
  {
    SetAttributeTwice(attrs, key, value, value);
  }

  /** The dialog, the element it edits and the bus it publishes on. */
  class AttributeDialog {
    const xmlObj: Element
    const channel: Channel
    var closed: bool

    constructor (xmlObj: Element, channel: Channel)
      ensures this.xmlObj == xmlObj && this.channel == channel && !closed
    {
      this.xmlObj := xmlObj;
      this.channel := channel;
      closed := false;
    }

    /**
     * `on_save` with the attribute and value fields holding `attr` and
     * `value`: with a non-empty name the attribute is upserted, the element
     * is published on `ui_updater` and the dialog closes; with an empty
     * name it raises, and nothing is changed, published or closed.
     */
    method OnSave(attr: string, value: string) returns (r: Outcome<SaveError>)
      modifies xmlObj, channel, this
      ensures r.Pass? <==> NonEmpty(attr)
      ensures r.Pass? ==>
        && xmlObj.attrib == SetAttribute(old(xmlObj.attrib), attr, value).value
        && channel.log == old(channel.log) + [UiUpdater(xmlObj)]
        && closed
      ensures r.Fail? ==>
        && r.error == SetAttribute(old(xmlObj.attrib), attr, value).error
        && unchanged(xmlObj)
        && channel.log == old(channel.log)
        && closed == old(closed)
      ensures xmlObj.tag == old(xmlObj.tag) && xmlObj.text == old(xmlObj.text)
      ensures xmlObj.children == old(xmlObj.children)
    {
      if NonEmpty(attr) {
        xmlObj.attrib := xmlObj.attrib[attr := value];
        channel.Send(UiUpdater(xmlObj));
      } else {
        return Fail(EmptyKey);
      }
      closed := true;
      r := Pass;
    }

    /** `on_enter`: Return or keypad Enter saves; any other key does nothing here. */
    method OnEnter(keycode: int, attr: string, value: string) returns (r: Outcome<SaveError>)
      modifies xmlObj, channel, this
      ensures !IsEnterKey(keycode) ==>
        r == Pass && unchanged(xmlObj) && unchanged(channel) && closed == old(closed)
      ensures IsEnterKey(keycode) ==> (r.Pass? <==> NonEmpty(attr))
      ensures IsEnterKey(keycode) && r.Pass? ==>
        && xmlObj.attrib == SetAttribute(old(xmlObj.attrib), attr, value).value
        && channel.log == old(channel.log) + [UiUpdater(xmlObj)]
        && closed
      ensures IsEnterKey(keycode) && r.Fail? ==>
        unchanged(xmlObj) && channel.log == old(channel.log) && closed == old(closed)
      ensures xmlObj.tag == old(xmlObj.tag) && xmlObj.text == old(xmlObj.text)
      ensures xmlObj.children == old(xmlObj.children)
    {
      r := Pass;
      if IsEnterKey(keycode) {
        r := OnSave(attr, value);
      }
    }

    /** `on_cancel`: closes the dialog; the element is not touched. */
    method OnCancel()
      modifies this
      ensures closed
    {
      closed := true;
    }
  }
}

/**
 * The main frame (`Boomslang`): the document it holds, the directory the
 * file dialogs start in, and the open and save handlers.
 */
module MainFrame {
  import opened Wrappers
  import opened Xml
  import opened SavePaths
  import opened Tree
  import opened Editor

  /** A parsed document (lxml's ElementTree): its root element. */
  class XmlDocument {
    const root: Element

    constructor (root: Element)
      ensures this.root == root
    {
      this.root := root;
    }
  }

  /** What `ET.parse(path)` does: yields a document, or raises an I/O or another error. */
  datatype ParseOutcome = Parsed(doc: XmlDocument) | IoFailure | OtherFailure

  /** A call `xml_tree.write(path)`. */
  datatype Write = Write(path: string, doc: XmlDocument)

  /**
   * Errors the handlers raise: saving before any document was parsed
   * (`self.xml_tree` does not exist yet), and building the display while
   * `self.xml_root` is still None.
   */
  datatype FrameError = NoDocument | NoRoot

  class Boomslang {
    const channel: Channel
    var xmlRoot: Element?
    /** `self.xml_tree`; null while the attribute has never been set. */
    var xmlTree: XmlDocument?
    var currentDirectory: string
    /** Every document written by the save handler, in order. */
    var written: seq<Write>
    /** The tree control and editor panel of the last display built. */
    var tree: XmlTree?
    var editor: XmlEditorPanel?

    /** A frame without a document, browsing from the home directory `home`. */
    constructor (home: string, channel: Channel)
      ensures this.channel == channel
      ensures xmlRoot == null && xmlTree == null && currentDirectory == home
      ensures written == [] && tree == null && editor == null
    {
      this.channel := channel;
      xmlRoot := null;
      xmlTree := null;
      currentDirectory := home;
      written := [];
      tree := null;
      editor := null;
    }

    /**
     * `parse_xml(path)`: moves the current directory to the file's
     * directory first; then, when parsing succeeds, holds the new document
     * and its root, and otherwise keeps the previous ones.
     */
    method ParseXml(path: string, parsed: ParseOutcome)
      modifies this
      ensures currentDirectory == Dirname(path)
      ensures parsed.Parsed? ==> xmlTree == parsed.doc && xmlRoot == parsed.doc.root
      ensures !parsed.Parsed? ==> xmlTree == old(xmlTree) && xmlRoot == old(xmlRoot)
      ensures written == old(written) && tree == old(tree) && editor == old(editor)
    {
      currentDirectory := Dirname(path);
      if !parsed.Parsed? {
        return;
      }
      xmlTree := parsed.doc;
      xmlRoot := xmlTree.root;
    }

    /**
     * `create_display`: a new tree control over the current root and a
     * new editor panel; fails while there is no root.
     */
    method CreateDisplay() returns (r: Outcome<FrameError>)
      modifies this
      ensures r.Pass? <==> xmlRoot != null
      ensures r.Pass? ==>
        && tree != null && fresh(tree) && tree.Valid()
        && tree.xmlRoot == xmlRoot && tree.expanded == {}
        && tree.items == [Item(xmlRoot.tag, None, null, false)] + ChildItems(0, xmlRoot.children, true)
        && editor != null && fresh(editor) && editor.widgets == []
      ensures r.Fail? ==> r.error == NoRoot && tree == old(tree) && editor == old(editor)
      ensures xmlRoot == old(xmlRoot) && xmlTree == old(xmlTree)
      ensures currentDirectory == old(currentDirectory) && written == old(written)
    {
      if xmlRoot == null {
        return Fail(NoRoot);
      }
      tree := new XmlTree(xmlRoot, channel);
      editor := new XmlEditorPanel();
      r := Pass;
    }

    /**
     * `on_open` with the path the file dialog returned: nothing happens
     * for an empty path; otherwise the file is parsed and the display is
     * built for whatever root the frame then holds.
     */
    method OnOpen(path: string, parsed: ParseOutcome) returns (r: Outcome<FrameError>)
      modifies this
      ensures !NonEmpty(path) ==> r == Pass && unchanged(this)
      ensures NonEmpty(path) ==>
        && currentDirectory == Dirname(path)
        && xmlRoot == (if parsed.Parsed? then parsed.doc.root else old(xmlRoot))
        && xmlTree == (if parsed.Parsed? then parsed.doc else old(xmlTree))
        && (r.Pass? <==> xmlRoot != null)
        && (r.Pass? ==>
              && tree != null && fresh(tree) && tree.Valid()
              && tree.xmlRoot == xmlRoot && tree.expanded == {}
              && tree.items == [Item(xmlRoot.tag, None, null, false)] + ChildItems(0, xmlRoot.children, true)
              && editor != null && fresh(editor) && editor.widgets == [])
        && (r.Fail? ==> r.error == NoRoot && tree == old(tree) && editor == old(editor))
      ensures written == old(written)
    {
      r := Pass;
      if NonEmpty(path) {
        ParseXml(path, parsed);
        r := CreateDisplay();
      }
    }

    /**
     * `on_save` with what the save dialog returned: nothing happens when
     * no path was chosen; otherwise `.xml` is appended when missing, the
     * current directory moves to the path's directory, and the document
     * is written there (raising when no document was ever parsed).
     */
    method OnSave(chosen: Option<string>) returns (r: Outcome<FrameError>)
      modifies this
      ensures !(chosen.Some? && NonEmpty(chosen.value)) ==> r == Pass && unchanged(this)
      ensures chosen.Some? && NonEmpty(chosen.value) ==>
        && currentDirectory == Dirname(NormalizeSavePath(chosen.value))
        && currentDirectory == Dirname(chosen.value)
        && (r.Pass? <==> old(xmlTree) != null)
        && (r.Pass? ==> written == old(written) + [Write(NormalizeSavePath(chosen.value), old(xmlTree))])
        && (r.Fail? ==> r.error == NoDocument && written == old(written))
      ensures xmlRoot == old(xmlRoot) && xmlTree == old(xmlTree)
      ensures tree == old(tree) && editor == old(editor)
    {
      r := Pass;
      if chosen.Some? && NonEmpty(chosen.value) {
        var path := chosen.value;
        path := NormalizeSavePath(path);
        currentDirectory := Dirname(path);
        DirnameOfNormalized(chosen.value);
        if xmlTree == null {
          return Fail(NoDocument);
        }
        written := written + [Write(path, xmlTree)];
      }
    }
  }
}

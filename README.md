# Boomslang XML editor — verified model of its editing core

Boomslang is a wxPython XML editor: a tree control on the left shows the
elements of a parsed document, an editor panel on the right shows tag/value
rows for the selected element, and two dialogs add an attribute or a child
element. Under the widgets sits a small amount of real logic, which this
project models in Dafny and proves properties of:

- the element tree itself (`Xml.Element`: tag, optional text, attribute map,
  ordered children; a class, because the editor tells elements apart by
  identity) and the publish/subscribe bus, reduced to the ordered record of
  published messages (`Xml.Channel`);
- the tree control's lazy expansion tracker (`Tree`): which items exist,
  which element each carries, which are flagged as having children, and the
  identity-keyed set that stops an element's children from being added twice;
- the editor panel's row-selection rule and widget list (`Editor`);
- the attribute upsert and the child append made by the two dialogs
  (`AttributeDialogs`, `NodeDialogs`), with their Enter-key and Cancel rules
  (`Keys`);
- the main frame's document state and save path handling (`MainFrame`,
  `SavePaths`): the `.xml` suffix rule, POSIX `os.path.dirname`, the parse
  handler that keeps the previous document on failure;
- the file-equality check (`Controller`): the chunked MD5 read loop and the
  digest comparison.

Foreign collaborators are parameters: `ET.parse` is a `ParseOutcome` value,
MD5 is a function `md5: seq<byte> -> string`, the file system is a map from
readable paths to their bytes, the file dialogs' answers are arguments, and
`xml_tree.write` is recorded in the frame's `written` log.

## Model

| member | source | states |
|---|---|---|
| Xml.Element.constructor | add_node_dialog.py:77-78 | a new sub-element has the given tag, no text, no attributes and no children |
| Tree.ChildItemsAt | boom_tree.py:19-22 | the k-th appended item is captioned with the k-th child's tag, hangs under the given item, carries that child, and is flagged when all are flagged or when the child has children |
| Tree.AppendPreservesWellFormed | boom_tree.py:49-53 | appending children under an existing item keeps item 0 the only parentless item and every parent earlier than its child |
| Tree.ExpansionItemsShape | boom_tree.py:48-53 | expanding an element not yet expanded appends one item per child in document order, each carrying its child and flagged iff the child has children |
| Tree.ReexpansionAppendsNothing | boom_tree.py:48-55 | once an element is recorded as expanded, expanding it again appends no items |
| Tree.EmptyExpansion | boom_tree.py:48 | an item without an element, or whose element has no children, expands to nothing |
| Tree.ExpansionItems | boom_tree.py:48-53 | expanding an item appends nothing unless its element is truthy and not yet expanded, and then one item per child |
| Tree.TrackingByIdentity | boom_tree.py:48-55 | once an element is recorded, expanding it again appends nothing, while expanding an item carrying a distinct element with equal tag and text appends what it did before |
| Tree.XmlTree.constructor | boom_tree.py:12-22 | the root item is captioned with the root's tag; then one item per child of the root, in order, carrying that child and always flagged; nothing is expanded yet |
| Tree.XmlTree.AddElements | boom_tree.py:28-36 | appends one item per child of the element, in order, flagged iff that child has children; the tracker is unchanged |
| Tree.XmlTree.OnItemExpanding | boom_tree.py:38-55 | appends the children's items only when the element is truthy and not yet expanded, and always records the element (None included) as expanded |
| Tree.XmlTree.OnTreeSelection | boom_tree.py:57-66 | publishes on `ui_updater` exactly the element attached to the selected item |
| Editor.ShownText | boom_xml_editor.py:49 | a child's value field shows its text when that is non-empty, and the empty string otherwise |
| Editor.LeavesMembers | boom_xml_editor.py:40-42 | the children given rows are exactly the children that have no children themselves |
| Editor.LeafRowsAt | boom_xml_editor.py:40-57 | the child rows are, pair by pair, a tag label and a value field bound to each leaf child in document order |
| Editor.LeafRowFieldsBound | boom_xml_editor.py:40-57 | every value field among the child rows is bound to a child without children |
| Editor.FieldsBoundToShownElements | boom_xml_editor.py:40-84 | every value field on the panel is bound to the selected element or to one of its leaf children |
| Editor.EditorRows | boom_xml_editor.py:22-63 | the panel's rows start with the two headers; with no element they are only the headers; when the self row is shown it is all that follows them |
| Editor.NoElementOnlyHeaders | boom_xml_editor.py:27-38 | with no element selected the panel holds only the two header labels |
| Editor.EditorRowsCount | boom_xml_editor.py:22-84 | after an update the panel holds 2 + 2 x (leaf children) + 2 (if the self row is shown) widgets, starting with the two headers; the self row excludes child rows |
| Editor.XmlEditorPanel.constructor | boom_xml_editor.py:13-20 | a new panel tracks no widgets |
| Editor.XmlEditorPanel.Clear | boom_xml_editor.py:86-93 | every tracked widget is destroyed, in order, and the widget list is left empty |
| Editor.XmlEditorPanel.AddSingleXmlElements | boom_xml_editor.py:66-84 | appends the element's own tag label and a value field with its text, bound to it |
| Editor.XmlEditorPanel.AddLeafRows | boom_xml_editor.py:40-57 | appends, in document order, a tag label and a value field bound to each child without children, and nothing for the other children |
| Editor.XmlEditorPanel.UpdateXmlEditor | boom_xml_editor.py:22-63 | destroys the old widgets and leaves exactly the rows of the selection rule |
| Editor.EditedTextAsWritten | boom_xml_editor.py:96-103 | as written, the edit fails exactly when the element has no text, and otherwise sets the text to the new string |
| Editor.TextlessLeafEditIsLost | boom_xml_editor.py:49-103 | a leaf child without text is shown with an empty field, yet an edit of that field raises instead of setting the text |
| Editor.EditedText | boom_xml_editor.py:103 | an edit leaves the field's new string as the text, agreeing with the as-written handler wherever that does not raise |
| Editor.XmlEditorPanel.OnElementChangeAsWritten | boom_xml_editor.py:96-104 | as written: raises and changes nothing when the text is None; otherwise sets the text; tag, attributes and children never change |
| Editor.XmlEditorPanel.OnElementChange | boom_xml_editor.py:96-104 | the bound element's text becomes the new string; its tag, attributes and children are unchanged |
| Keys.IsEnterKey | attribute_dialog.py:49-50 | exactly `wx.WXK_RETURN` (13) and `wx.WXK_NUMPAD_ENTER` (370) trigger a save; the same test is at add_node_dialog.py:54-55 |
| Xml.Channel.Send | attribute_dialog.py:76 | a published message is appended to the bus's record, after every earlier one; the same call is at add_node_dialog.py:80 and boom_tree.py:66 |
| AttributeDialogs.SetAttribute | attribute_dialog.py:72-81 | an empty key is refused; otherwise the key maps to the value, all other attributes are kept, and no other key appears |
| AttributeDialogs.SetAttributeTwice | attribute_dialog.py:75 | saving a key twice leaves one entry holding the later value |
| AttributeDialogs.SetAttributeIdempotent | attribute_dialog.py:75 | saving the same key and value twice equals saving it once |
| AttributeDialogs.AttributeDialog.constructor | attribute_dialog.py:8-10 | the dialog edits the given element and starts open |
| AttributeDialogs.AttributeDialog.OnSave | attribute_dialog.py:63-81 | non-empty key: upsert, publish the same element on `ui_updater`, close; empty key: error, element unchanged, nothing published, dialog still open |
| AttributeDialogs.AttributeDialog.OnEnter | attribute_dialog.py:44-52 | Return or keypad Enter saves exactly as the Save button does, never touching the element's tag, text or children; any other key changes nothing |
| AttributeDialogs.AttributeDialog.OnCancel | attribute_dialog.py:54-61 | closes the dialog without touching the element |
| NodeDialogs.NodeDialog.constructor | add_node_dialog.py:10-11 | the dialog adds to the given element and starts open |
| NodeDialogs.NodeDialog.OnSave | add_node_dialog.py:68-81 | one fresh child is appended last, with the tag field as tag, the value field as text, no attributes and no children; existing children keep their order; the new child is published on `tree_update`; the dialog closes |
| NodeDialogs.NodeDialog.OnEnter | add_node_dialog.py:49-57 | Return or keypad Enter saves exactly as the Save button does, never touching the element's tag, text or attributes; any other key changes nothing |
| NodeDialogs.NodeDialog.OnCancel | add_node_dialog.py:59-66 | closes the dialog without touching the element |
| SavePaths.ContainsIffOccurs | main.py:176 | the substring scan answers true exactly when `.xml` starts at some index of the path |
| SavePaths.NormalizeSavePath | main.py:176-177 | the saved path is the chosen path, with `.xml` appended iff `.xml` occurs nowhere in it |
| SavePaths.NormalizedContainsXml | main.py:176-177 | every normalised path contains `.xml` |
| SavePaths.NormalizeIdempotent | main.py:176-177 | normalising twice equals normalising once |
| SavePaths.NormalizeUnchangedIff | main.py:176-177 | a path is left as is exactly when it already contains `.xml` |
| SavePaths.BackupNameKept | main.py:176-177 | `a.xml.bak` is left unchanged |
| SavePaths.SplitIndex | main.py:180 | the split point is just past the last slash, or 0 when the path has none |
| SavePaths.RStripSlashes | main.py:180 | stripping trailing slashes keeps the longest prefix not ending in a slash, followed only by slashes |
| SavePaths.Dirname | main.py:180 | the directory of a path is a prefix of it |
| SavePaths.SplitIndexAppend | main.py:176-180 | appending text without a slash does not move the last slash |
| SavePaths.DirnameAppend | main.py:176-180 | appending text without a slash does not change the directory |
| SavePaths.DirnameOfNormalized | main.py:176-180 | the directory of the normalised path is the directory of the chosen path |
| SavePaths.DirnameOfJoin | main.py:180 | the directory of `dir/name` is `dir` when `dir` does not end in a slash |
| MainFrame.Boomslang.constructor | main.py:15-21 | a new frame has no root, no document and the home directory as current directory |
| MainFrame.Boomslang.ParseXml | main.py:111-126 | the current directory moves to the file's directory even when parsing fails; on success the document and its root are held, on failure the previous ones are kept |
| MainFrame.Boomslang.CreateDisplay | main.py:31-46 | with a root, a fresh tree control over it and a fresh empty editor panel; without one, the error `NoRoot` with the previous display kept |
| MainFrame.Boomslang.OnOpen | main.py:160-168 | with no path nothing changes; otherwise parse, then build the display over whatever root the frame holds: a fresh tree control showing the root and its children and a fresh empty editor panel, or the error `NoRoot` with the previous display kept |
| MainFrame.Boomslang.OnSave | main.py:170-183 | with no path nothing changes; otherwise the current directory becomes the chosen path's directory and the document is written to the normalised path, or the error `NoDocument` is raised when no document was ever parsed |
| Controller.Read | controller.py:55 | a read returns the next at most n bytes of the file, and is empty exactly at the end |
| Controller.ChunksFrom | controller.py:54-58 | the reads from an offset on form at least one chunk, and the last of them is the empty read that ends the loop |
| Controller.ChunksFromConcat | controller.py:53-58 | the chunks read from an offset concatenate to the rest of the file |
| Controller.ChunksConcat | controller.py:53-58 | the chunks fed to the hasher concatenate to the whole file content |
| Controller.ChunksFromShape | controller.py:54-58 | each chunk holds at most 4096 bytes, the last is the empty read that ends the loop, and no earlier one is empty |
| Controller.TrailingEmptyChunk | controller.py:55-58 | the trailing empty chunk adds nothing to what the hasher has seen |
| Controller.GetMd5 | controller.py:48-59 | fails for a missing or unreadable file; otherwise the loop terminates, feeds exactly the chunks of the file, and returns the digest of the whole content |
| Controller.SaveCurrent | controller.py:61-69 | an answer exactly when both files can be read, otherwise the error of the saved file if it cannot be read and of the temporary file if it can; when there is an answer, it is true exactly when the digests agree |
| Controller.IsSaveCurrent | controller.py:61-69 | true iff the two files' digests are equal; fails when either file cannot be read, the saved file first |
| Controller.SameContentIsCurrent | controller.py:48-69 | two readable files with identical bytes are reported current |
| Controller.SaveCurrentReflexive | controller.py:66-69 | a readable file compared with itself is current |
| Controller.SaveCurrentSymmetric | controller.py:66-69 | swapping the two readable files does not change the answer |

## Left out

- Widget, sizer, layout, menu, toolbar, about-box, scrolling and modal dialog construction (main.py:31-109, main.py:128-145, the dialogs' `__init__`), and `Expand(root)` at boom_tree.py:24: UI plumbing with nothing to state. The dialogs' text fields are the arguments of their save handlers.
- The pubsub bus: publishing is recorded in `Channel.log`; delivery to subscribers is not modelled. The keyword mismatch between the `ui_updater` publications at boom_tree.py:66 and attribute_dialog.py:76 (`xml_obj=`) and the subscribed handler's parameter at boom_xml_editor.py:22 (`xml`) is a UI-layer bug that is not reproduced: `UpdateXmlEditor` takes the element directly, and `AttributeDialog.OnSave` publishes and closes as if delivery succeeded.
- lxml: `ET.parse` is a `ParseOutcome` argument (both failure branches of main.py:118-124 have the same effect), and `xml_tree.write` is an entry in the `written` log; serialisation is not modelled.
- NodeDialogs.NodeDialog.OnSave: lxml's rejection of invalid tag names in `ET.SubElement` (an empty tag, for one, raises) is not modelled; every tag is accepted.
- MD5 (RFC 1321) itself: a function parameter over the bytes fed so far, since an MD5 object updated chunk by chunk gives the digest of their concatenation.
- The native file dialogs `open_file`/`save_file` (controller.py:14-46), including the unbound `path` when the open dialog is cancelled: their answer is an argument of `OnOpen`/`OnSave`.
- Unreadable files are files absent from the file-system map; the file system is read-only here.
- `event.Skip()` in the dialogs' `on_enter`, which lets the key reach the text control: a widget effect.
- `print` output in `parse_xml` and `on_element_change`; only the exception the latter's print raises is modelled.
- `create_display` adds a new splitter on every open; the model keeps only the latest tree control and editor panel.
- `on_add_node` and `on_remove_node` publish topics whose subscribers are not in these files; `on_exit` closes the frame; `on_about_box` shows an About box.
- `os.path.dirname` is modelled for POSIX paths only; `id()` values being reused after an element is freed is not modelled (the tree keeps every element alive).
- An empty attribute name makes `on_save` raise a `TypeError` (attribute_dialog.py:79 raises the constant `NotImplemented`, which is not an exception) and the dialog stays open; the model returns the error `EmptyKey`. Saving before any document was parsed raises after the current directory has already moved. A failed parse keeps the previous document and, on the first open, then fails building the display.
- AttributeDialogs.AttributeDialog.OnSave: lxml's `ValueError` for an invalid attribute name (such as `a b` or `1x`) or a value holding control characters (attribute_dialog.py:75) is not modelled; such a save upserts, publishes and closes here.
- Editor.XmlEditorPanel.OnElementChange: lxml's `ValueError` when the new text holds control characters (boom_xml_editor.py:103) is not modelled; the text is always set.
- NodeDialogs.NodeDialog.OnSave: lxml's `ValueError` when the value holds control characters (add_node_dialog.py:79) is not modelled; the program would then have appended the child already and publish nothing, while the model always sets the text, publishes and closes.
- MainFrame.Boomslang.OnSave: an `IOError` from `xml_tree.write` for a path that cannot be written (main.py:183) is not modelled; every save with a document is logged as written.

## Findings

| source | as written | input that shows it | evidently intended | confidence | as-written member | corrected member |
|---|---|---|---|---|---|---|
| boom_xml_editor.py:96-103 | `on_element_change` prints `'Old: ' + xml_obj.text` before assigning the new text, which raises a TypeError when the text is None | a leaf child `<b/>` (text None) is shown with an empty value field (boom_xml_editor.py:49); typing `x` into it | the child's text becomes `x` | high; not executed | Editor.XmlEditorPanel.OnElementChangeAsWritten, Editor.TextlessLeafEditIsLost | Editor.XmlEditorPanel.OnElementChange, Editor.EditedText |

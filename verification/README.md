# fife-editor-cegui: the editor's core logic, modelled in Dafny

fife-editor-cegui is a map and object editor for the FIFE engine with a
CEGUI interface. Underneath the widget wiring sit small pieces of
sequential logic. This project models them and proves what they do:

- the undo history (`UndoManager`): two bounded stacks;
- the undoable create/remove instance commands, over an abstract layer;
- the object toolbar:
  - the object-definition parsers, over an abstract element tree;
  - the atlas frame layout;
  - the catalogue rescan and the reconciliation of its preview windows;
  - the placement callbacks (`cb_map_clicked`, `cb_map_moved`);
- the property editor's section/flag registry and its first-match
  dispatch of new properties over the registered property classes, with
  each class's `check_type` over tagged Python values;
- the components dialog's set logic;
- the editor listener's callback registry and dispatch;
- the basic toolbar's outliner and its click selection;
- the message box's greedy word wrap;
- `split_new_path`.

The modules follow the source's classes and concerns: `Undo`,
`UndoEditor` (over `Scene`, the layer seen as a map from instance
handles to instances), `PropertyEditor`, `Components`, `EditorScene`,
`BasicToolbar`, `MessageBox` and `Paths` each model one source file;
editor/object_toolbar.py is split into `ObjectParser` (reading object
files), `AtlasLayout` (atlas frame arithmetic, as written and corrected), `ObjectToolbar` (the
catalogue and its windows) and `Placement` (placing objects on the map),
and editor/properties.py into `PyValues` (tagged Python
values) and `Properties` (the property classes). `Py` holds the model of Python exceptions:
a `Result` that is either a value or a raised `PyError`, and an
`Outcome` that is the state after a call plus the exception it raised,
if any. `Loops` states once the two loop shapes the parsers use: a
dictionary built by assignment, and a list built by `append`. `Xml`
holds the element tree, `int()`, `str()`, `split` and `join`. `Sets`
picks elements of sets and gives the least and greatest.

Python exceptions are error results, raised in the order the code reaches
them. Dictionary iteration order, which Python leaves open, is left open
here too: the methods choose with `:|`, and their contracts hold for
every choice. Everything the code gets from outside is a parameter:
- the engine's model, files and textures;
- the font's text width;
- which paths exist;
- the component classes and which of them entities use.

## Model

| member | source | states |
|---|---|---|
| Undo.NewManager | editor/undo.py:55-58 | a new manager has both stacks empty and the given capacity, and is within bounds whenever the capacity is at least one |
| Undo.PushBoundedShape | editor/undo.py:79-81 | pushing onto a full stack drops its oldest entry and appends the new one at the top; below capacity it only appends; a stack within capacity stays within it |
| Undo.AddAction | editor/undo.py:70-81 | add_action empties the redo stack, puts the action on top of the undo stack, drops the oldest undo entry exactly when the stack was at capacity, and keeps the manager within bounds |
| Undo.NextUndoAction | editor/undo.py:83-86 | get_next_undo_action returns the top of the undo stack and raises IndexError exactly when it is empty |
| Undo.NextRedoAction | editor/undo.py:88-91 | get_next_redo_action returns the top of the redo stack and raises IndexError exactly when it is empty |
| Undo.UndoAction | editor/undo.py:93-102 | undo_action fails exactly on an empty undo stack, with UndoError("Nothing to undo") and nothing changed; otherwise it pops the newest action, applies its undo to the world and pushes it onto redo, dropping redo's oldest entry at capacity |
| Undo.RedoAction | editor/undo.py:104-114 | redo_action mirrors undo_action: UndoError("Nothing to redo") on an empty redo stack; otherwise the newest redo entry is redone and moves onto the undo stack, with the same trim |
| Undo.OperationsPreserveValid | editor/undo.py:70-114 | add, undo and redo all keep both stacks within the capacity |
| Undo.UndoThenRedoRestoresStacks | editor/undo.py:93-111 | below capacity, undo followed by redo restores both stacks exactly, and the world has seen the action's undo followed by its redo |
| Undo.MovesKeepTotalCount | editor/undo.py:93-111 | undo and redo move exactly one action: undo_count + redo_count only drops, by one, when the receiving stack was full |
| Undo.OverflowDropsOldest | editor/undo.py:79-81 | adding to a full undo stack keeps its size at max_undo, drops the oldest action and keeps the others in order |
| Scene.Create | editor/object_toolbar.py:596 | createInstance adds exactly one new instance, with the given layer, object, coordinates and id and rotation 0, and leaves every other instance as it was |
| Scene.Delete | editor/object_toolbar.py:590 | deleteInstance removes exactly that instance and leaves the others as they were |
| Scene.SetRotation | editor/undo_editor.py:63 | setRotation changes only the rotation of that one instance |
| Scene.InstancesAt | editor/object_toolbar.py:589 | getInstancesAt yields exactly the instances on that layer at those coordinates |
| Scene.DeleteAll | editor/object_toolbar.py:589-590 | deleting every instance of a set removes exactly those instances and keeps the rest unchanged |
| UndoEditor.Command.Description | editor/undo_editor.py:81 | both commands carry the description "Create instance"; the remove command reuses the create command's text |
| UndoEditor.NewCreate | editor/undo_editor.py:46-54 | UndoCreateInstance stores the layer, coordinates, object, rotation and identifier and records no instance yet |
| UndoEditor.NewRemove | editor/undo_editor.py:80-88 | UndoRemoveInstance records the instance and snapshots its layer, exact coordinates, object, rotation and id |
| UndoEditor.Recreate | editor/undo_editor.py:59-63 | creating from the stored data yields one new instance with exactly the stored layer, object, coordinates, identifier and rotation, and changes no other instance |
| UndoEditor.Redo | editor/undo_editor.py:56-67 | the create command's redo creates exactly one new instance from its stored data and records it; the remove command's redo deletes exactly the instance it records |
| UndoEditor.Undo | editor/undo_editor.py:69-102 | the create command's undo deletes exactly the recorded instance and clears the record; the remove command's undo recreates an instance equal to the snapshot, records it, and changes no other instance |
| UndoEditor.CreateRedoUndoRestores | editor/undo_editor.py:56-73 | create, redo then undo leaves the layer's instances exactly as they were and the command as it was built |
| UndoEditor.CreateRedoAgainSameInstance | editor/undo_editor.py:56-73 | a redo after an undo recreates an instance equal, in layer, object, coordinates, identifier and rotation, to the one the first redo made |
| UndoEditor.RemoveRoundTrip | editor/undo_editor.py:80-102 | remove, undo, redo: the undo brings back an instance equal to the removed one, and the redo removes that recreated instance, leaving the layer as after the first removal |
| Xml.Filter | editor/object_toolbar.py:89 | findall keeps exactly the children with the tag |
| Xml.Attr | editor/object_toolbar.py:92 | reading an attribute yields its value, and raises KeyError naming it exactly when it is missing |
| Xml.TrimLeft | editor/object_toolbar.py:116 | the whitespace int() skips before a number: a suffix of the text, every character cut from its front is white space, and what remains does not start with white space |
| Xml.TrimRight | editor/object_toolbar.py:116 | the whitespace int() skips after a number: a prefix of the text, every character cut from its end is white space, and what remains does not end with white space |
| Xml.ParseInt | editor/object_toolbar.py:116 | int() of a string succeeds exactly when, without its surrounding white space, the text is decimal digits, or a sign followed by optional white space and decimal digits; otherwise it raises ValueError |
| Xml.ParseIntOfParts | editor/object_toolbar.py:116 | white space, an optional sign, white space, decimal digits and white space again read as the digits' decimal value, negated after a minus sign |
| Xml.ParseIntParts | editor/object_toolbar.py:116 | conversely, every string int() accepts is white space, an optional sign, white space after a sign, at least one decimal digit and white space, and its value is the digits' value with that sign |
| Xml.SpaceAfterSign | editor/object_toolbar.py:116 | int("- 5") == -5: white space between the sign and the digits is accepted |
| Xml.ParseIntOfIntToString | editor/object_toolbar.py:178-179 | int(str(n)) == n for every integer n, so a direction written out as text reads back as itself |
| Xml.Split | editor/object_toolbar.py:210 | split always yields at least one field |
| Xml.SplitJoin | editor/object_toolbar.py:210 | joining the fields of split with the separator gives back the string, and no field contains the separator |
| Loops.FoldLast | editor/object_toolbar.py:150-156 | a dictionary built by assignment in a loop completes exactly when no element raises, and otherwise raises the first element's exception; every element's key is in the result, every entry comes from some element, and the last element with a key decides its value |
| Loops.FoldStep | editor/object_toolbar.py:150-156 | one more pass of the loop keeps what FoldLast states: the first exception raised, and the last element with a key deciding its value |
| Loops.MapAll | editor/object_toolbar.py:205-209 | a list built by append completes exactly when no element raises, raises the first exception otherwise, and holds each element's value in order |
| Loops.FirstIndex | editor/basic_toolbar.py:98-104 | a for/break search finds the first index satisfying the test, and none exactly when no element does |
| ObjectParser.AtlasEntry | editor/object_toolbar.py:90-93 | one atlas image is filed under its source attribute, and a missing source raises |
| ObjectParser.ParseAtlas | editor/object_toolbar.py:74-95 | parse_atlas keeps the atlas element and files each of its images under its source name: every image's source is a key, every entry is an image with that source, and of two images with the same source the later one is kept; it raises KeyError("source") exactly when some image has no source |
| ObjectParser.ImageEntry | editor/object_toolbar.py:121-134 | a static image is typed atlas exactly when its source is in the atlas table; it then takes the atlas's name as source and the atlas entry's attributes overlay its own; any other image is resolved against the object file's directory; its direction is int(direction) |
| ObjectParser.AtlasAttributesOverride | editor/object_toolbar.py:125-128 | in the overlay an attribute the atlas entry gives takes the atlas's value, every other keeps the image's own, and nothing else is added |
| ObjectParser.ParseAnimation | editor/object_toolbar.py:185-215 | an inline animation yields the id's third ':'-field as direction, its frames resolved in order, and its offsets; it raises exactly when a frame source, the id's third field or an offset is missing. An animation with a source reads that file: a missing file raises IOError, a file without delay raises KeyError("delay"), and the result always carries a delay |
| ObjectParser.SourcedAnimationDelay | editor/object_toolbar.py:196-203 | an animation read from a file whose content is inline takes that file's delay |
| ObjectParser.SplitThirdField | editor/object_toolbar.py:210 | for an id "p:q:c" with colon-free p and q, the third field is the part of c before its first colon |
| ObjectParser.AtlasDirectionEntry | editor/object_toolbar.py:235-239 | one atlas direction yields int(dir) with its delay and frames text, and succeeds exactly when all three attributes are present and dir is an integer |
| ObjectParser.ParseAnimationAtlas | editor/object_toolbar.py:218-241 | parse_animation_atlas succeeds exactly when the atlas, width and height attributes are present and every direction element reads; it then yields the atlas image resolved against the file's directory, the frame width and height, and each direction's delay and frames, every entry coming from a direction element and the last element with a direction winning; a missing atlas, width or height raises KeyError naming the first one missing, and otherwise the first failing direction's error is raised |
| ObjectParser.AnimationEntry | editor/object_toolbar.py:178-180 | one animation of a multi set is filed under int() of its direction and succeeds exactly when both the parse and the int() succeed |
| ObjectParser.ParseAnimations | editor/object_toolbar.py:159-182 | an empty list raises IndexError; a first animation with an atlas attribute makes a single set from it alone; otherwise every animation is parsed and filed under int(direction), the last one with a direction winning, and the whole fails exactly when one does |
| ObjectParser.SingleIgnoresLaterAnimations | editor/object_toolbar.py:170-173 | when the first animation names an atlas, the animations after it make no difference |
| ObjectParser.InlineAnimationDirection | editor/object_toolbar.py:177-180 | an inline animation with id "p:q:d" is filed under the direction d |
| ObjectParser.ActionEntry | editor/object_toolbar.py:151-154 | one action's animations are parsed before its id is read, so their exception comes first |
| ObjectParser.ParseActions | editor/object_toolbar.py:141-156 | parse_actions files every action's animations under its id, the later of two actions with the same id winning, and fails exactly when one action does |
| ObjectParser.ParseImages | editor/object_toolbar.py:119-134 | the direction table of a static object completes exactly when every image's entry does, and otherwise raises the first failing image's error; every image's direction is a key, every entry comes from an image, and the last image with a direction decides its entry |
| ObjectParser.ParseObject | editor/object_toolbar.py:98-138 | parse_object keeps the object's attributes; static 0 yields parse_actions of the action elements and succeeds exactly when that does, raising its error otherwise; static 1 yields the direction table of the image elements and succeeds exactly when every image's entry does; a missing static raises KeyError and a non-integer ValueError; any other value raises RuntimeError naming the first child's tag, or IndexError when there is none |
| ObjectParser.StaticImageFiledUnderItsDirection | editor/object_toolbar.py:118-134 | a static image whose direction reads as d is the table's entry for d unless a later image claims d as well |
| AtlasLayout.PyDiv | editor/object_toolbar.py:386 | the corrected layout's whole-pixel division: Python 2's integer `/`, the floor of the quotient |
| AtlasLayout.PyMod | editor/object_toolbar.py:428 | the corrected layout's column: Python 2's integer `%`, with a == (a / b) * b + a % b, taking the divisor's sign |
| AtlasLayout.FrameCount | editor/object_toolbar.py:425-426 | xrange(int(frames)) has int(frames) elements, none for a negative count, and int() failing raises |
| AtlasLayout.ParsedCounts | editor/object_toolbar.py:425 | every direction's frame count is read from its own frames text |
| AtlasLayout.ReadCounts | editor/object_toolbar.py:391-428 | the counts are read direction by direction, in ascending order; they all read exactly when every count is an integer and none is positive while per_line is zero; otherwise the smallest direction that fails decides the error: its count's ValueError, or ZeroDivisionError from dividing by per_line |
| AtlasLayout.DirectionFrames | editor/object_toolbar.py:426-444 | in the corrected layout, frame j of a direction is named name.action.direction.j and placed at grid cell start + j |
| AtlasLayout.Layout | editor/object_toolbar.py:391-444 | in the corrected layout, frame k of an action is the k-th (direction, frame id) pair, directions ascending, and sits at column k mod per_line and row k div per_line |
| AtlasLayout.LaidOutAppend | editor/object_toolbar.py:444 | frames laid out for some directions, followed by frames numbered on from where they stopped, are laid out for all of them: the frame counter runs on across directions (corrected layout) |
| AtlasLayout.AtlasFrames | editor/object_toolbar.py:384-444 | the corrected layout of a single animation: it reads frame width and height, computes per_line as the whole-pixel texture width floor-divided by the frame width, and lays out every direction's frames in ascending order on the grid; it succeeds exactly when both sizes are integers, the width is not 0 and every count reads; otherwise the width's or the height's ValueError, ZeroDivisionError for a zero width, or the counts' error is raised, in that order |
| AtlasLayout.FrameIndexOfDirection | editor/object_toolbar.py:391-392 | frame j of direction d is frame (frames of the smaller directions) + j of the action, whatever order the dictionary yields |
| AtlasLayout.FrameInsideTexture | editor/object_toolbar.py:386-433 | in the corrected layout, with positive frame sizes and at least one frame per line, x + frame_width <= texture width and no frame lies left of or above the texture |
| AtlasLayout.FramesDoNotOverlap | editor/object_toolbar.py:427-433 | in the corrected layout, distinct frames of an action are disjoint: one lies wholly left of, right of, above or below the other |
| AtlasLayout.TwoDirectionExample | editor/object_toolbar.py:384-444 | in the corrected layout, with a 256-pixel texture, 64x64 frames and three frames facing 0 and 90: the first frame facing 90 is at (192, 0) and the second at (0, 64) |
| AtlasLayout.AtlasFramesAsWritten | editor/object_toolbar.py:382-444 | the layout as written: per_line is the float texture width over the frame width; the same error order as AtlasFrames, except that ZeroDivisionError at the first frame needs a zero texture width; frame k is the k-th (direction, frame id) pair at column k % per_line and row k / per_line in floats |
| AtlasLayout.FloatLayout | editor/object_toolbar.py:426-444 | the frames as written: the k-th (direction, frame id) pair at its float position |
| AtlasLayout.AsWrittenFrameOffGrid | editor/object_toolbar.py:386-433 | as written, frame 1 of a 256-pixel atlas of 64x64 frames is at (64, 16), where the corrected layout has (64, 0) |
| AtlasLayout.AsWrittenFramesOverlap | editor/object_toolbar.py:386-433 | as written, frame 3 of a 100-pixel atlas of 30x30 frames reaches x = 120, past the texture, and frames 1 and 4 overlap |
| AtlasLayout.AsWrittenNarrowTexture | editor/object_toolbar.py:386-427 | as written, a 32-pixel texture with 64-pixel frames lays its frames out without raising, since per_line is 0.5 |
| AtlasLayout.TwoDirectionAsWritten | editor/object_toolbar.py:384-444 | as written, with a 256-pixel texture, 64x64 frames and three frames facing 0 and 90, the first frame facing 90 is at (192, 48) |
| Sets.Max | editor/object_toolbar.py:391 | sorted(d.iteritems()) visits the largest key last: it is in the set and bounds every key |
| Sets.Min | editor/object_toolbar.py:509 | the first element of a sorted list of directions is in the set and no larger than any |
| ObjectToolbar.WindowName | editor/object_toolbar.py:493 | a window's name is namespace + "." + id |
| ObjectToolbar.WindowNamesDistinct | editor/object_toolbar.py:493 | objects whose namespaces hold no dot have different window names |
| ObjectToolbar.ScanAction | editor/object_toolbar.py:366-444 | one action records its directions; a single (atlas) action defines the frames of the corrected layout and raises as AtlasFrames raises; a multi action succeeds exactly when every direction carries a delay and raises KeyError("delay") otherwise |
| ObjectToolbar.Define | editor/object_toolbar.py:438-443 | each frame is registered under its name unless an image of that name exists; existing images keep their area |
| ObjectToolbar.ScanActions | editor/object_toolbar.py:367-444 | every action of an animated object is scanned; the result holds each action's directions and succeeds exactly when every action does, raising one failing action's error otherwise |
| ObjectToolbar.ScanObject | editor/object_toolbar.py:360-445 | a definition without id or static raises KeyError; otherwise its id gets the entry its static flag selects |
| ObjectToolbar.NamespaceNames | editor/object_toolbar.py:341-343 | the catalogue's namespaces are exactly those the engine lists |
| ObjectToolbar.Scan | editor/object_toolbar.py:337-490 | a successful rescan has exactly the engine's namespaces as keys, records an empty entry only for ids that have a window, and never forgets a defined image |
| ObjectToolbar.PreviewImage | editor/object_toolbar.py:499-512 | a new window shows frame 0 of some direction of some action, or the smallest direction of a static object; an entry without static raises KeyError("static"), and an empty action or direction list raises IndexError |
| ObjectToolbar.CataloguePairs | editor/object_toolbar.py:491-492 | the (namespace, id) pairs visited are exactly those in the catalogue |
| ObjectToolbar.CreateWindows | editor/object_toolbar.py:491-518 | every catalogued object whose name has no window gets one, keyed by its name, with default alpha, tooltip id and user data [namespace, id]; existing windows are reused untouched; it completes whenever every such object has a preview |
| ObjectToolbar.Evict | editor/object_toolbar.py:519-525 | eviction as intended keeps exactly the windows whose object is still in the catalogue, unchanged |
| ObjectToolbar.EvictAsWritten | editor/object_toolbar.py:519-525 | eviction as written always raises at the first stale window, KeyError for the unknown namespace or for the bare id under which it deletes |
| ObjectToolbar.StaleWindowBreaksRescan | editor/object_toolbar.py:519-525 | a window "ns.a" whose object left the catalogue makes the rescan raise KeyError("a") and stay in the table |
| ObjectToolbar.ReconciledKeys | editor/object_toolbar.py:491-525 | after creation and eviction there is exactly one window per catalogued object, keyed by its name |
| ObjectToolbar.NewToolbar | editor/object_toolbar.py:254-298 | a new toolbar has nothing scanned, no window, no selection, is inactive and has no rescan pending |
| ObjectToolbar.UpdateImages | editor/object_toolbar.py:332-525 | an inactive page returns at once and keeps its rescan pending; an active one clears the flag; without an exception the catalogue has the engine's namespaces; when no namespace or object name holds a dot and the old windows are well keyed, every catalogued object has a window; each window belongs to a catalogued object, old windows are reused, and with well-keyed windows they are exactly one per object; the highlight stays on the selection |
| ObjectToolbar.UpdateImagesAsWritten | editor/object_toolbar.py:332-525 | with the eviction as written, a rescan that raises nothing removed no window and left none stale |
| ObjectToolbar.UpdateContents | editor/object_toolbar.py:326-330 | update_contents rescans only while a map change is pending, and the flag is cleared only by an active rescan |
| ObjectToolbar.CbMapChanged | editor/object_toolbar.py:549-567 | cb_map_changed always marks the catalogue stale; it refills the layer list from the new map and clears the selected layer; an unknown map raises KeyError after the flag is set |
| ObjectToolbar.MapChangeThenTick | editor/object_toolbar.py:326-336 | a map change followed by a tick of an active page leaves no rescan pending; on an inactive page the rescan waits |
| ObjectToolbar.ImageClickedAsWritten | editor/object_toolbar.py:308-324 | image_clicked as written raises KeyError for a name without a window before its membership test; otherwise the previous selection's window returns to default alpha, the clicked one is highlighted and selected |
| ObjectToolbar.ImageClicked | editor/object_toolbar.py:308-324 | image_clicked as intended ignores a name without a window and otherwise acts as written |
| ObjectToolbar.Select | editor/object_toolbar.py:320-324 | selecting resets the previous selection's window to default alpha, raising KeyError when it has none, highlights the clicked window and selects its object |
| ObjectToolbar.ClickKeepsHighlightOnSelection | editor/object_toolbar.py:320-324 | after a click only the selected object's window is highlighted |
| ObjectToolbar.DeactivateAsWritten | editor/object_toolbar.py:541-547 | deactivate as written only deactivates without a selection; with one it raises before clearing the selection or the active flag |
| ObjectToolbar.Deactivate | editor/object_toolbar.py:541-547 | deactivate as intended resets the selected window to default alpha, clears the selection and deactivates the page |
| ObjectToolbar.DeactivateClearsHighlight | editor/object_toolbar.py:541-547 | after a deactivation that succeeds no window is highlighted |
| Placement.NoLayerNoCalls | editor/object_toolbar.py:599-603 | while no layer is selected, a press calls none of the callbacks whose factory is the toolbar's |
| Placement.NoLayerReachesAll | editor/object_toolbar.py:599-603 | while no layer is selected, a press runs through every callback with the toolbar's factory, whatever their arity |
| Placement.ToolbarPressAsWritten | editor/object_toolbar.py:569 | once a layer is selected, a left press passing the map point alone stops at the toolbar's click callback with TypeError |
| Placement.ToolbarPressWithButton | editor/object_toolbar.py:569-603 | passing the button too, the press completes, calling the click callback on the selected layer or not at all |
| Placement.Activate | editor/object_toolbar.py:527-539 | activate sets the page active, then registers the click callback for presses and drags and the move callback for moves; it succeeds exactly when the listener knows all three types, and otherwise raises at the first unknown one, keeping the registrations made before |
| Placement.ActivateOnEditorListener | editor/object_toolbar.py:534-536 | on the editor's own listener, activation registers the press callback and then raises RuntimeError for "mouse_dragged" |
| Placement.ActivateOnMotionListener | editor/object_toolbar.py:527-539 | on a listener that knows drags and moves, activation succeeds and each type holds exactly the toolbar's callback |
| Placement.CbMapClicked | editor/object_toolbar.py:569-597 | cb_map_clicked always forgets the preview; it ignores the event without a layer, on an inactive page, for the middle button, or for the left button with no selection; otherwise it deletes every instance on the cell and keeps the rest, stops there on a right click, and on any other click leaves exactly one instance of the selected object there; a button other than left, middle and right with no object selected raises TypeError after the clearing, and that is the only exception |
| Placement.CbMapMoved | editor/object_toolbar.py:605-632 | cb_map_moved does nothing outside placing mode or on the last recorded cell; otherwise it deletes the previous preview if a position was recorded, creates exactly one new preview on the new cell, and records both |
| Placement.PreviewFollowsMouse | editor/object_toolbar.py:620-632 | moving over two cells in a row leaves one preview instance, on the second cell, and the rest of the scene as it was |
| Placement.ClickOnPreviewPlacesOne | editor/object_toolbar.py:579-597 | a left click where the preview stands leaves exactly one instance of the selected object on that cell and no preview |
| EditorScene.NewListener | editor/editor_scene.py:30-33 | a new EditorListener knows only the "mouse_pressed" type, with no callback |
| EditorScene.NewMotionListener | editor/object_toolbar.py:531-539 | the listener the toolbar's registrations need knows presses, drags and moves |
| EditorScene.AddCallback | editor/editor_scene.py:35-48 | add_callback raises RuntimeError exactly for an unknown type; otherwise it appends the callback to its type's list and changes nothing else |
| EditorScene.RegistrationOrder | editor/editor_scene.py:48 | callbacks registered one after another keep that order |
| EditorScene.Called | editor/editor_scene.py:53-66 | a dispatch makes at most one call per callback |
| EditorScene.UpToMissing | editor/editor_scene.py:53-58 | the callbacks before the first one without a factory |
| EditorScene.Reach | editor/editor_scene.py:53-66 | the dispatch reaches exactly the callbacks before the first that has no factory, or whose factory names a layer while it does not take the arguments the press passes |
| EditorScene.ReachStopsAtMissing | editor/editor_scene.py:56-58 | a press never gets past the first callback without a factory |
| EditorScene.MousePress | editor/editor_scene.py:50-66 | only the left button dispatches; the callbacks run in order, those whose factory gives no layer are skipped, reaching one without a factory raises RuntimeError, and calling one that does not take the arguments passed raises TypeError, after the calls before it |
| EditorScene.FactorylessCallbackBlocksDispatch | editor/editor_scene.py:56-58 | a callback registered without a factory at position i stops every left press at or before i |
| EditorScene.PressAsWrittenRejectsTwoArguments | editor/editor_scene.py:59-66 | passing the map point alone, a callback taking the point and the button, reached with a layer, stops the press with TypeError |
| EditorScene.PressWithButtonReachesAll | editor/editor_scene.py:50-66 | passing the point and the button, a press over callbacks that have factories and take both runs through them all and completes |
| BasicToolbar.NewToolbar | editor/basic_toolbar.py:33-36 | a new basic toolbar is inactive and its outliner remembers no instance |
| BasicToolbar.GetOutlines | editor/basic_toolbar.py:86-104 | get_outlines returns at most one outline: the first instance, in input order, on the selected layer, with data (255,255,255,1), remembered as last_instance; with none, an empty result and no instance remembered |
| BasicToolbar.LaterInstancesIrrelevant | editor/basic_toolbar.py:98-102 | instances after the first match do not change the outline |
| BasicToolbar.Activate | editor/basic_toolbar.py:45-50 | activate sets is_active, installs the outliner and turns outlining on |
| BasicToolbar.Deactivate | editor/basic_toolbar.py:52-57 | deactivate clears is_active, removes the outliner and turns outlining off |
| BasicToolbar.ActivateDeactivate | editor/basic_toolbar.py:45-57 | deactivating after activating leaves the toolbar as it was, with no outliner and no outlining |
| BasicToolbar.CbMapClicked | editor/basic_toolbar.py:59-75 | a click selects last_instance exactly when a layer is selected, the page active, a map current and last_instance set; otherwise the selection stays |
| BasicToolbar.ClickSelectsOutlined | editor/basic_toolbar.py:59-104 | outlining then clicking selects the first instance on the selected layer |
| PyValues.TypeOf | editor/properties.py:141-143 | type(v) is a concrete class, never the abstract basestring |
| PyValues.IsInstanceSubclasses | editor/properties.py:220 | isinstance counts a bool as an int, only str and unicode as basestring, and nothing but a bool as a bool |
| PyValues.MemberTypes | editor/properties.py:138-143 | the classes of the members an iteration yields are exactly those collected |
| Properties.ComboCheck | editor/properties.py:147-156 | the combo check the widget needs: two values, the first iterable, every member of exactly the class of the second |
| Properties.ComboCheckAsWritten | editor/properties.py:135-145 | check_type of the combo class as written: two values, the second iterable, every member of exactly the class of the first |
| Properties.ComboCheckAsWrittenSwaps | editor/properties.py:135-150 | the check as written is the widget's check applied to the pair turned round |
| Properties.CheckType | editor/properties.py:135-731 | each class's check_type: the combo class accepts exactly the pairs ComboCheck accepts, the corrected reading of Findings; toggle accepts exactly one bool, point one point, 3D point one 3D point, text one str or unicode, list one list, set one set, dict one dict, and number one int or float, and therefore also a bool |
| Properties.ComboCheckReadsPairBackwards | editor/properties.py:135-150 | the check as written rejects a well-formed (list of strings, string) pair and accepts the reversed one |
| Properties.UpdateData | editor/properties.py:104-112 | update_data replaces the data and keeps the property's class, section and name |
| PropertyEditor.GuiPosition | editor/editor_gui.py:166-174 | every property class has its place in the editor's registration order |
| PropertyEditor.NewEditor | editor/property_editor.py:53-57 | a new editor has no section, no property class and no callback |
| PropertyEditor.AddSection | editor/property_editor.py:117-141 | add_section succeeds exactly for a new section, which gets no property and the given flags as a set (none without a list); a present section raises RuntimeError; the other sections stay |
| PropertyEditor.SetSectionFlags | editor/property_editor.py:143-155 | set_section_flags replaces the flags of a present section and raises ValueError for an unknown one |
| PropertyEditor.AddSectionFlag | editor/property_editor.py:157-169 | add_section_flag adds the flag to a present section and raises ValueError for an unknown one |
| PropertyEditor.RemoveSectionFlag | editor/property_editor.py:171-187 | remove_section_flag removes exactly the flag; an unknown section or a flag that is not set raises ValueError |
| PropertyEditor.FlagRoundTrip | editor/property_editor.py:157-187 | adding a flag that was not set and removing it restores the editor, and so does removing a set flag and adding it back |
| PropertyEditor.FirstAccepting | editor/property_editor.py:204-211 | the class chosen is the first registered one whose check accepts the data; none exactly when no class accepts |
| PropertyEditor.SetProperty | editor/property_editor.py:189-214 | set_property creates a missing section without flags, updates a present property in place, binds a new one to the first accepting class or stores nothing when none accepts, and leaves every other property and section as it was |
| PropertyEditor.SetPropertyKeepsClass | editor/property_editor.py:212-214 | setting a present property never dispatches again: its class stays while its data changes |
| PropertyEditor.AddPropertyType | editor/property_editor.py:216-223 | add_property_type appends the class to the end of the list |
| PropertyEditor.LaterTypeOnlyFillsGaps | editor/property_editor.py:204-223 | a class registered later only takes data no earlier class accepts |
| PropertyEditor.EditorGuiRegistration | editor/editor_gui.py:166-174 | the editor registers Point, Point3D, Combo, Toggle, Text, List, Set, Dict, Number in that order |
| PropertyEditor.FirstAcceptingAt | editor/property_editor.py:204-209 | the class chosen is the one at the first accepting index |
| PropertyEditor.SingleValueAcceptedBy | editor/properties.py:208-731 | for one value, the classes that accept it are the one of its own kind, and for a bool also the number class |
| PropertyEditor.SingleValueDispatch | editor/editor_gui.py:166-174 | with the editor's order, a single bool becomes a toggle, never a number, and every other single value goes to the class of its kind |
| PropertyEditor.BoolOrderMatters | editor/editor_gui.py:169-174 | with the number class registered before the toggle, a bool would be edited as a number |
| PropertyEditor.ClearProperties | editor/property_editor.py:108-115 | clear_properties empties all sections and keeps the registrations |
| PropertyEditor.AddValueChangedCallback | editor/property_editor.py:301-308 | add_value_changed_callback appends the callback |
| PropertyEditor.AddRemoveCallback | editor/property_editor.py:324-331 | add_remove_callback adds the callback to the set |
| PropertyEditor.ValueChangedCalls | editor/property_editor.py:310-322 | send_value_changed calls every callback once, in registration order, with (section, name, value) |
| PropertyEditor.AddedCallbackCalledLast | editor/property_editor.py:301-322 | a callback added last is called last, after the earlier ones |
| PropertyEditor.RemoveCalls | editor/property_editor.py:370-371 | every remove callback is called exactly once with the section's name |
| PropertyEditor.CbRemoveClicked | editor/property_editor.py:355-371 | cb_remove_clicked deletes the section and calls every remove callback once with its name; an unknown section raises KeyError with nothing changed |
| Components.ClearText | editor/components.py:228-229 | stripping a colour tag keeps a suffix of the text, and leaves an untagged text alone |
| Components.ClearTagged | editor/components.py:228-229 | each tag the dialog puts before a name is stripped exactly |
| Components.UsedBases | editor/components.py:140-143 | the used bases are exactly the non-BaseComponent bases of some project component |
| Components.UpdateLists | editor/components.py:126-175 | update_lists removes the used bases from the project, marks in use exactly the project components some entity uses, and shows every remaining project component in the current list |
| Components.CurrentListShowsProject | editor/components.py:152-162 | once its tags are cleared, the current list shows exactly the project |
| Components.ClearCurrentText | editor/components.py:156-160 | stripping the tag from an entry of the current list gives back its component name, whether it is in use or not |
| Components.AvailableListShowsRest | editor/components.py:164-173 | once its tags are cleared, the available list shows exactly the known components outside the project |
| Components.ClearAvailableText | editor/components.py:166-172 | stripping the tag from an entry of the available list gives back its component name, whether it is a used base, a dependency or plain |
| Components.Setup | editor/components.py:119-124 | after setup every mandatory component (Agent, FifeAgent, General) and every configured one is in the project unless it is a used base, and the project holds nothing else |
| Components.MoveLeftLoop | editor/components.py:199-211 | the loop never removes a mandatory or in-use name, removes every other selected name, and raises KeyError exactly when such a name is not in the project (any more) |
| Components.MoveLeft | editor/components.py:190-215 | cb_move_left_clicked never adds a component and never moves out a mandatory or in-use one |
| Components.MoveLeftFromCurrentList | editor/components.py:199-210 | moving names the current list shows, each selected once, never raises |
| Components.Joining | editor/components.py:226-237 | the names moving right are the selected texts with their tag stripped, used bases excepted |
| Components.MoveRight | editor/components.py:217-242 | cb_move_right_clicked adds the joining names and never adds a used base; nothing leaves but the bases update_lists removes |
| Components.EditAvailable | editor/components.py:259-265 | editing the available components keeps in the project only the components still known |
| Components.SetupAvailable | editor/components.py:290-326 | the available dialog's table is the known components, and in use are exactly the configured components some entity uses |
| Components.AddEnabled | editor/components.py:365-373 | Add is enabled exactly for a non-empty text that names no known component |
| Components.AddFoundDisablesAdd | editor/components.py:365-406 | once a found component class is recorded, typing its name does not enable Add |
| Components.AddFound | editor/components.py:390-406 | adding keeps every known entry, records each found class from the typed module or an undotted one under the typed path, and adds nothing else |
| Components.Delete | editor/components.py:409-421 | a component in use stays; any other is removed from the table, and a name that is not in it raises KeyError |
| Components.AddThenDelete | editor/components.py:375-421 | adding a new component and deleting it again restores the table |
| MessageBox.LinesPartitionWords | editor/messagebox.py:78-95 | the lines partition the words in order: no word is dropped, repeated or split, whatever its width |
| MessageBox.LeadingEmptyLine | editor/messagebox.py:86-88 | a text whose first line is empty starts with a line break |
| MessageBox.BreakStep | editor/messagebox.py:85-90 | when the pending line overflows, it is emitted without its last word, that word starts the next line, and every emitted line stays greedy and fitting |
| MessageBox.BreakLines | editor/messagebox.py:86-90 | emitting the pending line before the overflowing word adds it as one more line of the text, and keeps every line greedy and fitting |
| MessageBox.KeepStep | editor/messagebox.py:82-85 | a step that emits nothing keeps the loop's state while the pending line still fits |
| MessageBox.WrapStep | editor/messagebox.py:82-90 | one pass of the loop body keeps the loop's state, and the first line is cut before any word exactly when the first word alone overflows |
| MessageBox.WrapUpTo | editor/messagebox.py:78-90 | the loop `for counter in xrange(len(words) + 1)` keeps its invariant up to every counter: the emitted lines are cut at increasing positions, each was ended by an overflowing word, each line of several words fits, the text emitted is their join, and for the wrap as written the first line is empty exactly when the first word alone overflows |
| MessageBox.FirstState | editor/messagebox.py:79-81 | the loop starts with nothing emitted, at the first word |
| MessageBox.LastLine | editor/messagebox.py:91-95 | the remaining words always make the last line, preceded by a newline when lines were emitted |
| MessageBox.FirstLineResult | editor/messagebox.py:82-90 | the wrap as written cuts before the first word exactly when it is too wide alone, and the text then starts with a line break |
| MessageBox.WrapAsWritten | editor/messagebox.py:78-99 | the wrap as written: the lines partition the words, each line but the last was ended by an overflowing word, each line of several words fits, the text has lines - 1 newlines between the lines, and the height is lines x font height; an oversized first word adds an empty first line |
| MessageBox.Wrap | editor/messagebox.py:78-99 | the intended wrap: the same, with every line holding at least one word |
| Paths.Parent | editor/common.py:67 | the head of os.path.split drops the last component |
| Paths.Join | editor/common.py:69 | os.path.join appends the components |
| Paths.SplitNewPath | editor/common.py:61-69 | an existing path is returned whole with nothing new; otherwise the last component joins the new part of the parent's split; the split succeeds exactly when some prefix of the path exists, joining its two parts gives back the path, the existing part exists and no longer prefix does |
| Paths.SplitOfParent | editor/common.py:66-69 | what the parent's split gives carries over to the path with one more component |
| Paths.SplitEndsAtRoot | editor/common.py:63-68 | the recursion ends whenever the root, "/" or ".", exists |
| Paths.ExistingPartIsLongestAncestor | editor/common.py:61-69 | when existence is closed under taking parents, the existing part is the longest existing ancestor: every shorter prefix exists and no longer one does |

## Left out

- Widgets: all CEGUI construction, layout, styling and event wiring are left out. A window is modelled by the data the toolbar keeps on it (alpha, user data, image, tooltip), and a list widget by the set of its item texts.
- Textures and images: the foreign texture and image creation in `update_images` (`createTexture`, `ImageManager.create`, `setArea`) is left out, and so is the loading of images that are not atlas frames. Only atlas frame names and rectangles are modelled.
- Parsing files: the XML library and `parse_file`'s syntax-error recovery are outside the model. Parsers take an element tree. Files an animation refers to are a map, and what `parse_file` yields per object file is an input.
- Paths: path joining and `abspath` are kept symbolic. `normpath` itself is not modelled: paths are already normalised component sequences, and leading "//" is ignored. `os.path.join(".", x)` gives "./x" in Python, so reconstruction is stated on components.
- Paths.SplitNewPath: a path none of whose prefixes exist, the root and "." included, raises RecursionError here. Python 2 raises RuntimeError for maximum recursion depth.
- ObjectParser.ParseAnimation: `fuel` bounds the chain of animation files. Running out raises RecursionError, which stands for Python's recursion limit.
- MessageBox.Wrap: text width is a function parameter, and so it is for MessageBox.WrapAsWritten. Only `width("") <= maxWidth` is assumed: a font measures the empty text as 0 pixels, and the maximum is a non-negative width. The wrap is modelled on the words, so `setText`/`setHeight` and the font's float sizes are left out.
- Floats: float arithmetic is modelled on exact reals, so rounding is left out. Outside the atlas layout as written, coordinates are integers and alphas are the two constants.
- AtlasLayout.AtlasFrames: lays frames out with the corrected whole-pixel floor division of the Findings table, not the float division the source performs (AtlasLayout.AtlasFramesAsWritten). A texture narrower than one frame therefore raises ZeroDivisionError at its first frame, where the source lays out fractional positions.
- AtlasLayout.ReadCounts: its zero-per_line error follows the corrected layout when AtlasFrames calls it, and the float layout when AtlasLayout.AtlasFramesAsWritten does.
- AtlasLayout.Layout: the grid of the corrected layout, as are AtlasLayout.DirectionFrames and AtlasLayout.LaidOutAppend.
- AtlasLayout.FrameInsideTexture: holds for the corrected layout only, as does AtlasLayout.FramesDoNotOverlap; AtlasLayout.AsWrittenFramesOverlap shows both fail as written.
- AtlasLayout.TwoDirectionExample: is an instance of the corrected layout; AtlasLayout.TwoDirectionAsWritten is the same instance as written.
- AtlasLayout.PyDiv: integer division, used by the corrected layout only, like AtlasLayout.PyMod.
- AtlasLayout.FloatMod: Python's float `%` is written out exactly (`a` less `b` times the floor of `a / b`), but its range (between zero and the divisor) is not stated: the nonlinear real arithmetic behind it does not verify reliably, and the counterexamples only need concrete values.
- ObjectToolbar.ScanAction: registers the frames of the corrected layout, and so do ObjectToolbar.ScanActions and ObjectToolbar.Scan; texture widths are whole pixels there.
- Xml.ParseInt: integers are unbounded. Python 2 hands a numeral too large for a C long to its long parser; whether that parser also accepts white space after the sign is not modelled separately.
- Undo.UndoAction: an action's `undo()` is taken never to raise, and so is its `redo()` for Undo.RedoAction. In the source the action is popped before it runs, so an IndexError raised inside it is reported as UndoError("Nothing to undo") or UndoError("Nothing to redo"), and any other exception propagates; either way the popped action is lost.
- Undo.UndoAction: requires `max_undo >= 1`, as do Undo.RedoAction and Undo.AddAction. With 0, `add_action` deletes from an empty list and `undo_action` reports "Nothing to undo" after undoing.
- UndoEditor.Redo: `Editor.create_instance` and `delete_instance` are not part of this model. They are taken to create an instance with the given layer, object, coordinates and identifier, and to delete the given one. A `None` identifier is the empty string, and deleting an absent instance is a no-op. `InstanceVisual.create` is left out.
- ObjectToolbar.UpdateImages: when the rescan raises, the catalogue is left empty rather than partly filled.
- ObjectToolbar.ScanActions: when a count of an atlas action fails, the frames of that action's earlier directions are not registered. The source defines them direction by direction, before it reads the failing count.
- ObjectToolbar.ScanObject: the atlas rectangles of a static object are not modelled; its static branch always succeeds and registers nothing. The source defines, for each atlas direction whose image is not yet defined, an image at float(xpos), float(ypos) with size float(width) by float(height). A missing attribute there raises KeyError and a non-number ValueError.
- ObjectToolbar.Scan: its contract states only the namespace keys, the placeholder entries and the defined images. The per-object entries are stated one level down, by ScanObject.
- Placement.CbMapClicked: the engine's `getObject(None, None)`, reached by an unusual button with no object selected, is taken to raise TypeError. Newly created instances get the empty identifier.
- Placement.CbMapMoved: the last position is compared by its layer coordinates, as the source compares them. The location object itself is not kept.
- EditorScene.MousePress: the screen-to-map conversion is left out. A call records the callback and the layer. A callback that takes the arguments passed is taken never to raise; one that does not raises TypeError.
- PropertyEditor.SetProperty: the "Could not find editor" message is not modelled, and neither is the widget refresh `add_section` may request.
- PropertyEditor.SetProperty: dispatches with the corrected combo check of the Findings table, as does PropertyEditor.FirstAccepting. With the check as written, a combo pair such as `[["a", "b"], "a"]` is refused by the combo class, so `set_property` binds it to a later accepting class or stores nothing, where the model binds it to the combo class.
- PropertyEditor.CbRemoveClicked: destroying the section's header and area widgets is left out.
- Components.UpdateLists: a component's class data (dependencies, bases) and which components entities use are parts of the world, given as inputs.
- Components.AddFound: `import_module` is left out; the component classes it finds are a parameter.
- Components.ClearText: `clear_text` is imported from editor/common.py, but the file does not define it. It is modelled as the colour-tag strip of components.py:228-229.
- `ToolbarPage.update_contents` is not part of this model; `UpdateContents` models the toolbar's own part only.
- Everything the editor does outside the named files is left out: the option dialogs, the list, set and dict editors, the file browser, project settings, the application shells and `editor/editor.py`.
- Reference counting and the changed-map bookkeeping of the application shells are left out.
- Python values are tagged. Points are not iterable here, because the helper classes that define them are not part of this model.

## Findings

| source | as written | input that shows it | evidently intended | confidence | as-written member | corrected member |
|---|---|---|---|---|---|---|
| editor/object_toolbar.py:382-433 | `tex_size.d_width` is a float (CEGUI's `Sizef`), so `frames_p_line` (386) is fractional, `frame_count / frames_p_line` (427) divides truly and `%` (428) is float modulo | a 256-pixel atlas of 64x64 frames: frame 1 at (64, 16) and frame 3 at (192, 48); a 100-pixel atlas of 30x30 frames: frame 3 reaches x = 120, past the texture, and frames 1 and 4 overlap | frames on the grid of whole frames: per_line the floor of width over frame width, row k // per_line, column k % per_line | not executed | AtlasLayout.AtlasFramesAsWritten, AtlasLayout.AsWrittenFramesOverlap | AtlasLayout.AtlasFrames, AtlasLayout.FramesDoNotOverlap |
| editor/object_toolbar.py:519-525 | a stale window is deleted as `self.images[image_id]`, though windows are keyed `"namespace.id"`, and the dictionary is changed while it is iterated | a window "ns.a" whose object "a" left namespace "ns": the rescan raises KeyError("a") and the window stays | delete `self.images[".".join([namespace, image_id])]`, outside the iteration | not executed | ObjectToolbar.StaleWindowBreaksRescan | ObjectToolbar.ReconciledKeys |
| editor/object_toolbar.py:541-547 | `deactivate` indexes `images[namespace][name]`, but `images` is keyed by `"namespace.id"` and holds windows | any selection: KeyError (or TypeError), and the page stays active and selected | reset `images[".".join(selected_object)]` to the default alpha | not executed | ObjectToolbar.DeactivateAsWritten | ObjectToolbar.DeactivateClearsHighlight |
| editor/editor_scene.py:66 | `func(scr_point)` passes the map point alone, while the press callbacks take the point and the button (`cb_map_clicked` in editor/object_toolbar.py:569 and editor/basic_toolbar.py:59) | a listener holding only the object toolbar's press registration, a layer selected, a left press: TypeError before the click is handled. In the assembled editor the basic toolbar registers its callback first without a factory (editor/basic_toolbar.py:38), so every left press raises RuntimeError before it gets there | pass the button too, so the press completes | not executed | EditorScene.PressAsWrittenRejectsTwoArguments | EditorScene.PressWithButtonReachesAll |
| editor/object_toolbar.py:534-539 | `activate` registers "mouse_dragged" and "mouse_moved", which `EditorListener` does not know (editor/editor_scene.py:33) | activating the page on the editor's listener: RuntimeError after the press callback is registered | a listener that knows the three types, so activation completes | not executed | Placement.ActivateOnEditorListener | Placement.ActivateOnMotionListener |
| editor/object_toolbar.py:316-318 | `image_clicked` indexes `self.images[identifier]` before it tests membership | a click on a window whose name is not in the table: KeyError instead of returning | test membership before indexing | not executed | ObjectToolbar.ImageClickedAsWritten | ObjectToolbar.ClickKeepsHighlightOnSelection |
| editor/properties.py:141-143 | `ComboProperty.check_type` iterates the second value and compares with the class of the first, but the widget takes the first as the possible values and the second as the current one (149-150) | ([ "a", "b" ], "a") is rejected; ("a", [ "a", "b" ]) is accepted | iterate the first value and compare with the class of the second | not executed | Properties.ComboCheckAsWritten, Properties.ComboCheckReadsPairBackwards | Properties.CheckType |
| editor/messagebox.py:82-90 | when the first word alone is wider than the limit, the loop emits the empty words[0:0] as a line | a message whose first word is too wide: the text starts with a line break and counts one line more than it shows | emit a line only when it holds a word | not executed | MessageBox.WrapAsWritten | MessageBox.Wrap |

# Annotation toolbar button of the document viewer

This project models the state machine behind the annotation button in the
toolbar of the document viewer (`shell/ev-annotation-action.c`). The button
has two parts. The primary part is a toggle button that arms the current
annotation tool. The secondary part is a menu that picks the tool: a note,
a highlight in one of four colours, the generic "highlight" entry that
stands for the colour used last, underline, strike-out or squiggly.

The control keeps two private fields. `last_used_highlight_color` holds the
last concrete highlight colour. `active_annot_type` holds the armed tool.
It also has the pressed flag of its toggle button, and it emits three
signals to the host window: `activated`, `cancel-add-annot` and
`begin-add-annot(type, markup, colour)`.

The model is split into three modules:

- `AnnotationTypes` (annotation_types.dfy) holds the enumerations and the
  fixed table from a tool to the (annotation type, markup subtype, colour)
  triple that `begin-add-annot` carries. It also holds the icon name for
  each tool and an inverse of the table. Lemmas prove that inverse is a
  round trip for every tool except the alias.
- `ToolbarSpec` (toolbar_spec.dfy) treats the control as a value `Toolbar`:
  the two fields, the pressed flag, the icon and the log of every emitted
  signal. Each operation is a function from the old value to the new one
  (`Select`, `Toggled`, `UserToggle`, `AddAnnotFinished`). `Run` applies a
  sequence of operations. The lemmas state the invariant every run keeps,
  the exact signals each operation emits and two concrete scenarios.
- `AnnotationAction` (annotation_action.dfy) holds a class with the same
  fields, updated in place by methods that follow the C functions one by
  one. The handler connected to the button's `toggled` signal is a method.
  The toolkit's set-active call is a method that runs that handler only
  when the flag changes and no block is in force. Handler blocking is a
  block counter, as in the toolkit. The postconditions of the constructor,
  `AnnotButtonToggled`, `SetButtonActive`, `UserToggle`, `SelectAnnotation`
  and `AddAnnotFinished` tie the object's `Snapshot()` to a `ToolbarSpec`
  function, so the lemmas about `ToolbarSpec` apply to the object. The
  helpers `SwitchAnnotSettings`, `ToggleButtonIfInactive` and
  `ToggleButtonIfActive` state their effect on the fields directly.

The invariant (`ToolbarSpec.Inv`) has four parts:

- the remembered colour is always one of the four concrete highlight colours;
- the generic alias is never the active tool;
- when the active tool is a concrete highlight colour, it is the remembered colour;
- the signal log is made of whole blocks: `activated, cancel-add-annot,
  begin-add-annot` for a selection, or a lone `begin-add-annot` for a user
  press.

The third part is stronger than the first two. It shows that the call to
`switch_annot_settings` inside the toggled handler never changes the
remembered colour. Only `select_annotation` changes it.

`switch_annot_settings` assigns `last_used_highlight_color` whenever the
active type is a concrete colour (`shell/ev-annotation-action.c:87-109`),
including when it runs from the toggled handler. Under the invariant, that
assignment writes back the value the field already holds.

The `Highlight` case of `switch_annot_settings` hard-codes yellow and does
not read the remembered colour (`shell/ev-annotation-action.c:82-86`).
Because the alias is never active, that case is never reached.
`AliasSharesYellowSettings` records what it would produce.

## Model

| member | source | states |
|---|---|---|
| AnnotationTypes.SettingsFor | shell/ev-annotation-action.c:75-128 | The table is total. Only Note gives a Text annotation, and it is a yellow one with no markup. The highlight subtype is given exactly for the highlight family. The colour is none exactly for underline, strike-out and squiggly. Every text-markup result has a real markup subtype. |
| AnnotationTypes.SettingsDetermineAction | shell/ev-annotation-action.c:75-128 | Round trip: for every tool except the alias, decoding its settings gives that tool back, so the table is injective on real tools. |
| AnnotationTypes.ActionForSound | shell/ev-annotation-action.c:75-128 | Converse: settings that decode to a tool are exactly that tool's settings, and they never decode to the alias. |
| AnnotationTypes.AliasSharesYellowSettings | shell/ev-annotation-action.c:82-92 | The alias's table entry equals HighlightYellow's (TextMarkup, Highlight, Yellow). |
| AnnotationTypes.RememberedHighlight | shell/ev-annotation-action.c:87-109 | The field update of switch_annot_settings. A concrete highlight colour becomes the remembered colour, and any other type leaves it as it was. The result stays concrete if the old colour was concrete. |
| AnnotationTypes.IconName | shell/ev-annotation-action.c:168-193 | The icon is marker-symbolic exactly for the highlight family, which is keyed on the requested type. Every icon name ends in -symbolic. |
| AnnotationTypes.IconNameDistinguishes | shell/ev-annotation-action.c:168-193 | Outside the highlight family, distinct tools show distinct icons. |
| ToolbarSpec.Initial | shell/ev-annotation-action.c:340-341 | The construction state: both fields HighlightYellow, the new toggle button released, the marker icon and no signals. It satisfies the invariant. |
| ToolbarSpec.Resolve | shell/ev-annotation-action.c:161-166 | The type that select_annotation makes active: the argument itself, or the remembered colour for the alias. When the remembered colour is concrete, the result is never the alias, and it is a concrete colour exactly when the argument is in the highlight family. |
| ToolbarSpec.Select | shell/ev-annotation-action.c:148-215 | select_annotation as a function of the old state. The button ends pressed and shows the requested type's icon. The old log is kept and grows by three signals, a cancel followed by a begin. A concrete remembered colour stays concrete, and the alias never becomes active. |
| ToolbarSpec.Toggled | shell/ev-annotation-action.c:131-146 | The toggled handler as a function. On a release it changes nothing. On a press it appends exactly one begin-add-annot with the active type's settings. The active type, flag and icon never change. |
| ToolbarSpec.UserToggle | shell/ev-annotation-action.c:316-318 | A user click, which flips the button and runs the connected handler. The flag is flipped and the old log is kept, growing by one signal exactly when the button becomes pressed. |
| ToolbarSpec.AddAnnotFinished | shell/ev-annotation-action.c:395-408 | add_annot_finished as a function: the button is released, and the log, both fields and the icon stay unchanged. |
| ToolbarSpec.Inv | shell/ev-annotation-action.c:161-166 | The invariant every public operation keeps: the remembered colour is concrete, the alias is never active, an active concrete colour is the remembered one, and the log is made of whole blocks. Under it, the armed settings decode to the armed type, and resolving them leaves the remembered colour unchanged. |
| ToolbarSpec.BlockLogAppend | shell/ev-annotation-action.c:200-214 | Appending whole signal blocks to a log of whole blocks gives a log of whole blocks. |
| ToolbarSpec.BlockLogCancelAt | shell/ev-annotation-action.c:200-214 | In a log of whole blocks, every cancel-add-annot comes right after an activated and right before a begin-add-annot. |
| ToolbarSpec.BlockLogEndsWithBegin | shell/ev-annotation-action.c:200-214 | A non-empty log of whole blocks ends with begin-add-annot, so a cancel is always followed by a begin. |
| ToolbarSpec.SelectInv | shell/ev-annotation-action.c:161-214 | select_annotation keeps the invariant for every argument, the alias included. |
| ToolbarSpec.ToggledInv | shell/ev-annotation-action.c:139-145 | The toggled handler keeps the invariant. |
| ToolbarSpec.StepInv | shell/ev-annotation-action.c:131-215 | Each of the control's inputs (select, user click, add_annot_finished) keeps the invariant. |
| ToolbarSpec.RunInv | shell/ev-annotation-action.c:131-215 | Every sequence of inputs keeps the invariant (proved by induction on the sequence). |
| ToolbarSpec.ReachableInv | shell/ev-annotation-action.c:200-214 | Every state reachable from construction satisfies the invariant. In its log, each cancel-add-annot sits between an activated and a begin-add-annot. |
| ToolbarSpec.SelectRemembersColour | shell/ev-annotation-action.c:161-166 | Selecting a concrete colour remembers it. Any other selection, the alias included, leaves the remembered colour unchanged. The new active type is the remembered colour for the alias and the argument otherwise. The button ends up pressed. |
| ToolbarSpec.SelectSignals | shell/ev-annotation-action.c:200-214 | Selection keeps the old log and appends exactly activated, cancel-add-annot and begin-add-annot. The begin carries the settings of the new active type, and those settings decode to that real tool. |
| ToolbarSpec.BlueThenAliasIsCyan | shell/ev-annotation-action.c:93-98 | Selecting HighlightBlue and then the alias begins a cyan highlight, not the default yellow one. |
| ToolbarSpec.AliasUsesRememberedColour | shell/ev-annotation-action.c:161-163 | Selecting the alias begins an annotation with the remembered colour's settings and keeps that colour. |
| ToolbarSpec.HandlerKeepsRememberedColour | shell/ev-annotation-action.c:87-109 | Under the invariant, resolving the active type's settings never changes the remembered colour. |
| ToolbarSpec.UserToggleSignals | shell/ev-annotation-action.c:139-145 | A user press appends exactly one begin-add-annot with the active type's settings, with no cancel, and changes neither field. A user release only clears the pressed flag. |
| ToolbarSpec.AddAnnotFinishedIdempotent | shell/ev-annotation-action.c:395-408 | add_annot_finished leaves the button released, emits nothing and changes neither field. Applying it twice equals applying it once. On a released button it is a no-op. |
| AnnotationAction.AnnotationAction.constructor | shell/ev-annotation-action.c:340-341 | The new control is valid and equals the initial state: both fields HighlightYellow, button released, marker icon, no signals. |
| AnnotationAction.AnnotationAction.SwitchAnnotSettings | shell/ev-annotation-action.c:68-129 | Returns the table's settings for the active type. Only a concrete highlight colour overwrites the remembered colour, and nothing else changes. |
| AnnotationAction.AnnotationAction.AnnotButtonToggled | shell/ev-annotation-action.c:131-146 | The object moves as the handler function Toggled does: nothing on a release, one begin-add-annot on a press. |
| AnnotationAction.AnnotationAction.SetButtonActive | shell/ev-annotation-action.c:369 | Sets the pressed flag. The handler runs only if the flag changed and no block is in force. |
| AnnotationAction.AnnotationAction.ToggleButtonIfInactive | shell/ev-annotation-action.c:359-375 | Returns whether the button was released. Afterwards it is pressed, with no signal, no field change, and the block count restored. |
| AnnotationAction.AnnotationAction.ToggleButtonIfActive | shell/ev-annotation-action.c:377-393 | Returns whether the button was pressed. Afterwards it is released, with no signal, no field change, and the block count restored. |
| AnnotationAction.AnnotationAction.UserToggle | shell/ev-annotation-action.c:316-318 | A user click flips the button and runs the connected handler. The object stays valid and moves as UserToggle does. |
| AnnotationAction.AnnotationAction.SelectAnnotation | shell/ev-annotation-action.c:148-215 | The object stays valid and moves as Select does. The active type is resolved through the alias, the button ends pressed, and the log grows by exactly activated, cancel-add-annot, begin-add-annot(settings of the new active type). |
| AnnotationAction.AnnotationAction.AddAnnotFinished | shell/ev-annotation-action.c:395-408 | The object stays valid and the button ends released. No signal is emitted and both fields stay unchanged. |

## Left out

- The widget construction (`shell/ev-annotation-action.c:284-350`) is left out apart from the state it sets up. That includes the box layout, style classes, the menu model loaded from a resource bundle and the popover placement, all of which is toolkit glue.
- Registering custom icons from SVG files into the icon theme (`ev_custom_icon_to_builtin_theme`) is left out. It is file I/O through image libraries.
- Setting the button image and tooltip is reduced to the icon name stored on the control. The tooltip texts are left out, because they go through message translation.
- Signal registration and marshalling, `finalize` and the preferred-width override are left out. They are type-system and layout plumbing.
- The `g_return_if_fail` type checks are left out. In Dafny the receiver is always a non-null object of the right class.
- Listeners of the signals are left out. Emitting a signal is modelled as appending it to the `events` log. A listener that re-enters the control during emission is not modelled.
- The `default: g_assert_not_reached()` branch of `switch_annot_settings` has no counterpart. The action type is a closed datatype, so the match is total.
- `libdocument/ev-document-find.h` is left out. It is an abstract interface declaration with no implementation, so it has no behaviour to prove.
- `libdocument/ev-document-misc.h` is left out. It declares rendering, floating-point DPI and date-formatting helpers without bodies.

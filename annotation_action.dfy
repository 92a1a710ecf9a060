/** The annotation toolbar control as an object whose methods update its
    fields in place, following shell/ev-annotation-action.c: the two private
    fields, the primary toggle button's active flag, the number of times the
    toggled handler is currently blocked, the button's icon, and the signals
    emitted so far. The constructor, the toggled handler, set-active, the user
    click, select_annotation and add_annot_finished are proved to move the
    object exactly as the corresponding function of ToolbarSpec moves a
    Toolbar value; switch_annot_settings and the two toggle helpers state their
    effect on the fields directly. */
module AnnotationAction {
  import opened AnnotationTypes
  import opened ToolbarSpec

  class AnnotationAction {
    var lastUsedHighlightColor: ActionType
    var activeAnnotType: ActionType
    var buttonActive: bool
    /** How many blocks of the toggled handler are in force; the handler runs
        on a toggle only when this is zero. */
    var handlerBlocks: nat
    var iconName: string
    var events: seq<Event>

    /** The abstract value of the control. */
    function Snapshot(): Toolbar
      reads this
    {
      Toolbar(lastUsedHighlightColor, activeAnnotType, buttonActive, iconName, events)
    }

    /** Between operations the invariant holds and the handler is unblocked. */
    ghost predicate Valid()
      reads this
    {
      Inv(Snapshot()) && handlerBlocks == 0
    }

    /** Widget construction, reduced to the state it sets up. */
    constructor ()
      ensures Valid()
      ensures Snapshot() == Initial()
    {
      lastUsedHighlightColor := HighlightYellow;
      activeAnnotType := HighlightYellow;
      buttonActive := false;
      handlerBlocks := 0;
      iconName := "marker-symbolic";
      events := [];
    }

    /** switch_annot_settings: the settings of the active type; resolving a
        concrete highlight colour also records it as the last used one. */
    method SwitchAnnotSettings() returns (settings: Settings)
      modifies this`lastUsedHighlightColor
      ensures settings == SettingsFor(activeAnnotType)
      ensures lastUsedHighlightColor == RememberedHighlight(activeAnnotType, old(lastUsedHighlightColor))
    {
      match activeAnnotType {
        case Note =>
          settings := Settings(Text, MarkupNone, Yellow);
        case Highlight =>
          settings := Settings(TextMarkup, MarkupHighlight, Yellow);
        case HighlightYellow =>
          settings := Settings(TextMarkup, MarkupHighlight, Yellow);
          lastUsedHighlightColor := HighlightYellow;
        case HighlightBlue =>
          settings := Settings(TextMarkup, MarkupHighlight, Cyan);
          lastUsedHighlightColor := HighlightBlue;
        case HighlightPink =>
          settings := Settings(TextMarkup, MarkupHighlight, Magenta);
          lastUsedHighlightColor := HighlightPink;
        case HighlightGreen =>
          settings := Settings(TextMarkup, MarkupHighlight, Green);
          lastUsedHighlightColor := HighlightGreen;
        case Underline =>
          settings := Settings(TextMarkup, MarkupUnderline, ColorNone);
        case StrikeOut =>
          settings := Settings(TextMarkup, MarkupStrikeOut, ColorNone);
        case Squiggly =>
          settings := Settings(TextMarkup, MarkupSquiggly, ColorNone);
      }
    }

    /** annot_button_toggled: the handler connected to the button's toggled
        signal. */
    method AnnotButtonToggled()
      modifies this`lastUsedHighlightColor, this`events
      ensures Snapshot() == Toggled(old(Snapshot()))
    {
      if !buttonActive {
        return;
      }
      var settings := SwitchAnnotSettings();
      events := events + [BeginAddAnnot(settings)];
    }

    /** The toolkit's set-active on the toggle button: a change of the flag
        emits toggled, which reaches the handler unless it is blocked; setting
        the flag it already has does nothing. */
    method SetButtonActive(value: bool)
      modifies this`buttonActive, this`lastUsedHighlightColor, this`events
      ensures Snapshot() == if old(buttonActive) != value && handlerBlocks == 0
                            then Toggled(old(Snapshot()).(pressed := value))
                            else old(Snapshot()).(pressed := value)
    {
      if buttonActive != value {
        buttonActive := value;
        if handlerBlocks == 0 {
          AnnotButtonToggled();
        }
      }
    }

    /** toggle_button_if_inactive: press the button with the handler blocked;
        reports whether it was released before. */
    method ToggleButtonIfInactive() returns (changed: bool)
      modifies this`buttonActive, this`handlerBlocks, this`lastUsedHighlightColor, this`events
      ensures changed == !old(buttonActive)
      ensures Snapshot() == old(Snapshot()).(pressed := true)
      ensures handlerBlocks == old(handlerBlocks)
    {
      if buttonActive {
        return false;
      }
      handlerBlocks := handlerBlocks + 1;
      SetButtonActive(true);
      handlerBlocks := handlerBlocks - 1;
      return true;
    }

    /** toggle_button_if_active: release the button with the handler blocked;
        reports whether it was pressed before. */
    method ToggleButtonIfActive() returns (changed: bool)
      modifies this`buttonActive, this`handlerBlocks, this`lastUsedHighlightColor, this`events
      ensures changed == old(buttonActive)
      ensures Snapshot() == old(Snapshot()).(pressed := false)
      ensures handlerBlocks == old(handlerBlocks)
    {
      if !buttonActive {
        return false;
      }
      handlerBlocks := handlerBlocks + 1;
      SetButtonActive(false);
      handlerBlocks := handlerBlocks - 1;
      return true;
    }

    /** A click on the primary button by the user. */
    method UserToggle()
      requires Valid()
      modifies this
      ensures Valid()
      ensures Snapshot() == ToolbarSpec.UserToggle(old(Snapshot()))
    {
      ghost var flipped := Snapshot().(pressed := !buttonActive);
      SetButtonActive(!buttonActive);
      ToggledInv(flipped);
    }

    /** select_annotation. */
    method SelectAnnotation(annotType: ActionType)
      requires Valid()
      modifies this
      ensures Valid()
      ensures Snapshot() == Select(old(Snapshot()), annotType)
      ensures activeAnnotType == (if annotType.Highlight? then old(lastUsedHighlightColor) else annotType)
      ensures buttonActive
      ensures events == old(events) + [Activated, CancelAddAnnot, BeginAddAnnot(SettingsFor(activeAnnotType))]
    {
      if annotType == Highlight {
        activeAnnotType := lastUsedHighlightColor;
      } else {
        activeAnnotType := annotType;
      }
      iconName := IconName(annotType);
      events := events + [Activated];
      var settings := SwitchAnnotSettings();
      events := events + [CancelAddAnnot];
      var _ := ToggleButtonIfInactive();
      events := events + [BeginAddAnnot(settings)];
      assert events == old(events) + [Activated, CancelAddAnnot, BeginAddAnnot(settings)];
      SelectInv(old(Snapshot()), annotType);
    }

    /** add_annot_finished: release the button if it is pressed, without
        running the handler. The second call of the release helper is reached
        only when the button was already released and does nothing. */
    method AddAnnotFinished()
      requires Valid()
      modifies this
      ensures Valid()
      ensures Snapshot() == ToolbarSpec.AddAnnotFinished(old(Snapshot()))
      ensures !buttonActive && events == old(events)
      ensures lastUsedHighlightColor == old(lastUsedHighlightColor)
      ensures activeAnnotType == old(activeAnnotType)
    {
      var released := ToggleButtonIfActive();
      if released {
        return;
      }
      released := ToggleButtonIfActive();
    }
  }

  /** Scenario: on a fresh control, choosing the blue highlight
      and then the generic highlight ends with a cyan highlight being begun, and
      finishing the annotation afterwards releases the button and emits
      nothing. */
  method BlueThenAliasScenario()
  {
    var action := new AnnotationAction();
    action.SelectAnnotation(HighlightBlue);
    action.SelectAnnotation(Highlight);
    assert action.events[|action.events| - 1] == BeginAddAnnot(Settings(TextMarkup, MarkupHighlight, Cyan));
    assert action.events == [Activated, CancelAddAnnot, BeginAddAnnot(Settings(TextMarkup, MarkupHighlight, Cyan)),
                             Activated, CancelAddAnnot, BeginAddAnnot(Settings(TextMarkup, MarkupHighlight, Cyan))];
    action.AddAnnotFinished();
    assert !action.buttonActive && |action.events| == 6;
    action.AddAnnotFinished();
    assert |action.events| == 6;
  }
}

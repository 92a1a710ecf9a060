/** The annotation toolbar button as a value: its two private fields, the
    pressed flag of the primary toggle button, the icon on that button and the
    log of signals emitted so far. Each operation is a function from the old
    value to the new one; the class in module AnnotationAction is proved to
    follow these functions. */
module ToolbarSpec {
  import opened AnnotationTypes

  /** The signals the control emits, in the order it emits them. */
  datatype Event =
    | Activated
    | CancelAddAnnot
    | BeginAddAnnot(settings: Settings)

  datatype Toolbar = Toolbar(
    lastUsed: ActionType,   // last_used_highlight_color
    active: ActionType,     // active_annot_type
    pressed: bool,          // the primary toggle button is active
    icon: string,           // icon name shown on the primary button
    events: seq<Event>)     // every signal emitted so far

  /** The state right after construction: both fields set to the yellow
      highlight, the new toggle button released and showing the marker icon,
      nothing emitted. */
  function Initial(): (r: Toolbar)
    ensures Inv(r) && !r.pressed && r.events == []
    ensures r.active == r.lastUsed
  {
    Toolbar(HighlightYellow, HighlightYellow, false, "marker-symbolic", [])
  }

  /** The action that becomes active when `t` is selected: the alias stands
      for the remembered colour. */
  function Resolve(t: ActionType, lastUsed: ActionType): (r: ActionType)
    ensures !t.Highlight? ==> r == t
    ensures IsConcreteHighlight(lastUsed) ==> !r.Highlight? && (IsHighlightFamily(t) <==> IsConcreteHighlight(r))
  {
    if t.Highlight? then lastUsed else t
  }

  /** select_annotation: make `t` active (through the alias if need be), show
      its icon, emit activated, resolve the settings, emit cancel-add-annot,
      press the button without running the toggled handler, and emit
      begin-add-annot with the resolved settings. */
  function Select(s: Toolbar, t: ActionType): (r: Toolbar)
    ensures r.pressed && r.icon == IconName(t)
    ensures |r.events| == |s.events| + 3 && r.events[..|s.events|] == s.events
    ensures r.events[|s.events| + 1] == CancelAddAnnot && r.events[|s.events| + 2].BeginAddAnnot?
    ensures IsConcreteHighlight(s.lastUsed) ==> IsConcreteHighlight(r.lastUsed) && !r.active.Highlight?
  {
    var a := Resolve(t, s.lastUsed);
    Toolbar(RememberedHighlight(a, s.lastUsed), a, true, IconName(t),
            s.events + [Activated, CancelAddAnnot, BeginAddAnnot(SettingsFor(a))])
  }

  /** The toggled handler, run after the button's flag already changed:
      nothing on a release; on a press, resolve the settings of the active
      type and emit begin-add-annot. */
  function Toggled(s: Toolbar): (r: Toolbar)
    ensures r.active == s.active && r.pressed == s.pressed && r.icon == s.icon
    ensures !s.pressed ==> r == s
    ensures s.pressed ==> |r.events| == |s.events| + 1 && r.events[..|s.events|] == s.events
                          && r.events[|s.events|] == BeginAddAnnot(SettingsFor(s.active))
  {
    if !s.pressed then s
    else s.(lastUsed := RememberedHighlight(s.active, s.lastUsed),
            events := s.events + [BeginAddAnnot(SettingsFor(s.active))])
  }

  /** A click on the primary button flips it and runs the (unblocked)
      toggled handler. */
  function UserToggle(s: Toolbar): (r: Toolbar)
    ensures r.pressed == !s.pressed && r.active == s.active && r.icon == s.icon
    ensures |r.events| == |s.events| + (if r.pressed then 1 else 0)
    ensures r.events[..|s.events|] == s.events
  {
    Toggled(s.(pressed := !s.pressed))
  }

  /** add_annot_finished: release the button without running the handler. */
  function AddAnnotFinished(s: Toolbar): (r: Toolbar)
    ensures !r.pressed && r.events == s.events
    ensures r.lastUsed == s.lastUsed && r.active == s.active && r.icon == s.icon
  {
    s.(pressed := false)
  }

  /** The inputs the control reacts to. */
  datatype Op = SelectOp(t: ActionType) | UserToggleOp | FinishedOp

  function Step(s: Toolbar, op: Op): Toolbar
  {
    match op
    case SelectOp(t) => Select(s, t)
    case UserToggleOp => UserToggle(s)
    case FinishedOp => AddAnnotFinished(s)
  }

  function Run(s: Toolbar, ops: seq<Op>): Toolbar
    decreases |ops|
  {
    if ops == [] then s else Run(Step(s, ops[0]), ops[1..])
  }

  /** A signal log made of whole blocks: the three signals of a selection
      (activated, cancel-add-annot, begin-add-annot) or the single
      begin-add-annot of a user press. */
  predicate IsBlockLog(e: seq<Event>)
    decreases |e|
  {
    if e == [] then true
    else if e[0].BeginAddAnnot? then IsBlockLog(e[1..])
    else |e| >= 3 && e[0].Activated? && e[1].CancelAddAnnot? && e[2].BeginAddAnnot?
         && IsBlockLog(e[3..])
  }

  /** The invariant of the control between operations. Under it, the armed
      settings identify the armed action, and resolving them leaves the
      remembered colour as it is. */
  predicate Inv(s: Toolbar)
    ensures Inv(s) ==> ActionFor(SettingsFor(s.active)) == Some(s.active)
    ensures Inv(s) ==> RememberedHighlight(s.active, s.lastUsed) == s.lastUsed
  {
    && IsConcreteHighlight(s.lastUsed)
    && !s.active.Highlight?
    && (IsConcreteHighlight(s.active) ==> s.lastUsed == s.active)
    && IsBlockLog(s.events)
  }

  /** Appending whole blocks to a log of whole blocks gives a log of whole
      blocks. */
  lemma {:induction false} BlockLogAppend(a: seq<Event>, b: seq<Event>)
    requires IsBlockLog(a) && IsBlockLog(b)
    ensures IsBlockLog(a + b)
    decreases |a|
  {
    if a == [] {
      assert a + b == b;
    } else if a[0].BeginAddAnnot? {
      assert (a + b)[1..] == a[1..] + b;
      BlockLogAppend(a[1..], b);
    } else {
      assert (a + b)[3..] == a[3..] + b;
      BlockLogAppend(a[3..], b);
    }
  }

  /** In a log of whole blocks every cancel-add-annot comes right after an
      activated and right before a begin-add-annot. */
  lemma {:induction false} BlockLogCancelAt(e: seq<Event>, i: nat)
    requires IsBlockLog(e) && i < |e| && e[i].CancelAddAnnot?
    ensures 0 < i && i + 1 < |e| && e[i - 1].Activated? && e[i + 1].BeginAddAnnot?
    decreases |e|
  {
    if e[0].BeginAddAnnot? {
      BlockLogCancelAt(e[1..], i - 1);
    } else if i >= 3 {
      BlockLogCancelAt(e[3..], i - 3);
    }
  }

  /** A non-empty log of whole blocks ends with begin-add-annot: the host is
      never left with a cancel that no begin follows. */
  lemma {:induction false} BlockLogEndsWithBegin(e: seq<Event>)
    requires IsBlockLog(e) && e != []
    ensures e[|e| - 1].BeginAddAnnot?
    decreases |e|
  {
    if e[0].BeginAddAnnot? {
      if |e| > 1 {
        BlockLogEndsWithBegin(e[1..]);
      }
    } else if |e| > 3 {
      BlockLogEndsWithBegin(e[3..]);
    }
  }

  /** Selecting any action keeps the invariant. */
  lemma SelectInv(s: Toolbar, t: ActionType)
    requires Inv(s)
    ensures Inv(Select(s, t))
  {
    var e := [Activated, CancelAddAnnot, BeginAddAnnot(SettingsFor(Resolve(t, s.lastUsed)))];
    assert IsBlockLog(e[3..]);
    BlockLogAppend(s.events, e);
  }

  /** The toggled handler keeps the invariant. */
  lemma ToggledInv(s: Toolbar)
    requires Inv(s)
    ensures Inv(Toggled(s))
  {
    if s.pressed {
      var e := [BeginAddAnnot(SettingsFor(s.active))];
      assert IsBlockLog(e[1..]);
      BlockLogAppend(s.events, e);
    }
  }

  lemma StepInv(s: Toolbar, op: Op)
    requires Inv(s)
    ensures Inv(Step(s, op))
  {
    match op
    case SelectOp(t) => SelectInv(s, t);
    case UserToggleOp => ToggledInv(s.(pressed := !s.pressed));
    case FinishedOp =>
  }

  /** Every sequence of operations keeps the invariant: the remembered colour
      is always concrete, the alias is never active, and the log is made of
      whole blocks. */
  lemma {:induction false} RunInv(s: Toolbar, ops: seq<Op>)
    requires Inv(s)
    ensures Inv(Run(s, ops))
    decreases |ops|
  {
    if ops != [] {
      StepInv(s, ops[0]);
      RunInv(Step(s, ops[0]), ops[1..]);
    }
  }

  /** Every state the control can reach from construction satisfies the
      invariant, so in its log each cancel-add-annot sits between an activated
      and a begin-add-annot. */
  lemma ReachableInv(ops: seq<Op>, i: nat)
    ensures Inv(Run(Initial(), ops))
    ensures var e := Run(Initial(), ops).events;
            i < |e| && e[i].CancelAddAnnot? ==>
              0 < i && i + 1 < |e| && e[i - 1].Activated? && e[i + 1].BeginAddAnnot?
  {
    RunInv(Initial(), ops);
    var e := Run(Initial(), ops).events;
    if i < |e| && e[i].CancelAddAnnot? {
      BlockLogCancelAt(e, i);
    }
  }

  /** Selecting a concrete highlight colour remembers it; selecting any other
      action, the alias included, leaves the remembered colour alone.
      Selection activates the requested action, or the remembered colour for
      the alias, and presses the button. */
  lemma SelectRemembersColour(s: Toolbar, t: ActionType)
    ensures Select(s, t).lastUsed == (if IsConcreteHighlight(t) then t else s.lastUsed)
    ensures Select(s, t).active == (if t.Highlight? then s.lastUsed else t)
    ensures Select(s, t).pressed
  {
  }

  /** Selection appends exactly activated, cancel-add-annot and
      begin-add-annot, the latter with the settings of the newly active
      action; under the invariant these are never the settings chosen for the
      alias itself but those of a real action. */
  lemma SelectSignals(s: Toolbar, t: ActionType)
    requires Inv(s)
    ensures var n := |s.events|;
            var e := Select(s, t).events;
            |e| == n + 3 && e[..n] == s.events
            && e[n] == Activated && e[n + 1] == CancelAddAnnot
            && e[n + 2] == BeginAddAnnot(SettingsFor(Select(s, t).active))
            && ActionFor(e[n + 2].settings) == Some(Select(s, t).active)
  {
  }

  /** Choosing the blue highlight and then the generic alias starts a cyan
      highlight, not the default yellow one. */
  lemma BlueThenAliasIsCyan(s: Toolbar)
    ensures var e := Select(Select(s, HighlightBlue), Highlight).events;
            e[|e| - 1] == BeginAddAnnot(Settings(TextMarkup, MarkupHighlight, Cyan))
  {
  }

  /** The alias resolves to the remembered colour's settings. */
  lemma AliasUsesRememberedColour(s: Toolbar)
    requires Inv(s)
    ensures var e := Select(s, Highlight).events;
            e[|e| - 1] == BeginAddAnnot(SettingsFor(s.lastUsed))
            && Select(s, Highlight).lastUsed == s.lastUsed
  {
  }

  /** Under the invariant, resolving the settings of the active action never
      changes the remembered colour: only select_annotation changes it. */
  lemma HandlerKeepsRememberedColour(s: Toolbar)
    requires Inv(s)
    ensures RememberedHighlight(s.active, s.lastUsed) == s.lastUsed
  {
  }

  /** A user press appends exactly one begin-add-annot, with the settings of
      the active action and no cancel-add-annot; a user release appends
      nothing and changes nothing but the pressed flag. */
  lemma UserToggleSignals(s: Toolbar)
    requires Inv(s)
    ensures !s.pressed ==> UserToggle(s) == s.(pressed := true,
                              events := s.events + [BeginAddAnnot(SettingsFor(s.active))])
    ensures s.pressed ==> UserToggle(s) == s.(pressed := false)
  {
  }

  /** add_annot_finished leaves the button released, emits nothing, changes
      neither field, and doing it twice is doing it once. */
  lemma AddAnnotFinishedIdempotent(s: Toolbar)
    ensures !AddAnnotFinished(s).pressed
    ensures AddAnnotFinished(s).events == s.events
    ensures AddAnnotFinished(s).lastUsed == s.lastUsed && AddAnnotFinished(s).active == s.active
    ensures AddAnnotFinished(AddAnnotFinished(s)) == AddAnnotFinished(s)
    ensures !s.pressed ==> AddAnnotFinished(s) == s
  {
  }
}

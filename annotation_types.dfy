/** The enumerations the annotation toolbar button works with, the fixed table
    that turns a toolbar action into the settings of the annotation to create,
    and the icon each action shows on the primary button. */
module AnnotationTypes {

  datatype Option<T> = None | Some(value: T)

  /** The logical identity of the primary toggle button. `Highlight` is a
      generic alias that stands for the highlight colour used last. */
  datatype ActionType =
    | Note
    | Highlight
    | HighlightYellow
    | HighlightBlue
    | HighlightPink
    | HighlightGreen
    | Underline
    | StrikeOut
    | Squiggly

  /** Kind of annotation requested from the host. */
  datatype AnnotationType = Text | TextMarkup

  /** Visual treatment of a text-markup annotation. */
  datatype MarkupType =
    | MarkupNone
    | MarkupHighlight
    | MarkupUnderline
    | MarkupStrikeOut
    | MarkupSquiggly

  datatype Color = ColorNone | Yellow | Cyan | Magenta | Green

  /** The three arguments of the begin-add-annot signal. */
  datatype Settings = Settings(kind: AnnotationType, markup: MarkupType, color: Color)

  /** One of the four concrete highlight colours. */
  predicate IsConcreteHighlight(t: ActionType)
  {
    t.HighlightYellow? || t.HighlightBlue? || t.HighlightPink? || t.HighlightGreen?
  }

  /** A concrete highlight colour or the generic alias. */
  predicate IsHighlightFamily(t: ActionType)
  {
    t.Highlight? || IsConcreteHighlight(t)
  }

  /** The settings chosen for an action type by the case analysis of
      switch_annot_settings. */
  function SettingsFor(t: ActionType): (r: Settings)
    ensures (r.kind == Text) <==> t == Note
    ensures r.kind == Text ==> r.markup == MarkupNone && r.color == Yellow
    ensures (r.markup == MarkupHighlight) <==> IsHighlightFamily(t)
    ensures (r.color == ColorNone) <==> (r.kind == TextMarkup && r.markup != MarkupHighlight)
    ensures r.markup != MarkupNone <==> r.kind == TextMarkup
  {
    match t
    case Note => Settings(Text, MarkupNone, Yellow)
    case Highlight => Settings(TextMarkup, MarkupHighlight, Yellow)
    case HighlightYellow => Settings(TextMarkup, MarkupHighlight, Yellow)
    case HighlightBlue => Settings(TextMarkup, MarkupHighlight, Cyan)
    case HighlightPink => Settings(TextMarkup, MarkupHighlight, Magenta)
    case HighlightGreen => Settings(TextMarkup, MarkupHighlight, Green)
    case Underline => Settings(TextMarkup, MarkupUnderline, ColorNone)
    case StrikeOut => Settings(TextMarkup, MarkupStrikeOut, ColorNone)
    case Squiggly => Settings(TextMarkup, MarkupSquiggly, ColorNone)
  }

  /** What a host receiving begin-add-annot can tell about the toolbar action
      that produced it: the concrete action type, or None for settings that no
      action produces. */
  function ActionFor(s: Settings): Option<ActionType>
  {
    match s.kind
    case Text =>
      if s.markup == MarkupNone && s.color == Yellow then Some(Note) else None
    case TextMarkup =>
      match s.markup
      case MarkupNone => None
      case MarkupHighlight =>
        (match s.color
         case ColorNone => None
         case Yellow => Some(HighlightYellow)
         case Cyan => Some(HighlightBlue)
         case Magenta => Some(HighlightPink)
         case Green => Some(HighlightGreen))
      case MarkupUnderline => if s.color == ColorNone then Some(Underline) else None
      case MarkupStrikeOut => if s.color == ColorNone then Some(StrikeOut) else None
      case MarkupSquiggly => if s.color == ColorNone then Some(Squiggly) else None
  }

  /** Every action other than the alias has settings of its own: they
      determine the action back. */
  lemma SettingsDetermineAction(t: ActionType)
    requires !t.Highlight?
    ensures ActionFor(SettingsFor(t)) == Some(t)
  {
  }

  /** Settings that name an action are exactly that action's settings, and the
      alias is never named. */
  lemma ActionForSound(s: Settings, t: ActionType)
    requires ActionFor(s) == Some(t)
    ensures !t.Highlight? && SettingsFor(t) == s
  {
  }

  /** The alias, if it ever reached the table, would give a yellow highlight,
      the same as HighlightYellow. As a corollary of SettingsDetermineAction,
      two distinct real actions never share settings. */
  lemma AliasSharesYellowSettings(t: ActionType, u: ActionType)
    ensures SettingsFor(Highlight) == SettingsFor(HighlightYellow)
    ensures !t.Highlight? && !u.Highlight? && SettingsFor(t) == SettingsFor(u) ==> t == u
  {
  }

  /** The highlight colour remembered after the settings of `active` were
      resolved: a concrete highlight colour replaces the remembered one, every
      other type leaves it as it was. */
  function RememberedHighlight(active: ActionType, lastUsed: ActionType): (r: ActionType)
    ensures IsConcreteHighlight(lastUsed) ==> IsConcreteHighlight(r)
    ensures r == lastUsed || r == active
    ensures IsConcreteHighlight(active) ==> r == active
  {
    if IsConcreteHighlight(active) then active else lastUsed
  }

  /** The icon put on the primary button when an action is selected; it is
      keyed on the requested action, not on the one the alias resolves to. */
  function IconName(t: ActionType): (r: string)
    ensures r == "marker-symbolic" <==> IsHighlightFamily(t)
    ensures |r| > 9 && r[|r| - 9..] == "-symbolic"
  {
    match t
    case Note => "note-symbolic"
    case Highlight => "marker-symbolic"
    case HighlightYellow => "marker-symbolic"
    case HighlightBlue => "marker-symbolic"
    case HighlightPink => "marker-symbolic"
    case HighlightGreen => "marker-symbolic"
    case StrikeOut => "text-strikethrough-symbolic"
    case Underline => "text-underline-symbolic"
    case Squiggly => "text-squiggly-symbolic"
  }

  /** Outside the highlight family, each action has an icon of its own. */
  lemma IconNameDistinguishes(t: ActionType, u: ActionType)
    requires !IsHighlightFamily(t) && t != u
    ensures IconName(t) != IconName(u)
  {
  }
}

/** The Button-to-Action property mapper: translates a deprecated Button's property
    bag into the property bag of the Action component that replaces it. There are two
    tables that disagree: the `buttonToActionMapping` switch tables (which the
    `testCases` fixtures describe) and the lookup tables inside `mapButtonToAction`. */
module ButtonToAction {
  import opened Wrappers
  import opened Strings

  /** A Button's properties. `iconInstance` is `None` for every falsy value
      (`null`, `undefined`, `""`) and `Some(ref)` for a truthy reference. */
  datatype ButtonProperties = ButtonProperties(
    variant: string,
    size: string,
    state: string,
    icon: string,
    color: string,
    labelText: string,
    iconInstance: Option<string>)

  // ---------------------------------------------------------------------------
  // `determineActionVariant` and the `buttonToActionMapping` switch tables
  // ---------------------------------------------------------------------------

  function DetermineActionVariant(b: ButtonProperties): string {
    if b.icon == "Icon only" then "Icon Only"
    else if b.icon == "None" then "Text"
    else if b.icon == "Left" || b.icon == "Right" then "Text and Icons"
    else "Text"
  }

  /** The variant decision: only the plain spellings `Icon only`, `Left` and `Right`
      are recognised; everything else, `None` included, is a Text variant. */
  lemma DetermineActionVariantCases(b: ButtonProperties)
    ensures DetermineActionVariant(b) == "Icon Only" <==> b.icon == "Icon only"
    ensures DetermineActionVariant(b) == "Text and Icons" <==> b.icon in {"Left", "Right"}
    ensures DetermineActionVariant(b) == "Text" <==> b.icon !in {"Icon only", "Left", "Right"}
  {
  }

  function StyleTable(buttonVariant: string): (r: string)
    ensures r in {"Filled", "Outlined", "Text"}
    ensures buttonVariant !in {"Filled", "Outlined", "Flat"} ==> r == "Filled"
  {
    match buttonVariant
    case "Filled" => "Filled"
    case "Outlined" => "Outlined"
    case "Flat" => "Text"
    case _ => "Filled"
  }

  function StateTable(buttonState: string): (r: string)
    ensures r in {"Enabled", "Hovered", "Pressed", "Disabled"}
    ensures buttonState !in {"Default", "Hover", "Pressed", "Disabled"} ==> r == "Enabled"
  {
    match buttonState
    case "Default" => "Enabled"
    case "Hover" => "Hovered"
    case "Pressed" => "Pressed"
    case "Disabled" => "Disabled"
    case _ => "Enabled"
  }

  function SizeTable(buttonSize: string): (r: string)
    ensures r in {"Small (S)", "Medium (Default)", "Large (L)"}
    ensures buttonSize !in {"Small", "Medium (Default)", "Large"} ==> r == "Medium (Default)"
  {
    match buttonSize
    case "Small" => "Small (S)"
    case "Medium (Default)" => "Medium (Default)"
    case "Large" => "Large (L)"
    case _ => "Medium (Default)"
  }

  /** `Partial<ActionProperties>` restricted to the two show flags. */
  datatype IconFlags = IconFlags(showLeft: Option<bool>, showRight: Option<bool>)

  function IconConfig(buttonIcon: string): (r: IconFlags)
    ensures r == IconFlags(None, None) <==> buttonIcon == "Icon only"
    ensures buttonIcon != "Icon only" ==> r.showLeft.Some? && r.showRight.Some?
    ensures !(r.showLeft == Some(true) && r.showRight == Some(true))
    ensures r.showLeft == Some(true) <==> buttonIcon == "Left"
    ensures r.showRight == Some(true) <==> buttonIcon == "Right"
  {
    match buttonIcon
    case "None" => IconFlags(Some(false), Some(false))
    case "Left" => IconFlags(Some(true), Some(false))
    case "Right" => IconFlags(Some(false), Some(true))
    case "Icon only" => IconFlags(None, None)
    case _ => IconFlags(Some(false), Some(false))
  }

  /** What the colour warning adds after naming the colour. */
  const ThemeAdvice := " Action component uses theme modes for color variations. Please set the appropriate theme/mode at the file level."

  datatype ColorDecision = ColorDecision(ignore: bool, warning: Option<string>)

  function ColorHandling(buttonColor: string): (r: ColorDecision)
    ensures r.ignore <==> buttonColor != "Asurion Purple"
    ensures r.warning.Some? <==> r.ignore
    ensures r.ignore ==> StartsWith(r.warning.value, "Color \"" + buttonColor + "\" is not mapped.")
  {
    if buttonColor != "Asurion Purple" then
      var head := "Color \"" + buttonColor + "\" is not mapped.";
      StartsWithConcat(head, ThemeAdvice);
      ColorDecision(true, Some(head + ThemeAdvice))
    else ColorDecision(false, None)
  }

  /** The expected part of a `testCases` entry: `None` where the fixture is silent. */
  datatype Expected = Expected(
    variant: string, style: string, state: string, size: string,
    showLeft: Option<bool>, labelText: Option<string>)

  datatype TestCase = TestCase(name: string, input: ButtonProperties, expected: Expected, warnings: seq<string>)

  function TestCases(): seq<TestCase> {
    [ TestCase("Filled Primary Button with Left Icon",
        ButtonProperties("Filled", "Medium (Default)", "Default", "Left", "Asurion Purple", "Click me", Some("{}")),
        Expected("Text and Icons", "Filled", "Enabled", "Medium (Default)", Some(true), Some("Click me")), []),
      TestCase("Outlined Disabled Large Icon Only",
        ButtonProperties("Outlined", "Large", "Disabled", "Icon only", "Black", "", Some("{}")),
        Expected("Icon Only", "Outlined", "Disabled", "Large (L)", None, None), ["Color \"Black\" is not mapped..."]),
      TestCase("Flat Text Button (No Icons)",
        ButtonProperties("Flat", "Small", "Hover", "None", "White", "Submit", Some("{}")),
        Expected("Text", "Text", "Hovered", "Small (S)", None, Some("Submit")), ["Color \"White\" is not mapped..."]) ]
  }

  /** The switch tables reproduce every fixture: variant, style, state, size, the left
      show flag and the label where the fixture names them, and a colour warning
      exactly for the fixtures that expect one. */
  lemma TablesAgreeWithTestCases(k: nat)
    requires k < |TestCases()|
    ensures var t := TestCases()[k];
      && DetermineActionVariant(t.input) == t.expected.variant
      && StyleTable(t.input.variant) == t.expected.style
      && StateTable(t.input.state) == t.expected.state
      && SizeTable(t.input.size) == t.expected.size
      && (t.expected.showLeft.Some? ==> IconConfig(t.input.icon).showLeft == t.expected.showLeft)
      && (t.expected.labelText.Some? ==> t.input.labelText == t.expected.labelText.value)
      && (ColorHandling(t.input.color).warning.Some? <==> |t.warnings| == 1)
  {
    var t := TestCases()[k];
    if k == 0 {
      assert t.input.color == "Asurion Purple" && t.warnings == [];
    } else if k == 1 {
      assert t.input.color == "Black" && |t.warnings| == 1;
    } else {
      assert t.input.color == "White" && |t.warnings| == 1;
    }
  }

  // ---------------------------------------------------------------------------
  // `mapButtonToAction`
  // ---------------------------------------------------------------------------

  const LeftSpellings: set<string> := {"❖ Left", "Left ❖", "Left"}
  const RightSpellings: set<string> := {"Right ❖", "❖ Right", "Right"}
  const IconOnlySpellings: set<string> := {"Icon ❖ only", "Icon only"}

  const VariantMapping: map<string, string> :=
    map["● Filled" := "Filled", "○ Outlined" := "Outline", "Filled" := "Filled", "Outlined" := "Outline"]
  const StateMapping: map<string, string> :=
    map["Default" := "Enabled", "Hover" := "Hover", "Active" := "Active", "Disabled" := "Disabled"]

  const LeftIconSlot := "Select 'Left' Icon#12538:1"
  const RightIconSlot := "Select 'Right' Icon#12538:5"
  const IconOnlySmall := "Select Icon#12307:2"
  const IconOnlyMedium := "Select Icon#12307:3"
  const IconOnlyLarge := "Select Icon#12307:1"

  /** The Action property bag, one field per property name the mapper writes. */
  datatype ActionProps = ActionProps(
    variant: string,
    style: string,
    state: string,
    size: string,
    actionText: string,
    showLeftIcon: bool,
    showRightIcon: bool,
    selectRightIcon: Option<string>,
    selectLeftIcon: Option<string>)

  datatype IconMapping = IconMapping(
    source: string,
    targetIconOnly: Option<string>,
    targetLeft: Option<string>,
    targetRight: Option<string>)

  datatype ActionMappingResult = ActionMappingResult(
    actionProps: ActionProps,
    warnings: seq<string>,
    iconMapping: Option<IconMapping>,
    themeMode: Option<string>)

  /** The warning for an unknown variant, if it is one. */
  function VariantWarning(v: string): seq<string> {
    if v in VariantMapping then [] else ["Unknown Button variant: " + v]
  }

  function StateWarning(s: string): seq<string> {
    if s in StateMapping then [] else ["Unknown Button state: " + s]
  }

  /** The theme mode a colour selects, if any. */
  function ThemeFor(color: string): Option<string> {
    if color in {"🟣 Asurion Purple", "Asurion Purple"} then Some("Asurion - Light")
    else if color in {"⚪️ White", "White"} then Some("Asurion - Dark")
    else if color in {"⚫️ Black", "Black"} then Some("Partner - Light")
    else None
  }

  function ColorWarning(color: string): seq<string> {
    if ThemeFor(color).Some? then [] else ["Unknown Button color: " + color + ". Theme not changed."]
  }

  /** The Action variant and the two show flags. */
  datatype VariantChoice = VariantChoice(variant: string, showLeft: bool, showRight: bool)

  /** What the `switch (buttonProps.Icon)` block decides. */
  function VariantDecision(b: ButtonProperties): (r: VariantChoice)
    ensures b.icon in LeftSpellings ==> r == VariantChoice("Text and Icons", true, false)
    ensures b.icon in RightSpellings ==> r == VariantChoice("Text and Icons", false, true)
    ensures b.icon in IconOnlySpellings ==> r == VariantChoice("Icon Only", true, false)
    ensures b.icon == "None" || b.icon == "" ==> r == VariantChoice("Text", false, false)
    ensures b.icon !in LeftSpellings + RightSpellings + IconOnlySpellings + {"None", ""} ==>
              r == if b.iconInstance.Some? then VariantChoice("Text and Icons", true, false)
                   else VariantChoice("Text", false, false)
    ensures !(r.showLeft && r.showRight)
    ensures r.variant in {"Text", "Text and Icons", "Icon Only"}
    ensures b.icon in {"Icon only", "None", "Left", "Right"} ==> r.variant == DetermineActionVariant(b)
  {
    if b.icon == "" then VariantChoice("Text", false, false)
    else if b.icon in LeftSpellings then VariantChoice("Text and Icons", true, false)
    else if b.icon in RightSpellings then VariantChoice("Text and Icons", false, true)
    else if b.icon in IconOnlySpellings then VariantChoice("Icon Only", true, false)
    else if b.icon == "None" then VariantChoice("Text", false, false)
    else if b.iconInstance.Some? then VariantChoice("Text and Icons", true, false)
    else VariantChoice("Text", false, false)
  }

  /** The `switch (buttonProps.Icon)` block, step by step. */
  method DecideVariant(b: ButtonProperties) returns (actionVariant: string, showLeftIcon: bool, showRightIcon: bool)
    ensures VariantChoice(actionVariant, showLeftIcon, showRightIcon) == VariantDecision(b)
  {
    actionVariant := "Text";
    showLeftIcon := false;
    showRightIcon := false;
    if b.icon != "" {
      if b.icon in LeftSpellings {
        actionVariant := "Text and Icons";
        showLeftIcon := true;
      } else if b.icon in RightSpellings {
        actionVariant := "Text and Icons";
        showRightIcon := true;
      } else if b.icon in IconOnlySpellings {
        actionVariant := "Icon Only";
        showLeftIcon := true;
      } else if b.icon == "None" {
        actionVariant := "Text";
        showLeftIcon := false;
        showRightIcon := false;
      } else if b.iconInstance.Some? {
        actionVariant := "Text and Icons";
        showLeftIcon := true;
      } else {
        actionVariant := "Text";
      }
    }
  }

  /** The icon-slot plan: which Action property receives the Button's icon instance. */
  function IconPlan(b: ButtonProperties, v: VariantChoice): (r: Option<IconMapping>)
    requires !(v.showLeft && v.showRight)
    ensures r.Some? <==> b.iconInstance.Some? && b.icon != "None"
    ensures r.Some? ==> r.value.source == b.iconInstance.value
    ensures r.Some? && v.variant == "Icon Only" ==>
              r.value.targetLeft.None? && r.value.targetRight.None? &&
              r.value.targetIconOnly ==
                Some(if b.size == "Small" then IconOnlySmall
                     else if b.size == "Large" then IconOnlyLarge
                     else IconOnlyMedium)
    ensures r.Some? && v.variant != "Icon Only" ==>
              r.value.targetIconOnly.None? &&
              (r.value.targetLeft.Some? != r.value.targetRight.Some?) &&
              r.value.targetRight == (if v.showRight then Some(RightIconSlot) else None) &&
              r.value.targetLeft == (if v.showRight then None else Some(LeftIconSlot))
  {
    if b.iconInstance.None? || b.icon == "None" then None
    else if v.variant == "Icon Only" then
      var slot := if b.size == "Small" then IconOnlySmall
                  else if b.size == "Medium (Default)" then IconOnlyMedium
                  else if b.size == "Large" then IconOnlyLarge
                  else IconOnlyMedium;
      Some(IconMapping(b.iconInstance.value, Some(slot), None, None))
    else
      Some(IconMapping(b.iconInstance.value, None,
        if v.showLeft || (!v.showLeft && !v.showRight) then Some(LeftIconSlot) else None,
        if v.showRight then Some(RightIconSlot) else None))
  }

  /** The icon-slot block, step by step. */
  method PlanIcon(b: ButtonProperties, actionVariant: string, showLeftIcon: bool, showRightIcon: bool)
    returns (iconMapping: Option<IconMapping>)
    requires !(showLeftIcon && showRightIcon)
    ensures iconMapping == IconPlan(b, VariantChoice(actionVariant, showLeftIcon, showRightIcon))
  {
    iconMapping := None;
    if b.iconInstance.Some? && b.icon != "None" {
      if actionVariant == "Icon Only" {
        var iconPropertyName := IconOnlyLarge;
        if b.size == "Small" {
          iconPropertyName := IconOnlySmall;
        } else if b.size == "Medium (Default)" {
          iconPropertyName := IconOnlyMedium;
        } else if b.size == "Large" {
          iconPropertyName := IconOnlyLarge;
        } else {
          iconPropertyName := IconOnlyMedium;
        }
        iconMapping := Some(IconMapping(b.iconInstance.value, Some(iconPropertyName), None, None));
      } else {
        var targetLeft := if showLeftIcon || (!showLeftIcon && !showRightIcon) then Some(LeftIconSlot) else None;
        var targetRight := if showRightIcon then Some(RightIconSlot) else None;
        iconMapping := Some(IconMapping(b.iconInstance.value, None, targetLeft, targetRight));
      }
    }
  }

  /** The `switch (buttonProps.Color)` block: the theme mode, or a warning. */
  method PickTheme(color: string) returns (themeMode: Option<string>, warning: seq<string>)
    ensures themeMode == ThemeFor(color)
    ensures warning == ColorWarning(color)
  {
    themeMode := None;
    warning := [];
    if color in {"🟣 Asurion Purple", "Asurion Purple"} {
      themeMode := Some("Asurion - Light");
    } else if color in {"⚪️ White", "White"} {
      themeMode := Some("Asurion - Dark");
    } else if color in {"⚫️ Black", "Black"} {
      themeMode := Some("Partner - Light");
    } else {
      warning := ["Unknown Button color: " + color + ". Theme not changed."];
    }
  }

  /** The two fallback checks: an unknown variant, then an unknown state, each
      appends its warning. */
  method WarnUnknown(b: ButtonProperties) returns (warnings': seq<string>)
    ensures warnings' == VariantWarning(b.variant) + StateWarning(b.state)
  {
    warnings' := [];
    if b.variant !in VariantMapping {
      warnings' := warnings' + ["Unknown Button variant: " + b.variant];
    }
    if b.state !in StateMapping {
      warnings' := warnings' + ["Unknown Button state: " + b.state];
    }
  }

  method MapButtonToAction(b: ButtonProperties) returns (r: ActionMappingResult)
    // the variant decision and the show flags
    ensures VariantChoice(r.actionProps.variant, r.actionProps.showLeftIcon, r.actionProps.showRightIcon) == VariantDecision(b)
    // the other properties
    ensures r.actionProps.style == if b.variant in VariantMapping then VariantMapping[b.variant] else "Filled"
    ensures r.actionProps.state == if b.state in StateMapping then StateMapping[b.state] else "Enabled"
    ensures r.actionProps.size == if b.size != "" then b.size else "Medium (Default)"
    ensures r.actionProps.actionText == b.labelText
    ensures r.actionProps.selectLeftIcon == if r.actionProps.showLeftIcon then b.iconInstance else None
    ensures r.actionProps.selectRightIcon == if r.actionProps.showRightIcon then b.iconInstance else None
    // the icon transfer plan
    ensures r.iconMapping == IconPlan(b, VariantDecision(b))
    // the theme and the warnings
    ensures r.themeMode == ThemeFor(b.color)
    ensures r.warnings == VariantWarning(b.variant) + StateWarning(b.state) + ColorWarning(b.color)
    ensures |r.warnings| <= 3
  {
    var actionVariant, showLeftIcon, showRightIcon := DecideVariant(b);

    var actionProps := ActionProps(
      actionVariant,
      if b.variant in VariantMapping then VariantMapping[b.variant] else "Filled",
      if b.state in StateMapping then StateMapping[b.state] else "Enabled",
      if b.size != "" then b.size else "Medium (Default)",
      b.labelText,
      showLeftIcon,
      showRightIcon,
      if showRightIcon then b.iconInstance else None,
      if showLeftIcon then b.iconInstance else None);

    var warnings := WarnUnknown(b);

    var iconMapping := PlanIcon(b, actionVariant, showLeftIcon, showRightIcon);
    var themeMode, colorWarning := PickTheme(b.color);
    warnings := warnings + colorWarning;
    assert |warnings| <= 3 by {
      OneWarningPerUnknownValue(b);
    }

    return ActionMappingResult(actionProps, warnings, iconMapping, themeMode);
  }

  /** A warning always names the value it complains about. */
  lemma WarningsNameTheValue(b: ButtonProperties)
    ensures forall w :: w in VariantWarning(b.variant) ==> Contains(w, b.variant)
    ensures forall w :: w in StateWarning(b.state) ==> Contains(w, b.state)
    ensures forall w :: w in ColorWarning(b.color) ==> Contains(w, b.color)
  {
    var v := "Unknown Button variant: " + b.variant;
    assert v[|"Unknown Button variant: "|..|v|] == b.variant;
    SliceContained(v, |"Unknown Button variant: "|, |v|);
    var s := "Unknown Button state: " + b.state;
    assert s[|"Unknown Button state: "|..|s|] == b.state;
    SliceContained(s, |"Unknown Button state: "|, |s|);
    var c := "Unknown Button color: " + b.color + ". Theme not changed.";
    var n := |"Unknown Button color: "|;
    assert c[n..n + |b.color|] == b.color;
    SliceContained(c, n, n + |b.color|);
  }

  /** The fallbacks: an unknown variant, state or colour adds exactly one warning, and
      a known one none. */
  lemma OneWarningPerUnknownValue(b: ButtonProperties)
    ensures |VariantWarning(b.variant)| == (if b.variant in VariantMapping then 0 else 1)
    ensures |StateWarning(b.state)| == (if b.state in StateMapping then 0 else 1)
    ensures |ColorWarning(b.color)| == (if ThemeFor(b.color).Some? then 0 else 1)
  {
  }
}

/** The theme controller: a boolean `isDark`, dark by default, negated by the
    theme button, and mirrored on the document root as the class "dark". */
module Theme {

  const DarkClass: string := "dark"

  /** The theme the page starts in. */
  const InitialDark: bool := true

  /** The theme button's handler. */
  function Toggle(isDark: bool): (r: bool)
    ensures r != isDark
  {
    !isDark
  }

  /** The effect `classList.toggle("dark", isDark)` on the root element's
      class list: "dark" is present exactly when `isDark` holds, and every
      other class is left as it was. */
  function SetDark(classes: set<string>, isDark: bool): (r: set<string>)
    ensures DarkClass in r <==> isDark
    ensures forall c :: c != DarkClass ==> (c in r <==> c in classes)
  {
    if isDark then classes + {DarkClass} else classes - {DarkClass}
  }

  /** The root's class list mirrors the theme. */
  predicate InSync(classes: set<string>, isDark: bool) {
    DarkClass in classes <==> isDark
  }

  /** Toggling twice restores the theme, and applying the effect after each
      toggle restores a root class list that was in sync. */
  lemma ToggleTwice(classes: set<string>, isDark: bool)
    requires InSync(classes, isDark)
    ensures Toggle(Toggle(isDark)) == isDark
    ensures SetDark(SetDark(classes, Toggle(isDark)), Toggle(Toggle(isDark))) == classes
  {
    var once := SetDark(classes, Toggle(isDark));
    var twice := SetDark(once, isDark);
    assert forall c :: c in twice <==> c in classes;
  }

  /** Re-applying the effect with an unchanged theme does nothing. */
  lemma SetDarkIdempotent(classes: set<string>, isDark: bool)
    ensures SetDark(SetDark(classes, isDark), isDark) == SetDark(classes, isDark)
  {
  }

  /** The icon the theme button shows: a sun while dark (click for light),
      a moon while light. */
  datatype Icon = Sun | Moon

  function ButtonIcon(isDark: bool): (i: Icon)
    ensures i == Sun <==> isDark
  {
    if isDark then Sun else Moon
  }
}

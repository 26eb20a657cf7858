/** The theme hook: which theme names it accepts, the class it puts on the document root for a
  * theme, the value it keeps in local storage and what it reports before and after mounting. */
module Theme {
  import opened Wrappers

  const NeonPulse: string := "neon-pulse"
  const SunsetFade: string := "sunset-fade"
  const ArcticWave: string := "arctic-wave"
  const VintageBrown: string := "vintage-brown"
  const MinimalDark: string := "minimal-dark"

  /** `DEFAULT_THEME`. */
  const DefaultTheme: string := NeonPulse

  /** `isValidTheme`: one of the five theme names. */
  predicate IsValidTheme(value: string) {
    value == NeonPulse || value == SunsetFade || value == ArcticWave || value == VintageBrown
    || value == MinimalDark
  }

  /** Where the first dash of `s` is, or `|s|` when it has none. */
  function FirstDash(s: string): (i: nat)
    ensures i <= |s|
    ensures forall k :: 0 <= k < i ==> s[k] != '-'
    ensures i < |s| ==> s[i] == '-'
  {
    FirstDashFrom(s, 0)
  }

  /** The first dash of `s` at or after `from`, when `s` has none before `from`. */
  function FirstDashFrom(s: string, from: nat): (i: nat)
    requires from <= |s| && forall k :: 0 <= k < from ==> s[k] != '-'
    ensures from <= i <= |s|
    ensures forall k :: 0 <= k < i ==> s[k] != '-'
    ensures i < |s| ==> s[i] == '-'
    decreases |s| - from
  {
    if from == |s| || s[from] == '-' then from else FirstDashFrom(s, from + 1)
  }

  /** `s.replace("-", "")`: a string pattern replaces only its first occurrence. */
  function RemoveFirstDash(s: string): string {
    var i := FirstDash(s);
    if i < |s| then s[..i] + s[i + 1..] else s
  }

  /** The class `applyTheme` puts on the document root. */
  function ThemeClass(theme: string): (c: string)
    ensures |c| == 6 + |theme| - (if '-' in theme then 1 else 0)
    ensures c[..6] == "theme-"
  {
    "theme-" + RemoveFirstDash(theme)
  }

  /** For a name `a-b` whose first part has no dash the class is "theme-" then `ab`: any later
    * dashes of `b` stay. */
  lemma {:induction false} ClassOfDashedName(a: string, b: string)
    requires '-' !in a
    ensures ThemeClass(a + "-" + b) == "theme-" + a + b
  {
    RemoveDashOfDashedName(a, b);
  }

  /** `replace` drops exactly the dash after a dash-free first part. */
  lemma {:induction false} RemoveDashOfDashedName(a: string, b: string)
    requires '-' !in a
    ensures RemoveFirstDash(a + "-" + b) == a + b
  {
    var s := a + "-" + b;
    assert s[|a|] == '-';
    assert forall k :: 0 <= k < |a| ==> s[k] == a[k];
    assert FirstDash(s) == |a|;
    assert s[..|a|] == a && s[|a| + 1..] == b;
  }

  /** A name without a dash is only prefixed. */
  lemma {:induction false} ClassOfPlainName(a: string)
    requires '-' !in a
    ensures ThemeClass(a) == "theme-" + a
  {
    assert FirstDash(a) == |a|;
  }

  /** The five classes: each name with its dash dropped, after "theme-" ("theme-neonpulse" and
    * so on). */
  lemma {:induction false} ClassOfNeonPulse()
    ensures ThemeClass(NeonPulse) == "theme-" + "neon" + "pulse"
  {
    var a, b := "neon", "pulse";
    assert NeonPulse == a + "-" + b;
    ClassOfDashedName(a, b);
  }

  lemma {:induction false} ClassOfSunsetFade()
    ensures ThemeClass(SunsetFade) == "theme-" + "sunset" + "fade"
  {
    var a, b := "sunset", "fade";
    assert SunsetFade == a + "-" + b;
    ClassOfDashedName(a, b);
  }

  lemma {:induction false} ClassOfArcticWave()
    ensures ThemeClass(ArcticWave) == "theme-" + "arctic" + "wave"
  {
    var a, b := "arctic", "wave";
    assert ArcticWave == a + "-" + b;
    ClassOfDashedName(a, b);
  }

  lemma {:induction false} ClassOfVintageBrown()
    ensures ThemeClass(VintageBrown) == "theme-" + "vintage" + "brown"
  {
    var a, b := "vintage", "brown";
    assert VintageBrown == a + "-" + b;
    ClassOfDashedName(a, b);
  }

  lemma {:induction false} ClassOfMinimalDark()
    ensures ThemeClass(MinimalDark) == "theme-" + "minimal" + "dark"
  {
    var a, b := "minimal", "dark";
    assert MinimalDark == a + "-" + b;
    ClassOfDashedName(a, b);
  }

  /** A name not starting with a dash keeps its first letter right after "theme-". */
  lemma {:induction false} ClassLetter(t: string)
    requires t != [] && t[0] != '-'
    ensures |ThemeClass(t)| > 6 && ThemeClass(t)[6] == t[0]
  {
    assert FirstDash(t) > 0;
  }

  /** Different themes get different classes: the five names start with five different
    * letters. */
  lemma {:induction false} ThemeClassInjective(a: string, b: string)
    requires IsValidTheme(a) && IsValidTheme(b) && a != b
    ensures ThemeClass(a) != ThemeClass(b)
  {
    assert a[0] != b[0];
    ClassLetter(a);
    ClassLetter(b);
  }

  /** The hook's state (`theme`, `mounted`), the stored value under "playlist-theme" and the
    * class of the document root (`None` until the hook first sets it). */
  class ThemeHook {
    var theme: string
    var mounted: bool
    var stored: Option<string>
    var rootClass: Option<string>

    /** The theme is valid and the root, once set, shows its class. */
    ghost predicate Valid()
      reads this
    {
      IsValidTheme(theme) && (rootClass.Some? ==> rootClass.value == ThemeClass(theme))
    }

    /** The first render: the default theme, not mounted, storage as the browser has it. */
    constructor (stored: Option<string>)
      ensures Valid()
      ensures theme == DefaultTheme && !mounted && this.stored == stored && rootClass.None?
    {
      theme, mounted, this.stored, rootClass := DefaultTheme, false, stored, None;
    }

    /** What the hook returns: the default until mounted, the state after. */
    function Reported(): (t: string)
      reads this
      ensures !mounted ==> t == DefaultTheme
    {
      if mounted then theme else DefaultTheme
    }

    /** The hook only ever reports a valid theme. */
    lemma {:induction false} ReportsValid()
      requires Valid()
      ensures IsValidTheme(Reported())
    {
    }

    /** The mount effect: a stored value is adopted and applied only when it is a valid theme;
      * then the hook counts as mounted. */
    method Mount()
      requires Valid()
      modifies this
      ensures Valid()
      ensures mounted && stored == old(stored)
      ensures old(stored).Some? && IsValidTheme(old(stored).value) ==>
        theme == old(stored).value && rootClass == Some(ThemeClass(theme))
      ensures !(old(stored).Some? && IsValidTheme(old(stored).value)) ==>
        theme == old(theme) && rootClass == old(rootClass)
    {
      var saved := stored;
      if saved.Some? && saved.value != "" && IsValidTheme(saved.value) {
        theme := saved.value;
        rootClass := Some(ThemeClass(saved.value));
      }
      mounted := true;
    }

    /** `setTheme`: a valid name becomes the state, is applied and is stored; any other name
      * changes nothing. */
    method SetTheme(newTheme: string)
      requires Valid()
      modifies this
      ensures Valid()
      ensures IsValidTheme(newTheme) ==>
        theme == newTheme && rootClass == Some(ThemeClass(newTheme)) && stored == Some(newTheme)
        && mounted == old(mounted)
      ensures !IsValidTheme(newTheme) ==>
        theme == old(theme) && rootClass == old(rootClass) && stored == old(stored) && mounted == old(mounted)
    {
      if IsValidTheme(newTheme) {
        theme := newTheme;
        rootClass := Some(ThemeClass(newTheme));
        stored := Some(newTheme);
      }
    }
  }

  /** A theme chosen in one visit is reported after the next visit mounts, while that visit's
    * first render still reports the default. */
  method ThemeSurvivesReload(choice: string) returns (firstRender: string, afterMount: string)
    requires IsValidTheme(choice)
    ensures firstRender == DefaultTheme && afterMount == choice
  {
    var visit := new ThemeHook(None);
    visit.Mount();
    visit.SetTheme(choice);
    var next := new ThemeHook(visit.stored);
    firstRender := next.Reported();
    next.Mount();
    afterMount := next.Reported();
  }

  /** A stored value that is not a theme name is ignored: the default shows. */
  method IgnoresForeignValue() returns (reported: string)
    ensures reported == DefaultTheme
  {
    var visit := new ThemeHook(Some("hacker-green"));
    visit.Mount();
    reported := visit.Reported();
  }
}

/** Repeated application of a step function, and what it does on a list
    that the step walks through in order, wrapping round at the end. */
module Iteration {
  /** `k` applications of `step`, starting from `x`. */
  ghost function Iterate(step: string -> string, x: string, k: nat): string
  {
    if k == 0 then x else step(Iterate(step, x, k - 1))
  }

  /** Iterating `a` times and then `b` more is iterating `a + b` times. */
  lemma {:induction false} IterateAdd(step: string -> string, x: string, a: nat, b: nat)
    ensures Iterate(step, x, a + b) == Iterate(step, Iterate(step, x, a), b)
  {
    if b > 0 {
      IterateAdd(step, x, a, b - 1);
      assert a + b - 1 == a + (b - 1);
    }
  }

  /** `step` moves along `s`: from each entry to the one after it, and from
      the last entry back to the first. */
  ghost predicate Cycles(step: string -> string, s: seq<string>)
  {
    && (forall m {:trigger step(s[m])} :: 0 <= m < |s| - 1 ==> step(s[m]) == s[m + 1])
    && (|s| > 0 ==> step(s[|s| - 1]) == s[0])
  }

  /** Short of the end of the list, `k` steps from the entry at `i` reach
      the entry at `i + k`. */
  lemma {:induction false} IterateForward(step: string -> string, s: seq<string>, i: nat, k: nat)
    requires Cycles(step, s) && i + k < |s|
    ensures Iterate(step, s[i], k) == s[i + k]
  {
    if k > 0 {
      IterateForward(step, s, i, k - 1);
    }
  }

  /** From the entry at `i`, the steps to the end of the list and one more
      lead back to the first entry. */
  lemma IterateWrap(step: string -> string, s: seq<string>, i: nat)
    requires Cycles(step, s) && i < |s|
    ensures Iterate(step, s[i], |s| - i) == s[0]
  {
    IterateForward(step, s, i, |s| - 1 - i);
  }

  /** Every entry is reached from the entry at `i` within one pass. */
  lemma IterateReaches(step: string -> string, s: seq<string>, i: nat, j: nat)
    requires Cycles(step, s) && i < |s| && j < |s|
    ensures Iterate(step, s[i], if j >= i then j - i else |s| - i + j) == s[j]
  {
    if j >= i {
      IterateForward(step, s, i, j - i);
      assert i + (j - i) == j;
    } else {
      IterateWrap(step, s, i);
      IterateAdd(step, s[i], |s| - i, j);
      IterateForward(step, s, 0, j);
      assert Iterate(step, s[i], |s| - i + j) == s[j];
    }
  }

  /** One full pass from the entry at `i` ends where it started. */
  lemma IterateFullPass(step: string -> string, s: seq<string>, i: nat)
    requires Cycles(step, s) && i < |s|
    ensures Iterate(step, s[i], |s|) == s[i]
  {
    IterateWrap(step, s, i);
    IterateForward(step, s, 0, i);
    IterateAdd(step, s[i], |s| - i, i);
  }
}

/** js/utils/ThemeManager.js: switching, cycling and checking themes on the
    shared theme configuration. Reading and writing the saved preference
    (localStorage), the change event and the scene reload are outside this
    model; the saved preference comes in as a parameter. */
module ThemeManager {
  import opened Wrappers
  import opened GameUtils
  import opened ThemeConfig
  import opened Iteration

  /** What `checkThemeAssets` reports missing. */
  datatype MissingAsset = ThemeNotFound | ElementAsset(displayName: string) | FeedbackAsset(symbolType: string)

  /** What `checkThemeAssets` returns. */
  datatype AssetReport = AssetReport(complete: bool, missingAssets: seq<MissingAsset>)

  predicate Distinct(s: seq<string>)
  {
    forall a, b :: 0 <= a < b < |s| ==> s[a] != s[b]
  }

  /** The theme after `current` in the list, wrapping round at the end; a
      theme not in the list (index -1) is followed by the first one. */
  function NextInRotation(themes: seq<string>, current: string): (r: string)
    requires |themes| > 0
    ensures current !in themes ==> r == themes[0]
  {
    var nextIndex := IndexOf(themes, current) + 1;
    if nextIndex == |themes| then themes[0] else themes[nextIndex]
  }

  /** The source's `% length` on an index between 0 and the length. */
  lemma ModWrap(k: int, n: int)
    requires 0 <= k <= n && n > 0
    ensures k % n == if k == n then 0 else k
  {
  }

  /** The rotation step is the source's modular index, so it always lands
      on an entry of the list. */
  lemma NextIsModular(themes: seq<string>, current: string)
    requires |themes| > 0
    ensures NextInRotation(themes, current) == themes[(IndexOf(themes, current) + 1) % |themes|]
    ensures NextInRotation(themes, current) in themes
  {
    var k := IndexOf(themes, current) + 1;
    ModWrap(k, |themes|);
    var r := if k == |themes| then 0 else k;
    assert NextInRotation(themes, current) == themes[r];
  }

  /** One step of the theme rotation, as a function value. */
  ghost function RotationStep(themes: seq<string>): string -> string
    requires |themes| > 0
  {
    s => NextInRotation(themes, s)
  }

  /** `k` steps of the rotation from `current`. */
  ghost function Rotate(themes: seq<string>, current: string, k: nat): string
    requires |themes| > 0
  {
    Iterate(RotationStep(themes), current, k)
  }

  /** On a list without repeats, the rotation moves from each entry to the
      one after it, and from the last entry back to the first. */
  lemma NextOfListed(themes: seq<string>, i: nat)
    requires Distinct(themes) && i < |themes|
    ensures NextInRotation(themes, themes[i]) == if i + 1 < |themes| then themes[i + 1] else themes[0]
  {
    assert themes[i] !in themes[..i];
    assert IndexOf(themes, themes[i]) == i;
  }

  lemma RotationCycles(themes: seq<string>)
    requires Distinct(themes) && |themes| > 0
    ensures Cycles(RotationStep(themes), themes)
  {
    forall m | 0 <= m < |themes| - 1
      ensures RotationStep(themes)(themes[m]) == themes[m + 1]
    {
      NextOfListed(themes, m);
    }
    NextOfListed(themes, |themes| - 1);
  }

  /** Cycling through a list without repeats visits every theme within one
      pass and comes back to the start after exactly one pass. */
  lemma RotationReturns(themes: seq<string>, i: nat)
    requires Distinct(themes) && i < |themes|
    ensures Rotate(themes, themes[i], |themes|) == themes[i]
    ensures forall j :: 0 <= j < |themes| ==>
              Rotate(themes, themes[i], if j >= i then j - i else |themes| - i + j) == themes[j]
  {
    RotationCycles(themes);
    IterateFullPass(RotationStep(themes), themes, i);
    forall j | 0 <= j < |themes|
      ensures Rotate(themes, themes[i], if j >= i then j - i else |themes| - i + j) == themes[j]
    {
      IterateReaches(RotationStep(themes), themes, i, j);
    }
  }

  /** `getNextTheme` on the shared configuration: with the single
      available theme, always "christmas". */
  function GetNextTheme(config: ThemeConfig): (r: string)
    reads config
    ensures r == NextInRotation(config.GetAvailableThemes(), config.currentTheme)
    ensures r == "christmas"
  {
    NextInRotation(config.GetAvailableThemes(), config.currentTheme)
  }

  /** `switchTheme`: refuses a theme that fails validation, and otherwise
      makes it the active one. */
  method SwitchTheme(config: ThemeConfig, themeId: string) returns (ok: bool)
    modifies config
    ensures ok <==> themeId in config.themes && WellFormedTheme(config.themes[themeId])
    ensures ok <==> themeId in BuiltInThemes()
    ensures config.currentTheme == if ok then themeId else old(config.currentTheme)
  {
    var validation := config.ValidateTheme(themeId);
    if !validation.valid {
      return false;
    }
    ok := config.SetTheme(themeId);
    BuiltInThemesWellFormed();
  }

  /** `cycleTheme`: switches to the next theme in the rotation and returns
      it. */
  method CycleTheme(config: ThemeConfig) returns (next: string)
    modifies config
    ensures next == old(GetNextTheme(config))
    ensures config.currentTheme == next
  {
    next := GetNextTheme(config);
    var _ := SwitchTheme(config, next);
  }

  /** `getAllThemeInfo`: the info of every theme offered for cycling, in
      order; each of them is registered, so none is null. */
  function GetAllThemeInfo(config: ThemeConfig): (r: seq<Option<ThemeInfo>>)
    reads config
    ensures |r| == |config.GetAvailableThemes()|
    ensures forall i :: 0 <= i < |r| ==> r[i] == config.GetThemeInfo(config.GetAvailableThemes()[i]) && r[i].Some?
  {
    var themes := config.GetAvailableThemes();
    seq(|themes|, i requires 0 <= i < |themes| reads config => config.GetThemeInfo(themes[i]))
  }

  /** The elements whose asset base is missing (undefined or empty), in
      order. */
  function MissingElementAssets(elements: seq<ElementDef>): (r: seq<MissingAsset>)
    ensures r == [] <==> forall i :: 0 <= i < |elements| ==> elements[i].assetBase != ""
    ensures |r| <= |elements|
  {
    if elements == [] then []
    else
      var last := elements[|elements| - 1];
      MissingElementAssets(elements[..|elements| - 1])
      + (if last.assetBase == "" then [ElementAsset(last.displayName)] else [])
  }

  /** The report `checkThemeAssets` builds for a registered theme; reading
      the asset base of an absent feedback symbol throws a TypeError. */
  function ThemeAssetReport(t: Theme): (r: Result<AssetReport>)
    ensures r.Err? <==> "perfect" !in t.feedback || "close" !in t.feedback
    ensures r.Ok? ==> (r.value.complete <==> r.value.missingAssets == [])
    ensures r.Ok? ==> (r.value.complete <==>
                         && (forall i :: 0 <= i < |t.elements| ==> t.elements[i].assetBase != "")
                         && t.feedback["perfect"].assetBase != ""
                         && t.feedback["close"].assetBase != "")
  {
    if "perfect" !in t.feedback || "close" !in t.feedback then Err(TypeError)
    else
      var missing := MissingElementAssets(t.elements)
        + MissingFeedbackAsset(t.feedback, "perfect") + MissingFeedbackAsset(t.feedback, "close");
      Ok(AssetReport(|missing| == 0, missing))
  }

  /** The symbol, when its asset base is empty. */
  function MissingFeedbackAsset(feedback: map<string, FeedbackDef>, symbol: string): (r: seq<MissingAsset>)
    requires symbol in feedback
    ensures r == [] <==> feedback[symbol].assetBase != ""
  {
    if feedback[symbol].assetBase == "" then [FeedbackAsset(symbol)] else []
  }

  /** `checkThemeAssets`: "Theme not found" for an unknown id; otherwise
      each element without an asset base, then each feedback symbol
      without one. */
  method CheckThemeAssets(config: ThemeConfig, themeId: string) returns (r: Result<AssetReport>)
    ensures themeId !in config.themes ==> r == Ok(AssetReport(false, [ThemeNotFound]))
    ensures themeId in config.themes ==> r == ThemeAssetReport(config.themes[themeId])
  {
    if themeId !in config.themes {
      return Ok(AssetReport(false, [ThemeNotFound]));
    }
    var theme := config.themes[themeId];
    var missingAssets := CollectMissingElements(theme.elements);
    if "perfect" !in theme.feedback {
      return Err(TypeError);
    }
    missingAssets := missingAssets + MissingFeedbackAsset(theme.feedback, "perfect");
    if "close" !in theme.feedback {
      return Err(TypeError);
    }
    missingAssets := missingAssets + MissingFeedbackAsset(theme.feedback, "close");
    r := Ok(AssetReport(|missingAssets| == 0, missingAssets));
  }

  /** The element loop of `checkThemeAssets`: each element without an asset
      base, in order. */
  method CollectMissingElements(elements: seq<ElementDef>) returns (missingAssets: seq<MissingAsset>)
    ensures missingAssets == MissingElementAssets(elements)
  {
    missingAssets := [];
    var i := 0;
    while i < |elements|
      invariant 0 <= i <= |elements|
      invariant missingAssets == MissingElementAssets(elements[..i])
    {
      assert elements[..i + 1][..i] == elements[..i];
      if elements[i].assetBase == "" {
        missingAssets := missingAssets + [ElementAsset(elements[i].displayName)];
      }
      i := i + 1;
    }
    assert elements[..i] == elements;
  }

  /** Both built-in themes name an asset for every element and symbol. */
  lemma BuiltInAssetsComplete()
    ensures forall id :: id in BuiltInThemes() ==> ThemeAssetReport(BuiltInThemes()[id]) == Ok(AssetReport(true, []))
  {
    ChristmasAssetsComplete();
    HalloweenAssetsComplete();
  }

  lemma ChristmasAssetsComplete()
    ensures ThemeAssetReport(Christmas()) == Ok(AssetReport(true, []))
  {
    var els := Christmas().elements;
    assert forall i :: 0 <= i < |els| ==> els[i].assetBase != "";
  }

  lemma HalloweenAssetsComplete()
    ensures ThemeAssetReport(Halloween()) == Ok(AssetReport(true, []))
  {
    var els := Halloween().elements;
    assert forall i :: 0 <= i < |els| ==> els[i].assetBase != "";
  }

  /** `getThemeDisplayName`: the registered theme's name, "Unknown Theme"
      for an unregistered id. */
  function GetThemeDisplayName(config: ThemeConfig, themeId: string): (r: string)
    reads config
    ensures themeId in config.themes ==> r == config.themes[themeId].name
    ensures themeId !in config.themes ==> r == "Unknown Theme"
  {
    var info := config.GetThemeInfo(themeId);
    if info.Some? then info.value.name else "Unknown Theme"
  }

  /** `initialize`: a saved preference is restored only when it is
      non-empty, offered for cycling and registered. */
  method Initialize(config: ThemeConfig, savedTheme: Option<string>)
    modifies config
    ensures config.currentTheme ==
              if savedTheme.Some? && savedTheme.value != "" && savedTheme.value in config.GetAvailableThemes()
              then savedTheme.value else old(config.currentTheme)
  {
    var availableThemes := config.GetAvailableThemes();
    if savedTheme.Some? && savedTheme.value != "" && savedTheme.value in availableThemes {
      var _ := config.SetTheme(savedTheme.value);
    }
  }
}

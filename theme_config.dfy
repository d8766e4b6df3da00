/** js/config/ThemeConfig.js: the theme registry, the active theme, and the
    lookups that turn element names into asset names and paths. The
    registry and the list of themes offered for cycling never change; only
    the active theme id does. */
module ThemeConfig {
  import opened Wrappers

  datatype ElementDef = ElementDef(id: string, displayName: string, assetBase: string)
  datatype FeedbackDef = FeedbackDef(assetBase: string, displayName: string, symbol: string)
  datatype Gradient = Gradient(top: string, bottom: string)

  /** One registry entry. Feedback symbols, colour groups, backgrounds and
      audio files are keyed by name as in the source's nested objects. */
  datatype Theme = Theme(
    id: string,
    name: string,
    displayName: string,
    elements: seq<ElementDef>,
    feedback: map<string, FeedbackDef>,
    colors: map<string, map<string, string>>,
    backgrounds: map<string, Gradient>,
    audio: map<string, string>,
    assetPath: string)

  /** What `getThemeInfo` returns. */
  datatype ThemeInfo = ThemeInfo(id: string, name: string, displayName: string)

  /** The reasons `validateTheme` reports. */
  datatype ThemeError = NotFound(themeId: string) | WrongElementCount | MissingFeedback | MissingColors

  /** What `validateTheme` returns. */
  datatype Validation = Validation(valid: bool, errors: seq<ThemeError>)

  function Christmas(): Theme
  {
    Theme(
      "christmas", "Christmas", "\U{1F384} Christmas \U{1F381}\nMasterMind",
      [ ElementDef("santa", "Santa", "santa"),
        ElementDef("present", "Present", "present"),
        ElementDef("candycane", "Candy Cane", "candycane"),
        ElementDef("star", "Star", "star"),
        ElementDef("tree", "Tree", "tree"),
        ElementDef("snowflake", "Snowflake", "snowflake") ],
      map["perfect" := FeedbackDef("feedback_perfect_star", "Star", "\U{2605}"),
          "close" := FeedbackDef("feedback_close_bell", "Bell", "\U{1F514}")],
      map["primary" := map["bg" := "#0F4C36", "hover" := "#1a6b4a", "active" := "#0a3d2a", "fg" := "#ffffff"],
          "accent" := map["bg" := "#DAA520", "hover" := "#F4D03F", "active" := "#B8860B", "fg" := "#0F4C36"],
          "danger" := map["bg" := "#A0342B", "hover" := "#C0392B", "active" := "#7A2920", "fg" := "#ffffff"],
          "disabled" := map["bg" := "#444444", "fg" := "#bbbbbb"],
          "border" := map["gold" := "#DAA520", "white" := "#ffffff", "darkGreen" := "#0a3d2a"]],
      map["traditional" := Gradient("#0d3820", "#051610"),
          "festive" := Gradient("#1e4d3f", "#0a2817"),
          "winter" := Gradient("#2C4F6B", "#1A3445"),
          "red" := Gradient("#8B1538", "#4A0E1F")],
      map["background" := "jingle_bells.mp3", "success" := "ho_ho_ho.mp3", "win" := "tada.mp3"],
      "assets/")
  }

  function Halloween(): Theme
  {
    Theme(
      "halloween", "Halloween", "\U{1F383} Halloween \U{1F47B}\nMasterMind",
      [ ElementDef("pumpkin", "Pumpkin", "pumpkin"),
        ElementDef("ghost", "Ghost", "ghost"),
        ElementDef("bat", "Bat", "bat"),
        ElementDef("witch", "Witch Hat", "witch"),
        ElementDef("spider", "Spider", "spider"),
        ElementDef("skull", "Skull", "skull") ],
      map["perfect" := FeedbackDef("feedback_perfect_moon", "Moon", "\U{1F319}"),
          "close" := FeedbackDef("feedback_close_cauldron", "Cauldron", "\U{1F52E}")],
      map["primary" := map["bg" := "#FF6600", "hover" := "#FF7F2A", "active" := "#CC5200", "fg" := "#000000"],
          "accent" := map["bg" := "#8B4789", "hover" := "#A05B9E", "active" := "#6B3669", "fg" := "#ffffff"],
          "danger" := map["bg" := "#CC0000", "hover" := "#E60000", "active" := "#990000", "fg" := "#ffffff"],
          "disabled" := map["bg" := "#444444", "fg" := "#bbbbbb"],
          "border" := map["gold" := "#FF6600", "white" := "#ffffff", "darkGreen" := "#2d1b00"]],
      map["traditional" := Gradient("#1a0d33", "#0d0619"),
          "festive" := Gradient("#2d1b4f", "#1a0d33"),
          "winter" := Gradient("#331a00", "#1a0d00"),
          "red" := Gradient("#660000", "#330000")],
      map["background" := "spooky_music.mp3", "success" := "witch_cackle.mp3", "win" := "halloween_win.mp3"],
      "assets/themes/halloween/")
  }

  /** The `themes` registry. */
  function BuiltInThemes(): map<string, Theme>
  {
    map["christmas" := Christmas(), "halloween" := Halloween()]
  }

  /** The characters JavaScript's `\s` matches: space, tab, line feed,
      vertical tab, form feed and carriage return, and the wider ones below. */
  predicate IsJsSpace(c: char)
  {
    c == ' ' || ('\t' <= c <= '\r') || ('\U{A0}' <= c && IsWideSpace(c))
  }

  /** The non-ASCII characters JavaScript's `\s` matches. */
  predicate IsWideSpace(c: char)
  {
    c == '\U{A0}' || c == '\U{1680}' || ('\U{2000}' <= c <= '\U{200A}')
    || c == '\U{2028}' || c == '\U{2029}' || c == '\U{202F}' || c == '\U{205F}'
    || c == '\U{3000}' || c == '\U{FEFF}'
  }

  predicate IsUpper(c: char)
  {
    'A' <= c <= 'Z'
  }

  /** `toLowerCase` on one character, for the ASCII letters. */
  function ToLower(c: char): (r: char)
    ensures !IsUpper(r) && (IsJsSpace(r) <==> IsJsSpace(c))
    ensures !IsUpper(c) ==> r == c
  {
    if IsUpper(c) then (c as int + 32) as char else c
  }

  /** `s.toLowerCase().replace(/\s+/g, '')`: letters lowered, whitespace
      removed, everything else kept in order. */
  function Normalize(s: string): (r: string)
    ensures |r| <= |s|
  {
    if s == [] then []
    else (if IsJsSpace(s[0]) then [] else [ToLower(s[0])]) + Normalize(s[1..])
  }

  /** A normalised name is no longer than the name and holds neither
      whitespace nor capitals. */
  lemma {:induction false} NormalizeClean(s: string)
    ensures |Normalize(s)| <= |s|
    ensures forall k :: 0 <= k < |Normalize(s)| ==> !IsJsSpace(Normalize(s)[k]) && !IsUpper(Normalize(s)[k])
  {
    if s != [] {
      NormalizeClean(s[1..]);
    }
  }

  /** Normalising works piece by piece. */
  lemma {:induction false} NormalizeAppend(a: string, b: string)
    ensures Normalize(a + b) == Normalize(a) + Normalize(b)
  {
    if a == [] {
      assert a + b == b;
    } else {
      var head := if IsJsSpace(a[0]) then [] else [ToLower(a[0])];
      assert (a + b)[0] == a[0];
      assert (a + b)[1..] == a[1..] + b;
      NormalizeAppend(a[1..], b);
      calc {
        Normalize(a + b);
        head + Normalize(a[1..] + b);
        head + (Normalize(a[1..]) + Normalize(b));
        (head + Normalize(a[1..])) + Normalize(b);
      }
    }
  }

  /** A name already in normal form is left as it is. */
  lemma {:induction false} NormalizeFixed(s: string)
    requires forall k :: 0 <= k < |s| ==> !IsJsSpace(s[k]) && !IsUpper(s[k])
    ensures Normalize(s) == s
  {
    if s != [] {
      NormalizeFixed(s[1..]);
      assert [s[0]] + s[1..] == s;
    }
  }

  /** A name that starts with a visible character keeps it, lowered, in
      front. */
  lemma NormalizeHead(s: string)
    requires s != [] && !IsJsSpace(s[0])
    ensures Normalize(s) != [] && Normalize(s)[0] == ToLower(s[0])
  {
  }

  /** A normalised name is its own normal form. */
  lemma {:induction false} NormalizeIdempotent(s: string)
    ensures Normalize(Normalize(s)) == Normalize(s)
  {
    if s != [] {
      var head := if IsJsSpace(s[0]) then [] else [ToLower(s[0])];
      NormalizeAppend(head, Normalize(s[1..]));
      NormalizeIdempotent(s[1..]);
      if head != [] {
        assert head[1..] == [];
      }
    }
  }

  /** The lookup `getElementAssetBase` makes for one element. */
  predicate Matches(e: ElementDef, normalizedName: string)
  {
    Normalize(e.displayName) == normalizedName || e.id == normalizedName
  }

  /** `elements.find(...)`, returning the asset base of the first element
      whose normalised display name or id is the normalised name. */
  function FindAssetBase(elements: seq<ElementDef>, normalizedName: string): (r: Option<string>)
    ensures r.None? <==> forall i :: 0 <= i < |elements| ==> !Matches(elements[i], normalizedName)
    ensures r.Some? ==> exists i :: 0 <= i < |elements| && Matches(elements[i], normalizedName)
                                   && r.value == elements[i].assetBase
                                   && forall j :: 0 <= j < i ==> !Matches(elements[j], normalizedName)
  {
    if elements == [] then None
    else if Matches(elements[0], normalizedName) then Some(elements[0].assetBase)
    else
      var r := FindAssetBase(elements[1..], normalizedName);
      if r.Some? then
        var i :| 0 <= i < |elements[1..]| && Matches(elements[1..][i], normalizedName)
                 && r.value == elements[1..][i].assetBase
                 && forall j :: 0 <= j < i ==> !Matches(elements[1..][j], normalizedName);
        assert Matches(elements[i + 1], normalizedName) && r.value == elements[i + 1].assetBase;
        assert forall j :: 0 <= j < i + 1 ==> !Matches(elements[j], normalizedName) by {
          forall j | 0 <= j < i + 1 ensures !Matches(elements[j], normalizedName) {
            if j > 0 {
              assert elements[j] == elements[1..][j - 1];
            }
          }
        }
        r
      else r
  }

  /** `getElementAssetBase` against a given theme. */
  function ElementAssetBase(theme: Theme, displayName: string): (r: Option<string>)
    ensures r.None? <==> forall i :: 0 <= i < |theme.elements| ==> !Matches(theme.elements[i], Normalize(displayName))
  {
    FindAssetBase(theme.elements, Normalize(displayName))
  }

  /** The two words of "Candy Cane", each lowered; the space goes. */
  lemma NormalizeCandyWords()
    ensures Normalize("Candy") == "candy" && Normalize(" Cane") == "cane"
  {
  }

  /** "Candy Cane" normalises to "candycane". */
  lemma NormalizeCandyCane()
    ensures Normalize("Candy Cane") == "candycane"
  {
    NormalizeCandyWords();
    assert "Candy Cane" == "Candy" + " Cane";
    NormalizeAppend("Candy", " Cane");
    assert "candy" + "cane" == "candycane";
  }

  /** In the Christmas theme the third element is the first to match
      "candycane". */
  lemma FindCandyCane()
    ensures FindAssetBase(Christmas().elements, "candycane") == Some("candycane")
  {
    var els := Christmas().elements;
    NormalizeHead(els[0].displayName);
    NormalizeHead(els[1].displayName);
    assert !Matches(els[0], "candycane");
    assert !Matches(els[1], "candycane");
    assert Matches(els[2], "candycane");
    assert els[1..][1..][0] == els[2];
  }

  /** Spacing and capitals do not matter: the element shown as "Candy
      Cane" is found from its display name ... */
  lemma CandyCaneLookup()
    ensures ElementAssetBase(Christmas(), "Candy Cane") == Some("candycane")
  {
    NormalizeCandyCane();
    FindCandyCane();
  }

  /** ... and from its id. */
  lemma CandyCaneIdLookup()
    ensures ElementAssetBase(Christmas(), "candycane") == Some("candycane")
  {
    NormalizeFixed("candycane");
    FindCandyCane();
  }

  /** An element whose display name starts with a visible character and
      whose id is not empty does not match a name that starts with neither
      that character lowered nor its id's first character. */
  lemma HeadMismatch(e: ElementDef, n: string)
    requires n != [] && e.displayName != [] && !IsJsSpace(e.displayName[0]) && e.id != []
    requires ToLower(e.displayName[0]) != n[0] && e.id[0] != n[0]
    ensures !Matches(e, n)
  {
    NormalizeHead(e.displayName);
  }

  /** No Christmas element's name or id normalises to a word that starts
      with 'm'. */
  lemma NoChristmasElementStartsWithM(n: string)
    requires n != [] && n[0] == 'm'
    ensures forall i :: 0 <= i < |Christmas().elements| ==> !Matches(Christmas().elements[i], n)
  {
    var els := Christmas().elements;
    forall i | 0 <= i < |els| ensures !Matches(els[i], n) {
      HeadMismatch(els[i], n);
    }
  }

  /** The game's fixed element list names a "Mistletoe" that the Christmas
      theme does not have, so no asset base is found for it. */
  lemma MistletoeHasNoAsset()
    ensures ElementAssetBase(Christmas(), "Mistletoe") == None
  {
    NormalizeHead("Mistletoe");
    NoChristmasElementStartsWithM(Normalize("Mistletoe"));
  }

  /** The checks `validateTheme` makes of a registered theme. */
  predicate WellFormedTheme(t: Theme)
  {
    && |t.elements| == 6
    && "perfect" in t.feedback && "close" in t.feedback
    && "primary" in t.colors && "accent" in t.colors && "danger" in t.colors
  }

  /** Both built-in themes pass validation. */
  lemma BuiltInThemesWellFormed()
    ensures forall id :: id in BuiltInThemes() ==> WellFormedTheme(BuiltInThemes()[id])
  {
  }

  class ThemeConfig {
    var currentTheme: string
    const availableThemes: seq<string> := ["christmas"]
    const themes: map<string, Theme> := BuiltInThemes()

    constructor()
      ensures currentTheme == "christmas"
    {
      currentTheme := "christmas";
    }

    /** `getCurrentTheme`: the active theme, or Christmas when the active id
        is not registered. */
    function GetCurrentTheme(): (t: Theme)
      reads this
      ensures currentTheme in themes ==> t == themes[currentTheme]
      ensures currentTheme !in themes ==> t == Christmas()
    {
      if currentTheme in themes then themes[currentTheme] else themes["christmas"]
    }

    /** `setTheme`: switches only to a registered theme, and says whether it
        did. */
    method SetTheme(themeId: string) returns (ok: bool)
      modifies this
      ensures ok <==> themeId in themes
      ensures currentTheme == if ok then themeId else old(currentTheme)
    {
      if themeId in themes {
        currentTheme := themeId;
        return true;
      }
      return false;
    }

    /** `getElements`: the active theme's element display names, in order. */
    function GetElements(): (r: seq<string>)
      reads this
      ensures |r| == |GetCurrentTheme().elements|
      ensures forall i :: 0 <= i < |r| ==> r[i] == GetCurrentTheme().elements[i].displayName
    {
      var els := GetCurrentTheme().elements;
      seq(|els|, i requires 0 <= i < |els| => els[i].displayName)
    }

    /** `getElementAssetBase` for the active theme. */
    function GetElementAssetBase(displayName: string): (r: Option<string>)
      reads this
      ensures r == ElementAssetBase(GetCurrentTheme(), displayName)
    {
      FindAssetBase(GetCurrentTheme().elements, Normalize(displayName))
    }

    /** `getFeedbackAssetBase`: the asset base of the named feedback symbol,
        null when the active theme has none by that name. */
    function GetFeedbackAssetBase(symbolType: string): (r: Option<string>)
      reads this
      ensures r.Some? <==> symbolType in GetCurrentTheme().feedback
      ensures r.Some? ==> r.value == GetCurrentTheme().feedback[symbolType].assetBase
    {
      var fb := GetCurrentTheme().feedback;
      if symbolType in fb then Some(fb[symbolType].assetBase) else None
    }

    /** `getAudioPath`: "" for an unknown audio type (or an empty file
        name), otherwise the file under the theme's `audio/` directory. */
    function GetAudioPath(audioType: string): (r: string)
      reads this
      ensures var t := GetCurrentTheme();
              if audioType in t.audio && t.audio[audioType] != ""
              then r == t.assetPath + "audio/" + t.audio[audioType]
              else r == ""
    {
      var theme := GetCurrentTheme();
      if audioType !in theme.audio || theme.audio[audioType] == "" then ""
      else theme.assetPath + "audio/" + theme.audio[audioType]
    }

    /** `getAssetPath`: the theme's asset directory, the asset base, an
        underscore, the resolution ("1x" when omitted) and ".png". */
    function GetAssetPath(assetBase: string, resolution: Option<string>): (r: string)
      reads this
      ensures var res := if resolution.Some? then resolution.value else "1x";
              && |r| == |GetCurrentTheme().assetPath| + |assetBase| + 1 + |res| + 4
              && r[..|GetCurrentTheme().assetPath|] == GetCurrentTheme().assetPath
              && r[|GetCurrentTheme().assetPath|..|r| - 4] == assetBase + "_" + res
              && r[|r| - 4..] == ".png"
    {
      var res := if resolution.Some? then resolution.value else "1x";
      var path := GetCurrentTheme().assetPath;
      var r := path + assetBase + "_" + res + ".png";
      assert r == path + (assetBase + "_" + res) + ".png";
      assert r[..|path|] == path;
      r
    }

    /** `getAvailableThemes`: the cycling list (an array, so always truthy;
        the fallback to every registered id is never taken). */
    function GetAvailableThemes(): (r: seq<string>)
      reads this
      ensures |r| > 0 && forall i :: 0 <= i < |r| ==> r[i] in themes
    {
      availableThemes
    }

    /** `getThemeInfo`: null exactly for an unregistered id. */
    function GetThemeInfo(themeId: string): (r: Option<ThemeInfo>)
      reads this
      ensures r.None? <==> themeId !in themes
      ensures r.Some? ==> r.value == ThemeInfo(themes[themeId].id, themes[themeId].name, themes[themeId].displayName)
    {
      if themeId !in themes then None
      else
        var t := themes[themeId];
        Some(ThemeInfo(t.id, t.name, t.displayName))
    }

    /** `validateTheme`: a single "does not exist" error for an unknown id;
        otherwise one error per failed check, in the source's order, and
        valid exactly when there is none. */
    method ValidateTheme(themeId: string) returns (v: Validation)
      ensures v.valid <==> v.errors == []
      ensures v.valid <==> themeId in themes && WellFormedTheme(themes[themeId])
      ensures themeId !in themes ==> v.errors == [NotFound(themeId)]
      ensures themeId in themes ==>
                && (WrongElementCount in v.errors <==> |themes[themeId].elements| != 6)
                && (MissingFeedback in v.errors <==> !("perfect" in themes[themeId].feedback && "close" in themes[themeId].feedback))
                && (MissingColors in v.errors <==> !("primary" in themes[themeId].colors && "accent" in themes[themeId].colors
                                                     && "danger" in themes[themeId].colors))
                && |v.errors| <= 3
      ensures themeId in themes ==>
                var t := themes[themeId];
                v.errors == (if |t.elements| != 6 then [WrongElementCount] else [])
                            + (if !("perfect" in t.feedback && "close" in t.feedback) then [MissingFeedback] else [])
                            + (if !("primary" in t.colors && "accent" in t.colors && "danger" in t.colors)
                               then [MissingColors] else [])
    {
      if themeId !in themes {
        return Validation(false, [NotFound(themeId)]);
      }
      var theme := themes[themeId];
      var errors: seq<ThemeError> := [];
      if |theme.elements| != 6 {
        errors := errors + [WrongElementCount];
      }
      if !("perfect" in theme.feedback && "close" in theme.feedback) {
        errors := errors + [MissingFeedback];
      }
      if !("primary" in theme.colors && "accent" in theme.colors && "danger" in theme.colors) {
        errors := errors + [MissingColors];
      }
      v := Validation(|errors| == 0, errors);
    }
  }
}

/**
 * Print settings and their front-matter form (types.ts:1-9, 26-70).
 *
 * Front matter is modelled as a map from YAML keys to YAML scalars; how
 * the map is written out as YAML text is the front-matter codec's business
 * (see the Document module).
 */
module Settings {
  datatype PrintSettings = PrintSettings(
    headerLeft: string,
    headerCenter: string,
    headerRight: string,
    footerLeft: string,
    footerCenter: string,
    footerRight: string,
    excludeFirstPage: bool)

  /** `DEFAULT_PRINT_SETTINGS`: every cell empty, the first page numbered. */
  const Default: PrintSettings := PrintSettings("", "", "", "", "", "", false)

  /** `isDefaultPrintSettings`: a field-by-field comparison with the defaults. */
  function IsDefault(s: PrintSettings): (b: bool)
    ensures b <==> s == Default
  {
    s.headerLeft == "" && s.headerCenter == "" && s.headerRight == "" &&
    s.footerLeft == "" && s.footerCenter == "" && s.footerRight == "" &&
    !s.excludeFirstPage
  }

  /** A YAML scalar as the front-matter parser hands it over; `Other` stands for numbers, lists and maps. */
  datatype Value = Str(s: string) | Bool(b: bool) | Null | Other

  type Yaml = map<string, Value>

  const HeaderLeftKey: string := "header_left"
  const HeaderCenterKey: string := "header_center"
  const HeaderRightKey: string := "header_right"
  const FooterLeftKey: string := "footer_left"
  const FooterCenterKey: string := "footer_center"
  const FooterRightKey: string := "footer_right"
  const ExcludeFirstPageKey: string := "exclude_first_page"

  const TextKeys: set<string> := {HeaderLeftKey, HeaderCenterKey, HeaderRightKey,
                                  FooterLeftKey, FooterCenterKey, FooterRightKey}
  const Keys: set<string> := TextKeys + {ExcludeFirstPageKey}

  /** `printSettingsToYaml`: one entry per setting, under its snake_case key. */
  function ToYaml(s: PrintSettings): (m: Yaml)
    ensures m.Keys == Keys
    ensures forall k :: k in TextKeys ==> m[k].Str?
    ensures m[ExcludeFirstPageKey] == Bool(s.excludeFirstPage)
  {
    map[HeaderLeftKey := Str(s.headerLeft),
        HeaderCenterKey := Str(s.headerCenter),
        HeaderRightKey := Str(s.headerRight),
        FooterLeftKey := Str(s.footerLeft),
        FooterCenterKey := Str(s.footerCenter),
        FooterRightKey := Str(s.footerRight),
        ExcludeFirstPageKey := Bool(s.excludeFirstPage)]
  }

  /** `(data[key] as string) ?? ''`: a missing or null entry reads as the empty string. */
  function TextAt(m: Yaml, key: string): string
  {
    if key in m && m[key].Str? then m[key].s else ""
  }

  /** `(data[key] as boolean) ?? false`: a missing or null entry reads as false. */
  function FlagAt(m: Yaml, key: string): bool
  {
    if key in m && m[key].Bool? then m[key].b else false
  }

  /** `yamlToPrintSettings`: each setting from its key, defaulting when the key is absent or null. */
  function FromYaml(m: Yaml): (s: PrintSettings)
    ensures m == map[] ==> s == Default
  {
    PrintSettings(
      TextAt(m, HeaderLeftKey), TextAt(m, HeaderCenterKey), TextAt(m, HeaderRightKey),
      TextAt(m, FooterLeftKey), TextAt(m, FooterCenterKey), TextAt(m, FooterRightKey),
      FlagAt(m, ExcludeFirstPageKey))
  }

  /**
   * Each setting is read from its own key on its own: a string entry gives that
   * string, and a missing or null entry gives the default, whatever the other keys hold.
   */
  lemma FromYamlPerKey(m: Yaml)
    ensures var r := FromYaml(m);
      (HeaderLeftKey in m && m[HeaderLeftKey].Str? ==> r.headerLeft == m[HeaderLeftKey].s) &&
      (HeaderLeftKey !in m || m[HeaderLeftKey].Null? ==> r.headerLeft == "")
    ensures var r := FromYaml(m);
      (HeaderCenterKey in m && m[HeaderCenterKey].Str? ==> r.headerCenter == m[HeaderCenterKey].s) &&
      (HeaderCenterKey !in m || m[HeaderCenterKey].Null? ==> r.headerCenter == "")
    ensures var r := FromYaml(m);
      (HeaderRightKey in m && m[HeaderRightKey].Str? ==> r.headerRight == m[HeaderRightKey].s) &&
      (HeaderRightKey !in m || m[HeaderRightKey].Null? ==> r.headerRight == "")
    ensures var r := FromYaml(m);
      (FooterLeftKey in m && m[FooterLeftKey].Str? ==> r.footerLeft == m[FooterLeftKey].s) &&
      (FooterLeftKey !in m || m[FooterLeftKey].Null? ==> r.footerLeft == "")
    ensures var r := FromYaml(m);
      (FooterCenterKey in m && m[FooterCenterKey].Str? ==> r.footerCenter == m[FooterCenterKey].s) &&
      (FooterCenterKey !in m || m[FooterCenterKey].Null? ==> r.footerCenter == "")
    ensures var r := FromYaml(m);
      (FooterRightKey in m && m[FooterRightKey].Str? ==> r.footerRight == m[FooterRightKey].s) &&
      (FooterRightKey !in m || m[FooterRightKey].Null? ==> r.footerRight == "")
    ensures var r := FromYaml(m);
      (ExcludeFirstPageKey in m && m[ExcludeFirstPageKey].Bool? ==> r.excludeFirstPage == m[ExcludeFirstPageKey].b) &&
      (ExcludeFirstPageKey !in m || m[ExcludeFirstPageKey].Null? ==> !r.excludeFirstPage)
  {
  }

  /** Every setting key that is present holds a value of the type the setting declares (or null). */
  predicate WellTyped(m: Yaml)
  {
    (forall k :: k in TextKeys && k in m ==> m[k].Str? || m[k].Null?) &&
    (ExcludeFirstPageKey in m ==> m[ExcludeFirstPageKey].Bool? || m[ExcludeFirstPageKey].Null?)
  }

  /** Writing the settings as front matter and reading them back restores them. */
  lemma YamlRoundTrip(s: PrintSettings)
    ensures WellTyped(ToYaml(s))
    ensures FromYaml(ToYaml(s)) == s
  {
  }

  /** Reading ignores every key that is not a setting key. */
  lemma ForeignKeysIgnored(m: Yaml, extra: Yaml)
    requires extra.Keys !! Keys
    ensures FromYaml(m + extra) == FromYaml(m - extra.Keys)
  {
    assert forall k :: k in Keys ==> (k in m + extra <==> k in m - extra.Keys);
    assert forall k :: k in Keys && k in m - extra.Keys ==> (m + extra)[k] == m[k];
  }

  /** A null entry reads exactly like a missing one. */
  lemma NullIsMissing(m: Yaml, key: string)
    ensures FromYaml(m[key := Null]) == FromYaml(m - {key})
  {
  }

  /** Each entry feeds only its own setting: changing one key leaves every other setting as it was. */
  lemma KeyLocality(m: Yaml, v: Value)
    ensures var r := FromYaml(m[HeaderLeftKey := v]);
      r == FromYaml(m).(headerLeft := r.headerLeft)
    ensures var r := FromYaml(m[HeaderCenterKey := v]);
      r == FromYaml(m).(headerCenter := r.headerCenter)
    ensures var r := FromYaml(m[HeaderRightKey := v]);
      r == FromYaml(m).(headerRight := r.headerRight)
    ensures var r := FromYaml(m[FooterLeftKey := v]);
      r == FromYaml(m).(footerLeft := r.footerLeft)
    ensures var r := FromYaml(m[FooterCenterKey := v]);
      r == FromYaml(m).(footerCenter := r.footerCenter)
    ensures var r := FromYaml(m[FooterRightKey := v]);
      r == FromYaml(m).(footerRight := r.footerRight)
    ensures var r := FromYaml(m[ExcludeFirstPageKey := v]);
      r == FromYaml(m).(excludeFirstPage := r.excludeFirstPage)
  {
    KeysDistinct();
    ReadsElsewhere(m, HeaderLeftKey, v);
    ReadsElsewhere(m, HeaderCenterKey, v);
    ReadsElsewhere(m, HeaderRightKey, v);
    ReadsElsewhere(m, FooterLeftKey, v);
    ReadsElsewhere(m, FooterCenterKey, v);
    ReadsElsewhere(m, FooterRightKey, v);
    ReadsElsewhere(m, ExcludeFirstPageKey, v);
  }

  lemma ReadsElsewhere(m: Yaml, k: string, v: Value)
    ensures forall j :: j != k ==> TextAt(m[k := v], j) == TextAt(m, j) && FlagAt(m[k := v], j) == FlagAt(m, j)
  {
  }

  /** The seven keys differ pairwise, by length or by first letter. */
  lemma KeysDistinct()
    ensures HeaderLeftKey != HeaderCenterKey && HeaderLeftKey != HeaderRightKey && HeaderLeftKey != FooterLeftKey
    ensures HeaderLeftKey != FooterCenterKey && HeaderLeftKey != FooterRightKey && HeaderLeftKey != ExcludeFirstPageKey
    ensures HeaderCenterKey != HeaderRightKey && HeaderCenterKey != FooterLeftKey && HeaderCenterKey != FooterCenterKey
    ensures HeaderCenterKey != FooterRightKey && HeaderCenterKey != ExcludeFirstPageKey && HeaderRightKey != FooterLeftKey
    ensures HeaderRightKey != FooterCenterKey && HeaderRightKey != FooterRightKey && HeaderRightKey != ExcludeFirstPageKey
    ensures FooterLeftKey != FooterCenterKey && FooterLeftKey != FooterRightKey && FooterLeftKey != ExcludeFirstPageKey
    ensures FooterCenterKey != FooterRightKey && FooterCenterKey != ExcludeFirstPageKey && FooterRightKey != ExcludeFirstPageKey
  {
    assert |HeaderLeftKey| == 11 && |HeaderCenterKey| == 13 && |HeaderRightKey| == 12;
    assert |FooterLeftKey| == 11 && |FooterCenterKey| == 13 && |FooterRightKey| == 12;
    assert |ExcludeFirstPageKey| == 18;
    assert HeaderLeftKey[0] == 'h' && HeaderCenterKey[0] == 'h' && HeaderRightKey[0] == 'h';
    assert FooterLeftKey[0] == 'f' && FooterCenterKey[0] == 'f' && FooterRightKey[0] == 'f';
  }

  /** Reading a well-typed map and writing the result back keeps every present, non-null setting entry. */
  lemma YamlKeepsEntries(m: Yaml)
    requires WellTyped(m)
    ensures forall k :: k in Keys && k in m && !m[k].Null? ==> ToYaml(FromYaml(m))[k] == m[k]
  {
  }

  /** Settings read from the defaults' front matter, or from none at all, are default. */
  lemma DefaultYaml()
    ensures IsDefault(FromYaml(ToYaml(Default)))
    ensures IsDefault(FromYaml(map[]))
  {
    YamlRoundTrip(Default);
  }
}

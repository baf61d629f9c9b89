/**
 * Theme lookup with fallback (frontend/src/themes/index.ts). The catalogue
 * itself is data outside this model; it is a parameter here, listed in the
 * order `Object.keys` and `Object.values` report its keys in. For keys that
 * are not array indices that is declaration order; keys such as "1" would
 * come first, in ascending numeric order.
 */
module Themes {
  import opened Wrappers
  import opened Types

  /** The catalogue as (key, theme) entries, in the order `Object.keys` lists them. */
  type ThemeTable = seq<(string, Theme)>

  const DefaultName: string := "default"

  /** A catalogue an object literal can denote: no key twice, and it has the fallback key. */
  predicate IsCatalogue(table: ThemeTable)
  {
    && (forall i, j :: 0 <= i < j < |table| ==> table[i].0 != table[j].0)
    && DefaultName in GetThemeNames(table)
  }

  /** `Object.keys(themes)`. */
  function GetThemeNames(table: ThemeTable): (names: seq<string>)
    ensures |names| == |table|
    ensures forall i :: 0 <= i < |table| ==> names[i] == table[i].0
  {
    if table == [] then [] else [table[0].0] + GetThemeNames(table[1..])
  }

  /** `Object.values(themes)`. */
  function GetAllThemes(table: ThemeTable): (themes: seq<Theme>)
    ensures |themes| == |table|
    ensures forall i :: 0 <= i < |table| ==> themes[i] == table[i].1
  {
    if table == [] then [] else [table[0].1] + GetAllThemes(table[1..])
  }

  /** `themes[name]`: the theme under key `name`, if there is one. */
  function Lookup(table: ThemeTable, name: string): (r: Option<Theme>)
    ensures r.Some? <==> name in GetThemeNames(table)
    ensures r.Some? ==> (name, r.value) in table
  {
    if table == [] then None
    else if table[0].0 == name then Some(table[0].1)
    else Lookup(table[1..], name)
  }

  /**
   * `themes[name] || themes.default`: a theme object is never falsy, so the
   * fallback is taken exactly when the key is missing.
   */
  function GetTheme(table: ThemeTable, name: string): (t: Theme)
    requires DefaultName in GetThemeNames(table)
    ensures name in GetThemeNames(table) ==> (name, t) in table
    ensures name !in GetThemeNames(table) ==> (DefaultName, t) in table
    ensures t in GetAllThemes(table)
  {
    match Lookup(table, name)
    case Some(t) => t
    case None => Lookup(table, DefaultName).value
  }

  /** In a catalogue, the theme under the i-th key is the i-th entry's theme. */
  lemma {:induction false} LookupAt(table: ThemeTable, i: nat)
    requires forall a, b :: 0 <= a < b < |table| ==> table[a].0 != table[b].0
    requires i < |table|
    ensures Lookup(table, table[i].0) == Some(table[i].1)
  {
    if i > 0 {
      assert table[0].0 != table[i].0;
      assert table[1..][i - 1] == table[i];
      LookupAt(table[1..], i - 1);
    }
  }

  /** The i-th name keys the i-th theme: getTheme(getThemeNames()[i]) is getAllThemes()[i]. */
  lemma NamesKeyThemes(table: ThemeTable, i: nat)
    requires IsCatalogue(table)
    requires i < |table|
    ensures GetTheme(table, GetThemeNames(table)[i]) == GetAllThemes(table)[i]
  {
    LookupAt(table, i);
  }

  /** An unknown name falls back to the default theme. */
  lemma UnknownNameFallsBack(table: ThemeTable, name: string)
    requires IsCatalogue(table)
    requires name !in GetThemeNames(table)
    ensures GetTheme(table, name) == GetTheme(table, DefaultName)
  {
  }
}

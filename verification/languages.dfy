/** The language tables of the translator and the two lookups over them.

    `MENU_LANGUAGES` is a Python dict literal: it is modelled as a `map` from
    code to display name together with the dict's insertion order, because
    the reverse lookup walks `items()` in that order and stops at the first
    match.  The full registry of the translation library is not visible and
    is passed around as an opaque map. */
module Languages {
  import opened Wrappers

  type Code = string
  type Name = string

  /** The source-language code that asks the backend to detect the language. */
  const Auto: Code := "auto"

  /** The menu entry shown for auto-detection ("detect automatically"). */
  const AutoDetectName: Name := "自动检测"

  /** What `get_language_name` answers for a code the registry lacks ("unknown"). */
  const Unknown: Name := "未知"

  const ChineseSimplified: Name := "中文（简体）"
  const English: Name := "English"

  /** The menu languages, code to display name. */
  const Menu: map<Code, Name> := map["zh-cn" := ChineseSimplified, "en" := English]

  /** The insertion order of `Menu`, i.e. the order of `items()` and `values()`. */
  const MenuOrder: seq<Code> := ["zh-cn", "en"]

  /** `order` lists every key of `m` exactly once: an iteration order of a dict. */
  ghost predicate IsDictOrder(m: map<Code, Name>, order: seq<Code>)
  {
    && (forall i | 0 <= i < |order| :: order[i] in m)
    && (forall k | k in m :: k in order)
    && (forall i, j | 0 <= i < j < |order| :: order[i] != order[j])
  }

  /** No two keys of `m` share a display name. */
  ghost predicate NamesDistinct(m: map<Code, Name>)
  {
    forall c, d | c in m && d in m && c != d :: m[c] != m[d]
  }

  /** The generator `next((code for code, name in m.items() if name == n), None)`:
      the first key, in iteration order, whose value is `name`. */
  function FirstKeyNamed(m: map<Code, Name>, order: seq<Code>, name: Name): (r: Option<Code>)
    requires forall i | 0 <= i < |order| :: order[i] in m
    ensures r.None? <==> forall i | 0 <= i < |order| :: m[order[i]] != name
    ensures r.Some? ==> r.value in m && m[r.value] == name
    ensures r.Some? ==> exists i | 0 <= i < |order| ::
              order[i] == r.value && forall j | 0 <= j < i :: m[order[j]] != name
    decreases |order|
  {
    if |order| == 0 then None
    else if m[order[0]] == name then Some(order[0])
    else
      var r := FirstKeyNamed(m, order[1..], name);
      if r.Some? then
        var i :| 0 <= i < |order[1..]| && order[1..][i] == r.value
                 && forall j | 0 <= j < i :: m[order[1..][j]] != name;
        assert order[i + 1] == r.value;
        assert forall j | 0 <= j < i + 1 :: m[order[j]] != name by {
          forall j | 0 <= j < i + 1 ensures m[order[j]] != name {
            if j > 0 { assert order[j] == order[1..][j - 1]; }
          }
        }
        r
      else
        assert forall i | 1 <= i < |order| :: order[i] == order[1..][i - 1];
        r
  }

  /** When the names are distinct, the lookup of a key's own name finds that key. */
  lemma FirstKeyNamedFindsOwner(m: map<Code, Name>, order: seq<Code>, k: Code)
    requires IsDictOrder(m, order)
    requires NamesDistinct(m)
    requires k in m
    ensures FirstKeyNamed(m, order, m[k]) == Some(k)
  {
  }

  /** `list(MENU_LANGUAGES.values())`: the display names in insertion order. */
  function NamesInOrder(m: map<Code, Name>, order: seq<Code>): (names: seq<Name>)
    requires forall i | 0 <= i < |order| :: order[i] in m
    ensures |names| == |order|
    ensures forall i | 0 <= i < |order| :: names[i] == m[order[i]]
    decreases |order|
  {
    if |order| == 0 then [] else [m[order[0]]] + NamesInOrder(m, order[1..])
  }

  lemma MenuOrderIsDictOrder()
    ensures IsDictOrder(Menu, MenuOrder)
    ensures NamesDistinct(Menu)
    ensures Auto !in Menu
    ensures AutoDetectName !in Menu.Values
  {
  }

  /** The options of the target-language menu. */
  function MenuNames(): (names: seq<Name>)
    ensures forall n :: n in names <==> n in Menu.Values
  {
    NamesInOrder(Menu, MenuOrder)
  }

  /** The options of the source-language menu: auto-detection, then the menu. */
  function SourceOptions(): (names: seq<Name>)
    ensures forall n :: n in names <==> n == AutoDetectName || n in Menu.Values
  {
    [AutoDetectName] + MenuNames()
  }

  /** `get_language_code`: reverse lookup of a display name in the menu. */
  function GetLanguageCode(name: Name): (r: Option<Code>)
    ensures r.Some? ==> r.value in Menu && Menu[r.value] == name
    ensures r.None? <==> name !in Menu.Values
  {
    FirstKeyNamed(Menu, MenuOrder, name)
  }

  /** Every menu code is found again from its own display name. */
  lemma GetLanguageCodeRoundTrip(code: Code)
    requires code in Menu
    ensures GetLanguageCode(Menu[code]) == Some(code)
  {
  }

  /** `get_language_name`: the registry's name for a code, or `Unknown`; it never fails. */
  function GetLanguageName(registry: map<Code, Name>, code: Code): (r: Name)
    ensures code in registry ==> r == registry[code]
    ensures code !in registry ==> r == Unknown
  {
    if code in registry then registry[code] else Unknown
  }

  /** Every menu code is a key of the registry: assumed by the program, not checked. */
  ghost predicate MenuInRegistry(registry: map<Code, Name>)
  {
    Menu.Keys <= registry.Keys
  }

  /** Under that assumption a menu name maps to a code the registry can name. */
  lemma MenuCodeIsRegistered(registry: map<Code, Name>, name: Name)
    requires MenuInRegistry(registry)
    requires name in Menu.Values
    ensures GetLanguageCode(name).Some?
    ensures GetLanguageCode(name).value in registry
    ensures GetLanguageName(registry, GetLanguageCode(name).value) == registry[GetLanguageCode(name).value]
  {
  }

  /** The source code chosen for a source-menu selection (the rerun step of the
      source column): `Auto` for auto-detection, the menu lookup otherwise. */
  function SourceCodeFor(name: Name): (r: Option<Code>)
    ensures r == Some(Auto) <==> name == AutoDetectName
    ensures name in Menu.Values ==> r.Some? && r.value in Menu && Menu[r.value] == name
    ensures name !in SourceOptions() ==> r.None?
  {
    if name == AutoDetectName then Some(Auto) else GetLanguageCode(name)
  }
}

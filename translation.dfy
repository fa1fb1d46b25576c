/**
 * The translation service (src/app/services/translation.service.ts): the
 * current language, chosen among the languages of the translation table, and
 * key lookup with fallback to English and then to the key itself, followed by
 * placeholder substitution.
 */
module Translation {

  import opened Wrappers
  import opened Placeholders

  /** Language code to (key to translated text). */
  type Table = map<string, map<string, string>>

  const DefaultLanguage: string := "en"
  const SupportedLanguages: set<string> := {"en", "es", "pl"}

  /** The service's table has exactly the English, Spanish and Polish dictionaries. */
  predicate WellShaped(table: Table) {
    table.Keys == SupportedLanguages
  }

  /** `translations[lang]?.[key]`, with a missing entry read as the empty (falsy) string. */
  function Entry(table: Table, lang: string, key: string): string {
    if lang in table && key in table[lang] then table[lang][key] else ""
  }

  /** `translations[lang]?.[key] || translations['en'][key] || key`. */
  function Lookup(table: Table, lang: string, key: string): (r: string)
    ensures r == Entry(table, lang, key) || r == Entry(table, DefaultLanguage, key) || r == key
    ensures r == "" ==> key == ""
  {
    if Entry(table, lang, key) != "" then Entry(table, lang, key)
    else if Entry(table, DefaultLanguage, key) != "" then Entry(table, DefaultLanguage, key)
    else key
  }

  /**
   * The fallback order: a non-empty entry of the current language wins, then a
   * non-empty English entry, then the key itself.
   */
  lemma LookupFallback(table: Table, lang: string, key: string)
    ensures lang in table && key in table[lang] && table[lang][key] != ""
      ==> Lookup(table, lang, key) == table[lang][key]
    ensures !(lang in table && key in table[lang] && table[lang][key] != "")
      && "en" in table && key in table["en"] && table["en"][key] != ""
      ==> Lookup(table, lang, key) == table["en"][key]
    ensures !(lang in table && key in table[lang] && table[lang][key] != "")
      && !("en" in table && key in table["en"] && table["en"][key] != "")
      ==> Lookup(table, lang, key) == key
  {
  }

  /**
   * `translate(key, params)`: the looked-up text, with placeholders substituted when
   * parameters are given. Without parameters, or with parameters none of which has a
   * non-empty value, the looked-up text comes back unchanged.
   */
  function TranslateIn(table: Table, lang: string, key: string, params: Option<map<string, string>>): (r: string)
    ensures (params.None? || forall name :: name in params.value ==> params.value[name] == "")
      ==> r == Lookup(table, lang, key)
  {
    var text := Lookup(table, lang, key);
    if params.Some? then Substitute(text, params.value) else text
  }

  /** `tag.split('-')[0]`: the part of a language tag before its first hyphen. */
  function PrimarySubtag(tag: string): (r: string)
    ensures |r| <= |tag| && r == tag[..|r|]
    ensures forall i :: 0 <= i < |r| ==> r[i] != '-'
    ensures |r| < |tag| ==> tag[|r|] == '-'
  {
    if tag == [] || tag[0] == '-' then "" else [tag[0]] + PrimarySubtag(tag[1..])
  }

  /** The members every plain JavaScript object inherits from Object.prototype. */
  const ObjectPrototypeMembers: set<string> := {
    "constructor", "hasOwnProperty", "isPrototypeOf", "propertyIsEnumerable", "toLocaleString",
    "toString", "valueOf", "__proto__", "__defineGetter__", "__defineSetter__",
    "__lookupGetter__", "__lookupSetter__"
  }

  /** `if (this.translations[lang])` as JavaScript evaluates it: own languages and inherited members are truthy. */
  predicate HasLanguageAsWritten(table: Table, lang: string) {
    lang in table || lang in ObjectPrototypeMembers
  }

  /** A name the guard as written lets through: a supported language or an inherited member. */
  predicate Admitted(lang: string) {
    lang in SupportedLanguages || lang in ObjectPrototypeMembers
  }

  /**
   * The language the service starts with, the guards as written: an accepted saved
   * preference, else an accepted primary subtag of the browser language, else English.
   * The result is supported unless an inherited member name was saved or sent by the browser.
   */
  function InitialLanguage(table: Table, saved: Option<string>, browserLanguage: string): (lang: string)
    requires WellShaped(table)
    ensures Admitted(lang)
    ensures saved.Some? && Admitted(saved.value) ==> lang == saved.value
    ensures !(saved.Some? && Admitted(saved.value)) ==>
      lang == (if Admitted(PrimarySubtag(browserLanguage)) then PrimarySubtag(browserLanguage) else DefaultLanguage)
    ensures (saved.None? || saved.value !in ObjectPrototypeMembers) && PrimarySubtag(browserLanguage) !in ObjectPrototypeMembers
      ==> lang in SupportedLanguages
  {
    if saved.Some? && HasLanguageAsWritten(table, saved.value) then saved.value
    else if HasLanguageAsWritten(table, PrimarySubtag(browserLanguage)) then PrimarySubtag(browserLanguage)
    else DefaultLanguage
  }

  /**
   * `setLanguage` with the guard as written: an accepted name becomes current. For a
   * name that is not an inherited member it is the corrected update.
   */
  function SetLanguageAsWritten(table: Table, current: string, lang: string): (next: string)
    requires WellShaped(table) && Admitted(current)
    ensures Admitted(next)
    ensures Admitted(lang) ==> next == lang
    ensures !Admitted(lang) ==> next == current
    ensures current in SupportedLanguages && lang !in ObjectPrototypeMembers ==> next == NextLanguage(table, current, lang)
  {
    if HasLanguageAsWritten(table, lang) then lang else current
  }

  /** The guard as written lets an inherited member name become the current language. */
  lemma SetLanguageAsWrittenAcceptsInheritedName(table: Table)
    requires WellShaped(table)
    ensures SetLanguageAsWritten(table, DefaultLanguage, "constructor") == "constructor"
    ensures InitialLanguage(table, Some("__proto__"), "en-US") == "__proto__"
    ensures "constructor" !in SupportedLanguages
  {
  }

  /** `setLanguage` with the guard checking the table's own languages: the language always stays supported. */
  function NextLanguage(table: Table, current: string, lang: string): (next: string)
    requires WellShaped(table) && current in SupportedLanguages
    ensures next in SupportedLanguages
    ensures lang in SupportedLanguages ==> next == lang
    ensures lang !in SupportedLanguages ==> next == current
  {
    if lang in table then lang else current
  }

  class TranslationService {
    const translations: Table
    var currentLanguage: string

    ghost predicate Valid()
      reads this
    {
      WellShaped(translations) && Admitted(currentLanguage)
    }

    /** The stored preference and `navigator.language` are inputs. */
    constructor (table: Table, savedLanguage: Option<string>, browserLanguage: string)
      requires WellShaped(table)
      ensures Valid() && translations == table
      ensures currentLanguage == InitialLanguage(table, savedLanguage, browserLanguage)
    {
      translations := table;
      currentLanguage := DefaultLanguage;
      if savedLanguage.Some? && HasLanguageAsWritten(table, savedLanguage.value) {
        currentLanguage := savedLanguage.value;
      } else {
        var browserLang := PrimarySubtag(browserLanguage);
        if HasLanguageAsWritten(table, browserLang) {
          currentLanguage := browserLang;
        }
      }
    }

    method SetLanguage(lang: string)
      requires Valid()
      modifies this
      ensures Valid()
      ensures currentLanguage == SetLanguageAsWritten(translations, old(currentLanguage), lang)
    {
      if HasLanguageAsWritten(translations, lang) {
        currentLanguage := lang;
      }
    }

    /** A supported language, or an inherited member name the guard let through. */
    function GetLanguage(): (lang: string)
      reads this
      requires Valid()
      ensures Admitted(lang)
    {
      currentLanguage
    }

    function Translate(key: string, params: Option<map<string, string>>): (r: string)
      reads this
      ensures r == TranslateIn(translations, currentLanguage, key, params)
      ensures params.None? ==> r == Lookup(translations, currentLanguage, key)
    {
      TranslateIn(translations, currentLanguage, key, params)
    }

    /** The shortcut returns exactly what `translate` returns. */
    function T(key: string, params: Option<map<string, string>>): (r: string)
      reads this
      ensures r == Translate(key, params)
    {
      Translate(key, params)
    }
  }
}

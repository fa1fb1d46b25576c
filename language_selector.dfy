/**
 * The language picker (src/app/components/language-selector/language-selector.component.ts):
 * the three offered languages, the selected code, and the native name shown for it.
 */
module LanguageSelector {

  import opened Wrappers
  import opened Translation

  datatype Language = Language(code: string, name: string, nativeName: string, flag: string)

  const Languages: seq<Language> := [
    Language("en", "English", "English", "\U{1F1EC}\U{1F1E7}"),
    Language("es", "Spanish", "Español", "\U{1F1EA}\U{1F1F8}"),
    Language("pl", "Polish", "Polski", "\U{1F1F5}\U{1F1F1}")
  ]

  /** `languages.find(l => l.code === code)`: the first entry with that code. */
  function FindByCode(languages: seq<Language>, code: string): (r: Option<Language>)
    ensures r.Some? ==> r.value.code == code
    ensures r.None? <==> forall i :: 0 <= i < |languages| ==> languages[i].code != code
    ensures r.Some? ==> exists i :: 0 <= i < |languages| && languages[i] == r.value &&
                          (forall j :: 0 <= j < i ==> languages[j].code != code)
  {
    if languages == [] then None
    else if languages[0].code == code then Some(languages[0])
    else FindByCode(languages[1..], code)
  }

  /** `currentLanguageName` for a given code: the native name, or "English" for a code not offered. */
  function NativeName(code: string): (name: string)
    ensures name in {"English", "Español", "Polski"}
    ensures FindByCode(Languages, code).None? ==> name == "English"
  {
    var found := FindByCode(Languages, code);
    if found.Some? then found.value.nativeName else "English"
  }

  /** The names shown for the offered codes, and the default for every other code. */
  lemma NativeNames(code: string)
    ensures NativeName("en") == "English"
    ensures NativeName("es") == "Español"
    ensures NativeName("pl") == "Polski"
    ensures code !in SupportedLanguages ==> NativeName(code) == "English"
  {
    assert Languages[0].code == "en";
    assert Languages[1].code == "es";
    assert Languages[2].code == "pl";
    if code !in SupportedLanguages {
      assert forall i :: 0 <= i < |Languages| ==> Languages[i].code != code;
    }
  }

  /** The picker offers exactly the languages the translation table holds. */
  lemma OfferedAreSupported()
    ensures forall i :: 0 <= i < |Languages| ==> Languages[i].code in SupportedLanguages
    ensures forall lang :: lang in SupportedLanguages ==> FindByCode(Languages, lang).Some?
  {
    assert Languages[0].code == "en";
    assert Languages[1].code == "es";
    assert Languages[2].code == "pl";
  }

  class LanguageSelectorComponent {
    const translation: TranslationService
    var selectedLanguage: string
    var confirmed: bool

    constructor (service: TranslationService)
      ensures translation == service && selectedLanguage == "en" && !confirmed
    {
      translation := service;
      selectedLanguage := "en";
      confirmed := false;
    }

    /** Shows the service's current language as selected. */
    method NgOnInit()
      requires translation.Valid()
      modifies this
      ensures selectedLanguage == translation.currentLanguage
      ensures Admitted(selectedLanguage)
      ensures confirmed == old(confirmed)
    {
      selectedLanguage := translation.GetLanguage();
    }

    /**
     * Marks the code as selected, whether or not the service accepts it, and
     * asks the service to switch to it.
     */
    method SelectLanguage(langCode: string)
      requires translation.Valid()
      modifies this, translation
      ensures translation.Valid()
      ensures selectedLanguage == langCode && confirmed == old(confirmed)
      ensures translation.currentLanguage == SetLanguageAsWritten(translation.translations, old(translation.currentLanguage), langCode)
      ensures langCode in SupportedLanguages ==> translation.GetLanguage() == selectedLanguage
      ensures !Admitted(langCode) ==> translation.currentLanguage == old(translation.currentLanguage)
    {
      selectedLanguage := langCode;
      translation.SetLanguage(langCode);
    }

    /** Stores that a language was chosen and dismisses the picker; both are one flag here. */
    method Confirm()
      modifies this
      ensures confirmed && selectedLanguage == old(selectedLanguage)
    {
      confirmed := true;
    }

    function CurrentLanguageName(): (name: string)
      reads this
      ensures name in {"English", "Español", "Polski"}
    {
      NativeName(selectedLanguage)
    }
  }
}

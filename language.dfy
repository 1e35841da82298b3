/**
 * The language context (frontend/src/contexts/LanguageContext.tsx): the translation lookup
 * with its key fallback, the current language and the value kept in local storage. The
 * translation texts are abstract: a map from language to a map from key to text.
 */
module Language {
  import opened Wrappers
  import opened Types
  import opened Preferences

  type Table = map<string, map<string, string>>

  /** The shipped table has an entry for both languages. */
  predicate Complete(table: Table) {
    "tr" in table && "en" in table
  }

  /**
   * `translations[language][key] || key`. None when `translations[language]` is undefined and
   * reading the key throws.
   */
  function Translate(table: Table, language: string, key: string): (text: Option<string>)
    ensures text.None? <==> language !in table
    ensures text.Some? && key in table[language] && table[language][key] != "" ==> text.value == table[language][key]
    ensures text.Some? && (key !in table[language] || table[language][key] == "") ==> text.value == key
  {
    if language !in table then None
    else if key in table[language] && table[language][key] != "" then Some(table[language][key])
    else Some(key)
  }

  /** For a supported language the lookup never throws, and a non-empty key never reads as empty text. */
  lemma SupportedLookup(table: Table, language: string, key: string)
    requires Complete(table) && Supported(language)
    ensures Translate(table, language, key).Some?
    ensures key != "" ==> Translate(table, language, key).value != ""
  {
  }

  /** Whether the mount effect adopts a saved value: only exactly `tr` or `en`. */
  predicate AdoptsSaved(saved: Option<string>) {
    saved.Some? && Supported(saved.value)
  }

  /**
   * The language `loadUserPreferences` ends with, as written: any truthy `language` field of an
   * ok response. A failed request or a non-ok response is `Failed`.
   */
  function AdoptAsWritten(current: string, response: Fetch<string>): (language: string)
    ensures response.Fetched? && response.field.Some? && response.field.value != "" ==> language == response.field.value
    ensures !(response.Fetched? && response.field.Some? && response.field.value != "") ==> language == current
  {
    match response
    case Fetched(Some(l)) => if l != "" then l else current
    case _ => current
  }

  /** As written, a server language other than `tr` or `en` is adopted and every later lookup throws. */
  lemma AdoptAsWrittenBreaksLookup(table: Table, key: string)
    requires table.Keys == {"tr", "en"}
    ensures Translate(table, AdoptAsWritten("tr", Fetched(Some("fr"))), key).None?
  {
  }

  /** The intended adoption: the same check as for a saved value. */
  function AdoptChecked(current: string, response: Fetch<string>): (language: string)
    ensures response.Fetched? && AdoptsSaved(response.field) ==> language == response.field.value
    ensures !(response.Fetched? && AdoptsSaved(response.field)) ==> language == current
    ensures Supported(current) ==> Supported(language)
  {
    match response
    case Fetched(Some(l)) => if Supported(l) then l else current
    case _ => current
  }

  /** With the intended adoption the lookup never throws, whatever the server answers. */
  lemma AdoptCheckedKeepsLookup(table: Table, current: string, response: Fetch<string>, key: string)
    requires Complete(table) && Supported(current)
    ensures Translate(table, AdoptChecked(current, response), key).Some?
  {
    SupportedLookup(table, AdoptChecked(current, response), key);
  }

  /** On supported answers, which are all a valid preferences table can give, the two agree. */
  lemma AdoptionsAgreeOnSupported(current: string, response: Fetch<string>)
    requires response.Fetched? && response.field.Some? ==> Supported(response.field.value)
    ensures AdoptAsWritten(current, response) == AdoptChecked(current, response)
  {
  }

  /** The provider's state: the current language and the stored `language` item. */
  class LanguageState {
    var language: string
    var stored: Option<string>

    predicate Valid()
      reads this
    {
      Supported(language)
    }

    /** `useState('tr')`, with whatever local storage already holds. */
    constructor (stored: Option<string>)
      ensures language == DefaultLanguage && this.stored == stored && Valid()
    {
      language := DefaultLanguage;
      this.stored := stored;
    }

    /** The mount effect: a saved value is adopted only if it is `tr` or `en`. */
    method Mount()
      modifies this
      ensures language == (if AdoptsSaved(stored) then stored.value else old(language))
      ensures stored == old(stored)
      ensures old(Valid()) ==> Valid()
    {
      if stored.Some? && (stored.value == "tr" || stored.value == "en") {
        language := stored.value;
      }
    }

    /** `handleSetLanguage`: the state and the stored item get the same language. */
    method SetLanguage(l: string)
      requires Supported(l)
      modifies this
      ensures language == l && stored == Some(l) && Valid()
    {
      language := l;
      stored := Some(l);
    }

    /** `loadUserPreferences`, with the intended check on the server's language. */
    method LoadUserPreferences(response: Fetch<string>)
      modifies this
      ensures language == AdoptChecked(old(language), response)
      ensures stored == (if response.Fetched? && AdoptsSaved(response.field) then response.field else old(stored))
      ensures old(Valid()) ==> Valid()
    {
      if response.Fetched? && response.field.Some? && Supported(response.field.value) {
        language := response.field.value;
        stored := response.field;
      }
    }

    /**
     * `t(key)` in the current language: the language's text for the key, or the key itself.
     * In a valid state it never throws, and a non-empty key never reads as empty text.
     */
    function T(table: Table, key: string): (text: Option<string>)
      reads this
      ensures text.Some? <==> language in table
      ensures text.Some? ==> text.value == key || (key in table[language] && text.value == table[language][key])
      ensures Valid() && Complete(table) ==> text.Some?
      ensures Valid() && Complete(table) && key != "" ==> text.value != ""
    {
      Translate(table, language, key)
    }
  }
}

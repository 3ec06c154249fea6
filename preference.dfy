/**
 * The default post language stored in the user defaults: the stored string
 * when there is one, else the current locale's language code, else "en".
 */
module LanguagePreference {
  import opened Wrappers

  /** The key the property's accessors use (`#function` inside them is the property's name). */
  const DefaultPostLanguageKey: string := "defaultPostLanguage"

  /** The language used when neither a stored value nor a locale language code exists. */
  const FallbackLanguage: string := "en"

  /** A property-list object kept in the defaults: a string, or any object of another type. */
  datatype StoredObject = StringObject(s: string) | OtherObject

  /** The user defaults, as a store from keys to objects. */
  class UserDefaults {
    var store: map<string, StoredObject>

    constructor (initial: map<string, StoredObject>)
      ensures store == initial
    {
      store := initial;
    }

    /** The string stored under the key, if the object there is a string (`as? String`). */
    function StoredLanguage(): (r: Option<string>)
      reads this
      ensures r.Some? <==> DefaultPostLanguageKey in store && store[DefaultPostLanguageKey].StringObject?
      ensures r.Some? ==> store[DefaultPostLanguageKey] == StringObject(r.value)
    {
      if DefaultPostLanguageKey in store && store[DefaultPostLanguageKey].StringObject?
      then Some(store[DefaultPostLanguageKey].s)
      else None
    }

    /** The getter: stored string, else the locale's language code, else "en". */
    function DefaultPostLanguage(localeLanguageCode: Option<string>): (r: string)
      reads this
      ensures StoredLanguage().Some? ==> r == StoredLanguage().value
      ensures StoredLanguage().None? && localeLanguageCode.Some? ==> r == localeLanguageCode.value
      ensures StoredLanguage().None? && localeLanguageCode.None? ==> r == FallbackLanguage
    {
      match StoredLanguage()
      case Some(language) => language
      case None =>
        match localeLanguageCode
        case Some(code) => code
        case None => FallbackLanguage
    }

    /** The setter: stores the string under the key and touches no other key. */
    method SetDefaultPostLanguage(newValue: string)
      modifies this
      ensures store == old(store)[DefaultPostLanguageKey := StringObject(newValue)]
      ensures forall k :: k != DefaultPostLanguageKey ==> (k in store <==> k in old(store))
      ensures forall k :: k != DefaultPostLanguageKey && k in store ==> store[k] == old(store)[k]
      ensures forall code :: DefaultPostLanguage(code) == newValue
    {
      store := store[DefaultPostLanguageKey := StringObject(newValue)];
    }
  }
}

/**
 * Stand-ins for the Adventure library objects the core hands its messages to:
 * a `TranslationRegistry` records what is registered with it, and the
 * `GlobalTranslator` is the set of registries that are currently sources.
 * Message formatting and locale fallback happen inside that library and are
 * not modelled.
 */
module Sinks {
  import opened LocaleParser

  /** One `registerAll(locale, formats)` call; each format is kept as its pattern text. */
  datatype Registration = Registration(locale: Locale, messages: map<string, string>)

  class Registry {
    var log: seq<Registration>

    constructor()
      ensures log == []
    {
      log := [];
    }
  }

  class Translator {
    var sources: set<Registry>

    constructor()
      ensures sources == {}
    {
      sources := {};
    }
  }
}

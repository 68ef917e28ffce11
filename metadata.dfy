/**
 * Resolution of a per-placement metadata value (`Media::getMetadata`): the
 * current-locale value, then the fallback-locale value, then the asset's own
 * attribute, then the empty string.
 */
module Metadata {
  import opened Wrappers
  import opened PhpValues

  /** The configuration and application state `getMetadata` consults. */
  datatype LocaleSettings = LocaleSettings(
    locale: string,             // the application's current locale
    fallbackLocale: string,     // `translatable.fallback_locale`
    usePropertyFallback: bool,  // `translatable.use_property_fallback` (default false)
    translatable: seq<string>)  // `twill.media_library.translatable_metadatas_fields` (default [])

  /** The attribute `$fallbackValue` is first read from: `$fallback ? $fallback : $name`. */
  function ReadField(name: string, fallback: Option<string>): (field: string)
    ensures fallback.Some? && StrTruthy(fallback.value) ==> field == fallback.value
    ensures fallback.None? || fallback.value == "" || fallback.value == "0" ==> field == name
  {
    if fallback.Some? && StrTruthy(fallback.value) then fallback.value else name
  }

  /** The field whose translatability decides the reduction: `$fallback ?? $name`. */
  function FallbackField(name: string, fallback: Option<string>): (field: string)
    ensures fallback.Some? ==> field == fallback.value
    ensures fallback.None? ==> field == name
  {
    if fallback.Some? then fallback.value else name
  }

  /** `$v ?? ''`. */
  function OrEmpty(v: Value): (r: Value)
    ensures r != Null
    ensures v != Null ==> r == v
    ensures v == Null ==> r == Str("")
  {
    Coalesce(v, Str(""))
  }

  /**
   * The asset's own value used when the payload has no usable entry: the
   * attribute itself, or, when the fallback field is translatable, its
   * current-locale entry, then (with property fallback on and only when that
   * entry came out as '') its fallback-locale entry, defaulting to ''.
   */
  function AssetFallbackValue(attributes: map<string, Value>, name: string, fallback: Option<string>,
                              settings: LocaleSettings): (r: Value)
    ensures FallbackField(name, fallback) !in settings.translatable ==>
              r == Lookup(attributes, ReadField(name, fallback))
    ensures FallbackField(name, fallback) in settings.translatable ==>
              r != Null &&
              (r == Member(Lookup(attributes, ReadField(name, fallback)), settings.locale) ||
               r == Member(Lookup(attributes, FallbackField(name, fallback)), settings.fallbackLocale) ||
               r == Str(""))
    ensures FallbackField(name, fallback) in settings.translatable &&
            Member(Lookup(attributes, ReadField(name, fallback)), settings.locale) !in {Null, Str("")} ==>
              r == Member(Lookup(attributes, ReadField(name, fallback)), settings.locale)
    ensures FallbackField(name, fallback) in settings.translatable && !settings.usePropertyFallback ==>
              r == OrEmpty(Member(Lookup(attributes, ReadField(name, fallback)), settings.locale))
    ensures FallbackField(name, fallback) in settings.translatable && settings.usePropertyFallback &&
            OrEmpty(Member(Lookup(attributes, ReadField(name, fallback)), settings.locale)) == Str("") ==>
              r == OrEmpty(Member(Lookup(attributes, FallbackField(name, fallback)), settings.fallbackLocale))
  {
    var initial := Lookup(attributes, ReadField(name, fallback));
    var field := FallbackField(name, fallback);
    if field in settings.translatable then
      var atLocale := OrEmpty(Member(initial, settings.locale));
      if atLocale == Str("") && settings.usePropertyFallback then
        OrEmpty(Member(Lookup(attributes, field), settings.fallbackLocale))
      else
        atLocale
    else
      initial
  }

  /**
   * `getMetadata($name, $fallback)` for a decoded pivot payload `payload`
   * (field -> locale object, or field -> plain value) and the asset's
   * attributes. It never yields null, and a truthy current-locale entry always wins.
   */
  function GetMetadata(payload: map<string, Value>, attributes: map<string, Value>, name: string,
                       fallback: Option<string>, settings: LocaleSettings): (r: Value)
    ensures r != Null
    ensures Truthy(Member(Lookup(payload, name), settings.locale)) ==>
              r == Member(Lookup(payload, name), settings.locale)
    ensures r == Member(Lookup(payload, name), settings.locale) ||
            r == Member(Lookup(payload, name), settings.fallbackLocale) ||
            r == Lookup(payload, name) ||
            r == AssetFallbackValue(attributes, name, fallback, settings) ||
            r == Str("")
  {
    var entry := Lookup(payload, name);
    var atLocale := Member(entry, settings.locale);
    var atFallbackLocale := Member(entry, settings.fallbackLocale);
    if Truthy(atLocale) then
      atLocale
    else if name in settings.translatable && settings.usePropertyFallback && Truthy(atFallbackLocale) then
      atFallbackLocale
    else
      var fallbackValue := AssetFallbackValue(attributes, name, fallback, settings);
      if entry.Object? then
        OrEmpty(fallbackValue)
      else
        Coalesce(entry, OrEmpty(fallbackValue))
  }

  /** The fallback-locale entry of a translatable field is used when the current locale has no truthy one. */
  lemma FallbackLocaleUsed(payload: map<string, Value>, attributes: map<string, Value>, name: string,
                           fallback: Option<string>, settings: LocaleSettings)
    requires !Truthy(Member(Lookup(payload, name), settings.locale))
    requires name in settings.translatable && settings.usePropertyFallback
    requires Truthy(Member(Lookup(payload, name), settings.fallbackLocale))
    ensures GetMetadata(payload, attributes, name, fallback, settings)
            == Member(Lookup(payload, name), settings.fallbackLocale)
  {
  }

  /**
   * A locale object with no usable entry yields the asset fallback value (or ''),
   * never the object itself: this is also the case for every field that is not
   * translatable, or when property fallback is off.
   */
  lemma LocaleObjectFallsBackToAsset(payload: map<string, Value>, attributes: map<string, Value>, name: string,
                                     fallback: Option<string>, settings: LocaleSettings)
    requires Lookup(payload, name).Object?
    requires !Truthy(Member(Lookup(payload, name), settings.locale))
    requires name !in settings.translatable || !settings.usePropertyFallback ||
             !Truthy(Member(Lookup(payload, name), settings.fallbackLocale))
    ensures GetMetadata(payload, attributes, name, fallback, settings)
            == OrEmpty(AssetFallbackValue(attributes, name, fallback, settings))
  {
  }

  /** A plain (non-object, non-null) payload entry is returned as it is, truthy or not. */
  lemma PlainEntryReturned(payload: map<string, Value>, attributes: map<string, Value>, name: string,
                           fallback: Option<string>, settings: LocaleSettings)
    requires name in payload && payload[name] != Null
    requires !payload[name].Object? && !payload[name].Dict?
    ensures GetMetadata(payload, attributes, name, fallback, settings) == payload[name]
  {
  }

  /** With no payload entry for the field, the asset fallback value (or '') is the result. */
  lemma MissingEntryFallsBackToAsset(payload: map<string, Value>, attributes: map<string, Value>, name: string,
                                     fallback: Option<string>, settings: LocaleSettings)
    requires name !in payload || payload[name] == Null
    ensures GetMetadata(payload, attributes, name, fallback, settings)
            == OrEmpty(AssetFallbackValue(attributes, name, fallback, settings))
  {
  }

  /**
   * The asset's own translatable attribute `{credit: {en: "Jane"}}` read in "fr"
   * with fallback locale "en" and property fallback on gives "Jane".
   */
  lemma AssetCreditExample()
    ensures AssetFallbackValue(map["credit" := Dict(map["en" := Str("Jane")])], "credit", None,
                               LocaleSettings("fr", "en", true, ["credit"])) == Str("Jane")
  {
  }

  /**
   * A translatable field present only under the fallback locale resolves to that
   * value when property fallback is on: `{"credit": {"en": "Jane"}}` read in "fr"
   * with fallback locale "en" gives "Jane".
   */
  lemma CreditExample()
    ensures GetMetadata(map["credit" := Object(map["en" := Str("Jane")])], map[], "credit", None,
                        LocaleSettings("fr", "en", true, ["credit"])) == Str("Jane")
  {
  }
}

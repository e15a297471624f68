/** Languages and text keys. */
module Locale {

  datatype Language = English | Chinese

  /** `Language::default`. */
  function DefaultLanguage(): (l: Language)
    ensures l == English
  {
    English
  }

  datatype TextKey =
    | AppTitle | AppVersion
    | SearchPlaceholder | TypeFilterAll | TypeFilterText | TypeFilterImage | ClearAll | Settings
    | NoRecords | RecordsCount | CharactersCount | UsedTimes
    | Copy | Delete | Favorite | Unfavorite
    | LoadDataFailed | CopyFailed | DeleteFailed | ClearFailed | UpdateAccessFailed
    | ContentExists | DatabaseError | ClipboardError | IoError | SerializationError | ConfigError
    | ContentTooLarge | UnsupportedContentType
    | TimeFormat
    | ContextCopy | ContextDelete
}

/** The lookup object and the process-wide instance behind `t`, `set_language` and
    `get_language`. */
module Localization {

  import opened Locale
  import opened Texts

  /** Both tables, as `load_texts` files them under their languages. */
  function LoadedTexts(): map<Language, map<TextKey, string>>
  {
    map[English := EnglishTexts(), Chinese := ChineseTexts()]
  }

  /** `text`: the entry of `language`'s table for `key`, or the placeholder. */
  function Lookup(texts: map<Language, map<TextKey, string>>, language: Language, key: TextKey): (r: string)
    ensures language in texts && key in texts[language] ==> r == texts[language][key]
    ensures !(language in texts && key in texts[language]) ==> r == MISSING_TEXT
  {
    if language in texts && key in texts[language] then texts[language][key] else MISSING_TEXT
  }

  /** Once both tables are loaded, every key has a real text in either language. */
  lemma LoadedNeverMissing(language: Language, key: TextKey)
    ensures var r := Lookup(LoadedTexts(), language, key);
      r != MISSING_TEXT
      && (language == English ==> r == EnglishTexts()[key])
      && (language == Chinese ==> r == ChineseTexts()[key])
  {
    EnglishComplete(key);
    ChineseComplete(key);
  }

  class I18n {

    var currentLanguage: Language
    var texts: map<Language, map<TextKey, string>>

    /** `I18n::new`: English, with both tables loaded. */
    constructor ()
      ensures currentLanguage == English && texts == LoadedTexts()
    {
      currentLanguage := DefaultLanguage();
      texts := map[];
      new;
      LoadTexts();
    }

    /** `load_texts`: files the English and then the Chinese table. */
    method LoadTexts()
      modifies this
      ensures texts == old(texts)[English := EnglishTexts()][Chinese := ChineseTexts()]
      ensures currentLanguage == old(currentLanguage)
    {
      var english := BuildTable(ENGLISH_INSERTS);
      texts := texts[English := english];
      var chinese := BuildTable(CHINESE_INSERTS);
      texts := texts[Chinese := chinese];
    }

    method SetLanguage(language: Language)
      modifies this
      ensures currentLanguage == language && texts == old(texts)
    {
      currentLanguage := language;
    }

    method GetLanguage() returns (language: Language)
      ensures language == currentLanguage
    {
      language := currentLanguage;
    }

    /** `text`: a lookup in the current language's table. */
    method Text(key: TextKey) returns (r: string)
      ensures r == Lookup(texts, currentLanguage, key)
      ensures texts == LoadedTexts() ==> r != MISSING_TEXT
    {
      if currentLanguage in texts && key in texts[currentLanguage] {
        r := texts[currentLanguage][key];
      } else {
        r := MISSING_TEXT;
      }
      if texts == LoadedTexts() {
        LoadedNeverMissing(currentLanguage, key);
      }
    }
  }

  /** The two process-wide statics: the initialised flag and the optional instance. */
  class GlobalI18n {

    var initialized: bool
    var instance: I18n?

    /** The statics are set together, and the instance holds both tables. */
    predicate Valid()
      reads this, instance
    {
      (initialized <==> instance != null) && (instance != null ==> instance.texts == LoadedTexts())
    }

    /** Program start: nothing initialised yet. */
    constructor ()
      ensures Valid() && !initialized && instance == null
    {
      initialized := false;
      instance := null;
    }

    /** `init`: creates the instance the first time only. */
    method Init()
      requires Valid()
      modifies this
      ensures Valid() && initialized
      ensures old(initialized) ==> instance == old(instance)
      ensures !old(initialized) ==> fresh(instance) && instance.currentLanguage == English
    {
      if !initialized {
        instance := new I18n();
        initialized := true;
      }
    }

    /** `t`: the current language's text for `key`, initialising on first use; the
        instance therefore always exists when it is consulted. */
    method T(key: TextKey) returns (r: string)
      requires Valid()
      modifies this
      ensures Valid() && initialized
      ensures old(initialized) ==> instance == old(instance)
      ensures r == Lookup(LoadedTexts(), instance.currentLanguage, key)
      ensures r != MISSING_TEXT
    {
      Init();
      r := instance.Text(key);
    }

    /** `set_language`: initialises first if needed, then switches the instance. */
    method SetLanguage(language: Language)
      requires Valid()
      modifies this, instance
      ensures Valid() && initialized && instance.currentLanguage == language
      ensures old(initialized) ==> instance == old(instance)
    {
      Init();
      instance.SetLanguage(language);
    }

    /** `get_language`: initialises first if needed. */
    method GetLanguage() returns (language: Language)
      requires Valid()
      modifies this
      ensures Valid() && initialized && language == instance.currentLanguage
      ensures old(initialized) ==> instance == old(instance) && language == old(instance.currentLanguage)
      ensures !old(initialized) ==> language == English
    {
      Init();
      language := instance.GetLanguage();
    }
  }
}

/**
  Locale selection and translation look-up. The locale comes from the
  `language` entry of `[tool.pyci-check]` in the nearest `pyproject.toml`
  above the working directory, normalised to one of three supported codes.
 */
module I18n {
  import opened Wrappers
  import opened Strings
  import opened Paths
  import opened Toml

  const ConfigFileName: string := "pyproject.toml"

  /** The five accepted spellings (lower case, "-" already turned into "_") and the locale each selects. */
  const LocaleMap: map<string, string> :=
    map["zh_tw" := "zh_TW", "zh_cn" := "zh_CN", "zh" := "zh_CN", "en" := "en", "en_us" := "en"]

  predicate Supported(locale: string) {
    locale == "zh_TW" || locale == "zh_CN" || locale == "en"
  }

  /** The table key for a language code: the text before the first ".", lower-cased, with "-" read as "_". */
  function LocaleKey(lang: string): string
  {
    ReplaceChar(Lower(Split(lang, '.')[0]), '-', '_')
  }

  /** `_normalize_locale`: the mapped locale, or "en" for an unknown code. */
  function NormalizeLocale(lang: string): (r: string)
    ensures Supported(r)
    ensures r == "zh_TW" <==> LocaleKey(lang) == "zh_tw"
    ensures r == "zh_CN" <==> LocaleKey(lang) == "zh_cn" || LocaleKey(lang) == "zh"
  {
    var key := LocaleKey(lang);
    if key in LocaleMap then LocaleMap[key] else "en"
  }

  /** Case folding and "-" to "_" on one character. */
  function FoldChar(c: char): char
  {
    if c == '-' then '_' else LowerChar(c)
  }

  function Fold(s: string): (r: string)
    ensures |r| == |s|
  {
    seq(|s|, i requires 0 <= i < |s| => FoldChar(s[i]))
  }

  /** The key is the first "."-separated part of the folded code: folding never makes or removes a ".". */
  lemma {:induction false} LocaleKeyIsFoldedHead(lang: string)
    ensures LocaleKey(lang) == Split(Fold(lang), '.')[0]
    decreases |lang|
  {
    if lang != [] {
      LocaleKeyIsFoldedHead(lang[1..]);
      var head := Split(lang, '.')[0];
      var tailHead := Split(lang[1..], '.')[0];
      assert Fold(lang) == [FoldChar(lang[0])] + Fold(lang[1..]);
      if lang[0] == '.' {
        assert head == "";
      } else {
        assert head == [lang[0]] + tailHead;
        assert LocaleKey(lang) == [FoldChar(lang[0])] + LocaleKey(lang[1..]);
      }
    }
  }

  /** Two codes that agree up to letter case and "-" versus "_" select the same locale. */
  lemma NormalizeIgnoresCaseAndDash(a: string, b: string)
    requires Fold(a) == Fold(b)
    ensures NormalizeLocale(a) == NormalizeLocale(b)
  {
    LocaleKeyIsFoldedHead(a);
    LocaleKeyIsFoldedHead(b);
  }

  /** Everything from the first "." on (an encoding such as ".UTF-8") is ignored. */
  lemma NormalizeIgnoresSuffix(lang: string, suffix: string)
    requires '.' !in lang
    ensures NormalizeLocale(lang + "." + suffix) == NormalizeLocale(lang)
  {
    SplitAppend(lang, suffix, '.');
    SplitWithoutSeparator(lang, '.');
  }

  /** For a code without ".", the key is the folded code. */
  lemma KeyOfDotless(lang: string)
    requires '.' !in lang
    ensures LocaleKey(lang) == Fold(lang)
  {
    SplitWithoutSeparator(lang, '.');
  }

  /** "zh-TW" selects Traditional Chinese: case and "-" do not matter. */
  lemma NormalizeDashedTraditional()
    ensures NormalizeLocale("zh-TW") == "zh_TW"
  {
    KeyOfDotless("zh-TW");
    assert FoldChar('T') == 't' && FoldChar('W') == 'w';
    assert Fold("zh-TW") == "zh_tw";
  }

  /** The canonical lower-case key selects Traditional Chinese. */
  lemma NormalizeLowerTraditional()
    ensures NormalizeLocale("zh_tw") == "zh_TW"
  {
    KeyOfDotless("zh_tw");
    assert Fold("zh_tw") == "zh_tw";
  }

  /** Plain "zh" means Simplified Chinese. */
  lemma NormalizeSimplifiedExamples()
    ensures NormalizeLocale("zh") == "zh_CN"
    ensures NormalizeLocale("zh-CN") == "zh_CN"
  {
    KeyOfDotless("zh");
    assert Fold("zh") == "zh";
    KeyOfDotless("zh-CN");
    assert Fold("zh-CN") == "zh_cn";
  }

  /** "en_US" is English, and an unsupported code falls back to English. */
  lemma NormalizeEnglishExamples()
    ensures NormalizeLocale("en_US") == "en"
    ensures NormalizeLocale("fr") == "en"
  {
    KeyOfDotless("en_US");
    assert Fold("en_US") == "en_us";
    KeyOfDotless("fr");
    assert Fold("fr") == "fr";
  }

  /** The three translation tables. */
  datatype Tables = Tables(en: map<string, string>, zhTW: map<string, string>, zhCN: map<string, string>)

  /** `_load_translations`: the table for "zh_TW" or "zh_CN" exactly, the English one for anything else. */
  function LoadTranslations(locale: string, tables: Tables): (r: map<string, string>)
    ensures locale == "zh_TW" ==> r == tables.zhTW
    ensures locale == "zh_CN" ==> r == tables.zhCN
    ensures locale != "zh_TW" && locale != "zh_CN" ==> r == tables.en
  {
    if locale == "zh_TW" then tables.zhTW
    else if locale == "zh_CN" then tables.zhCN
    else tables.en
  }

  /** `t(key)` without format arguments: the translation, or the key itself when the table lacks it. */
  function Translate(key: string, locale: string, tables: Tables): (r: string)
    ensures key !in LoadTranslations(locale, tables) ==> r == key
    ensures key in LoadTranslations(locale, tables) ==> r == LoadTranslations(locale, tables)[key]
  {
    var table := LoadTranslations(locale, tables);
    if key in table then table[key] else key
  }

  /**
    `get_locale` once the configuration file is found (or not) and read:
    "en" without a file, for an unreadable file, or when `language` is not a
    non-empty string; otherwise the normalised, stripped language.
   */
  function LocaleFromConfig(found: Option<Path>, read: Path -> TomlLoad): (r: Outcome<string>)
    ensures r.Returns? ==> Supported(r.value)
    ensures found.None? ==> r == Returns("en")
    ensures found.Some? && read(found.value).LoadFailed? ==> r == Returns("en")
  {
    if found.None? then Returns("en")
    else
      match read(found.value)
      case LoadFailed => Returns("en")
      case Loaded(data) =>
        match ToolSection(data, "pyci-check")
        case Raises => Raises
        case Returns(section) =>
          var lang := Get(section, "language", Scalar);
          if "language" in section && IsNonEmptyStr(lang) then Returns(NormalizeLocale(Strip(lang.s)))
          else Returns("en")
  }

  /** A configured language is honoured exactly when it is a non-empty string. */
  lemma LocaleFromConfiguredLanguage(dir: Path, read: Path -> TomlLoad, section: map<string, TomlValue>)
    requires read(dir).Loaded?
    requires ToolSection(read(dir).data, "pyci-check") == Returns(section)
    ensures "language" in section && IsNonEmptyStr(section["language"]) ==>
              LocaleFromConfig(Some(dir), read) == Returns(NormalizeLocale(Strip(section["language"].s)))
    ensures !("language" in section && IsNonEmptyStr(section["language"])) ==>
              LocaleFromConfig(Some(dir), read) == Returns("en")
  {
  }

  /**
    `t(key)` under a configured language: the look-up reads the Traditional
    Chinese table when the stripped language's key is "zh_tw", the
    Simplified one when it is "zh_cn" or "zh", and the English one for any
    other key.
   */
  lemma ConfiguredLanguageSelectsTable(dir: Path, read: Path -> TomlLoad, section: map<string, TomlValue>, tables: Tables)
    requires read(dir).Loaded?
    requires ToolSection(read(dir).data, "pyci-check") == Returns(section)
    requires "language" in section && IsNonEmptyStr(section["language"])
    ensures LocaleFromConfig(Some(dir), read).Returns?
    ensures var table := LoadTranslations(LocaleFromConfig(Some(dir), read).value, tables);
            var k := LocaleKey(Strip(section["language"].s));
            && (k == "zh_tw" ==> table == tables.zhTW)
            && (k == "zh_cn" || k == "zh" ==> table == tables.zhCN)
            && (k != "zh_tw" && k != "zh_cn" && k != "zh" ==> table == tables.en)
  {
    LocaleFromConfiguredLanguage(dir, read, section);
  }

  /** Without a configuration file, or with an unreadable one, the English table is read. */
  lemma UnconfiguredReadsEnglish(found: Option<Path>, read: Path -> TomlLoad, tables: Tables)
    requires found.None? || read(found.value).LoadFailed?
    ensures LocaleFromConfig(found, read).Returns?
    ensures LoadTranslations(LocaleFromConfig(found, read).value, tables) == tables.en
  {
  }

  /** A key missing from all three tables comes back unchanged, whatever the locale. */
  lemma UnlistedKeyEchoed(key: string, locale: string, tables: Tables)
    requires key !in tables.en && key !in tables.zhTW && key !in tables.zhCN
    ensures Translate(key, locale, tables) == key
  {
  }

  /** A translation is the key itself or the entry one of the three tables holds for it. */
  lemma TranslationFromSomeTable(key: string, locale: string, tables: Tables)
    ensures var r := Translate(key, locale, tables);
            || r == key
            || (key in tables.en && r == tables.en[key])
            || (key in tables.zhTW && r == tables.zhTW[key])
            || (key in tables.zhCN && r == tables.zhCN[key])
  {
  }

  /** Language codes that agree up to letter case and "-" versus "_" translate every key alike. */
  lemma TranslationIgnoresCaseAndDash(key: string, a: string, b: string, tables: Tables)
    requires Fold(a) == Fold(b)
    ensures Translate(key, NormalizeLocale(a), tables) == Translate(key, NormalizeLocale(b), tables)
  {
    NormalizeIgnoresCaseAndDash(a, b);
  }

  /**
    `_find_pyproject_toml`: from the working directory upward, the first
    directory holding the file. `cwd` is `None` when the working directory
    no longer exists.
   */
  method FindPyprojectToml(cwd: Option<Path>, existing: set<Path>) returns (r: Option<Path>)
    ensures cwd.None? ==> r.None?
    ensures cwd.Some? ==> r == NearestHolding(cwd.value, ConfigFileName, existing)
  {
    if cwd.None? {
      return None;
    }
    var current := cwd.value;
    while true
      invariant NearestHolding(current, ConfigFileName, existing) == NearestHolding(cwd.value, ConfigFileName, existing)
      decreases |current|
    {
      var candidate := current + [ConfigFileName];
      if candidate in existing {
        return Some(candidate);
      }
      var parent := Parent(current);
      if parent == current {
        break;
      }
      current := parent;
    }
    return None;
  }

  /** `get_locale`: find the configuration, read it and decide. */
  method GetLocale(cwd: Option<Path>, existing: set<Path>, read: Path -> TomlLoad) returns (r: Outcome<string>)
    ensures r.Returns? ==> Supported(r.value)
    ensures cwd.None? ==> r == Returns("en")
    ensures cwd.Some? ==> r == LocaleFromConfig(NearestHolding(cwd.value, ConfigFileName, existing), read)
  {
    var found := FindPyprojectToml(cwd, existing);
    r := LocaleFromConfig(found, read);
  }
}

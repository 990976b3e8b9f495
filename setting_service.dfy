/**
 * The settings store of src/utils/settingService.ts: the choices offered for each
 * setting, the defaults, and `SettingService` over the stored settings. Persistence
 * in local storage is outside the model; the store starts from what was stored, if
 * anything.
 */
module SettingService {
  import opened Wrappers

  /** `AppSettings`. */
  datatype Settings = Settings(
    theme: string,
    language: string,
    ocrLanguages: seq<string>,
    autoCheckUpdate: bool,
    updateChannel: string)

  /** The keys of `AppSettings`. */
  datatype Key = Theme | Language | OcrLanguages | AutoCheckUpdate | UpdateChannel

  /** A setting's value: a string, a list of strings or a flag. */
  datatype Value = Text(s: string) | Texts(ss: seq<string>) | Flag(b: bool)

  /** An option of `optionsSetting`: its label and value. */
  datatype OptionItem = OptionItem(text: string, value: string)

  const ThemeOptions: seq<OptionItem> :=
    [OptionItem("系统", "system"), OptionItem("浅色", "light"), OptionItem("深色", "dark")]
  const LanguageOptions: seq<OptionItem> :=
    [OptionItem("简体中文", "zh"), OptionItem("English", "en")]
  const OcrLanguageOptions: seq<OptionItem> :=
    [OptionItem("简体中文", "chi_sim"), OptionItem("English", "eng")]
  const UpdateChannelOptions: seq<OptionItem> :=
    [OptionItem("正式版", "official"), OptionItem("测试版", "beta"), OptionItem("内测版", "alpha")]

  /** `v` is the value of one of `options`. */
  predicate Offered(options: seq<OptionItem>, v: string) {
    exists i :: 0 <= i < |options| && options[i].value == v
  }

  /** Every setting holds a value its options offer, as the type `AppSettings` demands. */
  predicate Valid(s: Settings) {
    && Offered(ThemeOptions, s.theme)
    && Offered(LanguageOptions, s.language)
    && (forall i :: 0 <= i < |s.ocrLanguages| ==> Offered(OcrLanguageOptions, s.ocrLanguages[i]))
    && Offered(UpdateChannelOptions, s.updateChannel)
  }

  /** `defaultSetting`. */
  const DefaultSetting := Settings("system", "zh", ["chi_sim", "eng"], true, "beta")

  /** Every default is one of its setting's options. */
  lemma DefaultsOffered()
    ensures Valid(DefaultSetting)
  {
    assert ThemeOptions[0].value == "system";
    assert LanguageOptions[0].value == "zh";
    assert OcrLanguageOptions[0].value == "chi_sim" && OcrLanguageOptions[1].value == "eng";
    assert UpdateChannelOptions[1].value == "beta";
  }

  /** The value stored under `key`. */
  function Field(s: Settings, key: Key): (v: Value)
    ensures v.Text? <==> key in {Theme, Language, UpdateChannel}
    ensures v.Texts? <==> key == OcrLanguages
  {
    match key
    case Theme => Text(s.theme)
    case Language => Text(s.language)
    case OcrLanguages => Texts(s.ocrLanguages)
    case AutoCheckUpdate => Flag(s.autoCheckUpdate)
    case UpdateChannel => Text(s.updateChannel)
  }

  /** `value` has the type `AppSettings[key]`. */
  predicate Fits(key: Key, value: Value) {
    match key
    case OcrLanguages => value.Texts?
    case AutoCheckUpdate => value.Flag?
    case _ => value.Text?
  }

  /** The settings with `key` set to `value`. */
  function With(s: Settings, key: Key, value: Value): (r: Settings)
    requires Fits(key, value)
    ensures Field(r, key) == value
    ensures forall k :: k != key ==> Field(r, k) == Field(s, k)
  {
    match key
    case Theme => s.(theme := value.s)
    case Language => s.(language := value.s)
    case OcrLanguages => s.(ocrLanguages := value.ss)
    case AutoCheckUpdate => s.(autoCheckUpdate := value.b)
    case UpdateChannel => s.(updateChannel := value.s)
  }

  /** A value the options offer keeps the settings valid. */
  predicate OfferedValue(key: Key, value: Value) {
    match key
    case Theme => value.Text? && Offered(ThemeOptions, value.s)
    case Language => value.Text? && Offered(LanguageOptions, value.s)
    case OcrLanguages => value.Texts? && forall i :: 0 <= i < |value.ss| ==> Offered(OcrLanguageOptions, value.ss[i])
    case AutoCheckUpdate => value.Flag?
    case UpdateChannel => value.Text? && Offered(UpdateChannelOptions, value.s)
  }

  /** Setting an offered value to valid settings keeps them valid. */
  lemma WithKeepsValid(s: Settings, key: Key, value: Value)
    requires Valid(s) && OfferedValue(key, value)
    ensures Fits(key, value) && Valid(With(s, key, value))
  {
  }

  class SettingService {
    var storage: Settings
    /** How many times the stored settings were written. */
    ghost var writes: nat

    /** `useStorage('app-settings', defaultSetting)`: what was stored, or the defaults. */
    constructor (stored: Option<Settings>)
      ensures storage == (if stored.Some? then stored.value else DefaultSetting) && writes == 0
    {
      storage := if stored.Some? then stored.value else DefaultSetting;
      writes := 0;
    }

    /** `getAll`: a copy of all settings. */
    function GetAll(): (r: Settings)
      reads this
      ensures forall k :: Field(r, k) == Field(storage, k)
    {
      storage
    }

    /** `get(key)`. */
    function Get(key: Key): (v: Value)
      reads this
      ensures Fits(key, v)
    {
      Field(storage, key)
    }

    /**
     * `set(key, value)`: afterwards `get(key)` is `value` and every other key is as it
     * was; a string or flag equal to the stored one writes nothing. Lists are compared
     * by identity in the source and the list passed is taken to be a new one, so
     * setting `ocrLanguages` always writes.
     */
    method Set(key: Key, value: Value)
      requires Fits(key, value)
      modifies this
      ensures Get(key) == value
      ensures forall k :: k != key ==> Get(k) == old(Get(k))
      ensures key != OcrLanguages && old(Get(key)) == value ==>
        storage == old(storage) && writes == old(writes)
      ensures key == OcrLanguages || old(Get(key)) != value ==> writes == old(writes) + 1
    {
      if key != OcrLanguages && Field(storage, key) == value {
        return;
      }
      storage := With(storage, key, value);
      writes := writes + 1;
    }

    /** `reset`: every key back to its default. */
    method Reset()
      modifies this
      ensures storage == DefaultSetting && Valid(storage)
      ensures writes == old(writes) + 1
    {
      DefaultsOffered();
      storage := DefaultSetting;
      writes := writes + 1;
    }
  }
}

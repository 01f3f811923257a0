/**
 * The application settings (`SettingsManager` in settings_manager.py): the
 * configuration dictionary, its defaults, the font-size steps and the
 * word-wrap switch. The configuration file is modelled by the JSON value it
 * holds.
 */
module Settings {
  import opened Text

  /** A JSON value as `json.load` returns it; lists and objects nested in the
      configuration are not inspected. */
  datatype Value = Int(i: int) | Bool(b: bool) | Float(r: real) | Str(s: string) | Null | Composite

  /** The configuration file: absent, not valid JSON, valid JSON that is not an
      object, or an object. */
  datatype ConfigFile = Missing | Unreadable | NotAnObject | Object(entries: map<string, Value>)

  const Theme := "theme"
  const FontSize := "font_size"
  const AutoSave := "auto_save"
  const WordWrap := "word_wrap"
  const MinFontSize := 8
  const MaxFontSize := 24

  function Defaults(): map<string, Value> {
    map[Theme := Str("dark"), FontSize := Int(12), AutoSave := Bool(true), WordWrap := Bool(true)]
  }

  /** `load_config()`: the defaults, updated with the file's keys when it holds
      a JSON object; any other file leaves the defaults. */
  function LoadedConfig(file: ConfigFile): (config: map<string, Value>)
    ensures config.Keys >= Defaults().Keys
    ensures forall k :: k in Defaults() ==>
              config[k] == if file.Object? && k in file.entries then file.entries[k] else Defaults()[k]
    ensures file.Object? ==> config.Keys == Defaults().Keys + file.entries.Keys
                             && forall k :: k in file.entries ==> config[k] == file.entries[k]
    ensures !file.Object? ==> config == Defaults()
  {
    if file.Object? then Defaults() + file.entries else Defaults()
  }

  /** The number a value stands for in Python arithmetic (`True` is 1), if any. */
  function Numeric(v: Value): Option<real> {
    match v
    case Int(i) => Some(i as real)
    case Bool(b) => Some(if b then 1.0 else 0.0)
    case Float(r) => Some(r)
    case _ => None
  }

  function MinReal(a: real, b: real): real {
    if a <= b then a else b
  }

  function MaxReal(a: real, b: real): real {
    if a >= b then a else b
  }

  /** `min(24, v + 1)`; None where `v + 1` raises `TypeError`. Python's `min`
      returns its first argument on a tie, so the result is the integer 24
      whenever `v + 1` is not below it. */
  function Increased(v: Value): (r: Option<Value>)
    ensures r.Some? <==> Numeric(v).Some?
    ensures r.Some? ==> Numeric(r.value) == Some(MinReal(MaxFontSize as real, Numeric(v).value + 1.0))
  {
    match v
    case Int(i) => Some(if i + 1 < MaxFontSize then Int(i + 1) else Int(MaxFontSize))
    case Bool(b) => var n := (if b then 1 else 0) + 1; Some(if n < MaxFontSize then Int(n) else Int(MaxFontSize))
    case Float(x) => Some(if x + 1.0 < MaxFontSize as real then Float(x + 1.0) else Int(MaxFontSize))
    case _ => None
  }

  /** `max(8, v - 1)`, with the same conventions. */
  function Decreased(v: Value): (r: Option<Value>)
    ensures r.Some? <==> Numeric(v).Some?
    ensures r.Some? ==> Numeric(r.value) == Some(MaxReal(MinFontSize as real, Numeric(v).value - 1.0))
  {
    match v
    case Int(i) => Some(if i - 1 > MinFontSize then Int(i - 1) else Int(MinFontSize))
    case Bool(b) => Some(Int(MinFontSize))
    case Float(x) => Some(if x - 1.0 > MinFontSize as real then Float(x - 1.0) else Int(MinFontSize))
    case _ => None
  }

  /** A font-size step on the configuration; None where it raises (`KeyError`
      for a missing key, `TypeError` for a non-number). */
  function FontStep(config: map<string, Value>, step: Value -> Option<Value>): (r: Option<map<string, Value>>)
    ensures r.Some? ==> FontSize in config && step(config[FontSize]).Some?
                        && r.value == config[FontSize := step(config[FontSize]).value]
    ensures r.None? ==> FontSize !in config || step(config[FontSize]).None?
  {
    if FontSize in config && step(config[FontSize]).Some? then Some(config[FontSize := step(config[FontSize]).value])
    else None
  }

  /** Saving a configuration that holds every default key and loading it
      again gives back the same configuration. */
  lemma {:induction false} SaveThenLoad(config: map<string, Value>)
    requires Defaults().Keys <= config.Keys
    ensures LoadedConfig(Object(config)) == config
  {
    assert (Defaults() + config).Keys == config.Keys;
  }

  /** Either step keeps an integer size inside [8, 24], and at its own bound it
      leaves the size as it was. */
  lemma {:induction false} FontStaysInRange(n: int)
    requires MinFontSize <= n <= MaxFontSize
    ensures Increased(Int(n)).Some? && Increased(Int(n)).value.Int?
    ensures MinFontSize <= Increased(Int(n)).value.i <= MaxFontSize
    ensures Decreased(Int(n)).Some? && Decreased(Int(n)).value.Int?
    ensures MinFontSize <= Decreased(Int(n)).value.i <= MaxFontSize
    ensures n == MaxFontSize ==> Increased(Int(n)) == Some(Int(n))
    ensures n == MinFontSize ==> Decreased(Int(n)) == Some(Int(n))
  {
  }

  /** Whatever number the size held, increasing gives at most 24 and
      decreasing at least 8. */
  lemma {:induction false} FontBounds(v: Value)
    ensures Increased(v).Some? ==> Numeric(Increased(v).value).value <= MaxFontSize as real
    ensures Decreased(v).Some? ==> Numeric(Decreased(v).value).value >= MinFontSize as real
  {
  }

  /** A font step changes only `font_size`; every other key keeps its value. */
  lemma {:induction false} FontStepChangesOnlyFontSize(config: map<string, Value>, step: Value -> Option<Value>, k: string)
    requires FontStep(config, step).Some?
    ensures FontStep(config, step).value.Keys == config.Keys
    ensures k != FontSize && k in config ==> FontStep(config, step).value[k] == config[k]
  {
  }

  class SettingsManager {
    var config: map<string, Value>
    /** What the configuration file holds. */
    var file: ConfigFile

    /** Every default key is present: `load_config` puts them there and no
        operation removes one. */
    predicate Valid()
      reads this
    {
      Defaults().Keys <= config.Keys
    }

    /** `setup_settings()` reaching `load_config()` with the file as found. */
    constructor (file: ConfigFile)
      ensures Valid()
      ensures this.file == file && config == LoadedConfig(file)
    {
      this.file := file;
      config := Defaults();
      if file.Object? {
        config := config + file.entries;
      }
    }

    method LoadConfig()
      modifies this
      ensures Valid()
      ensures file == old(file) && config == LoadedConfig(file)
    {
      config := Defaults();
      if file.Object? {
        config := config + file.entries;
      }
    }

    /** `save_config()`: `json.dump` of the whole configuration. */
    method SaveConfig()
      requires Valid()
      modifies this
      ensures Valid()
      ensures config == old(config) && file == Object(config)
      ensures LoadedConfig(file) == config
    {
      file := Object(config);
      SaveThenLoad(config);
    }

    /** `increase_font_size()`; `ok` is false where the update raises, and
        then nothing changes. */
    method IncreaseFontSize() returns (ok: bool)
      requires Valid()
      modifies this
      ensures Valid()
      ensures ok <==> Numeric(old(config)[FontSize]).Some?
      ensures ok == FontStep(old(config), Increased).Some?
      ensures ok ==> config == FontStep(old(config), Increased).value && file == Object(config)
      ensures !ok ==> config == old(config) && file == old(file)
    {
      if FontSize !in config {
        return false;
      }
      var next := Increased(config[FontSize]);
      if next.None? {
        return false;
      }
      config := config[FontSize := next.value];
      SaveConfig();
      ok := true;
    }

    /** `decrease_font_size()`. */
    method DecreaseFontSize() returns (ok: bool)
      requires Valid()
      modifies this
      ensures Valid()
      ensures ok <==> Numeric(old(config)[FontSize]).Some?
      ensures ok == FontStep(old(config), Decreased).Some?
      ensures ok ==> config == FontStep(old(config), Decreased).value && file == Object(config)
      ensures !ok ==> config == old(config) && file == old(file)
    {
      if FontSize !in config {
        return false;
      }
      var next := Decreased(config[FontSize]);
      if next.None? {
        return false;
      }
      config := config[FontSize := next.value];
      SaveConfig();
      ok := true;
    }

    /** `toggle_word_wrap(checked)`. */
    method ToggleWordWrap(checked: bool)
      requires Valid()
      modifies this
      ensures Valid()
      ensures config == old(config)[WordWrap := Bool(checked)] && file == Object(config)
      ensures forall k :: k in old(config) && k != WordWrap ==> k in config && config[k] == old(config)[k]
    {
      config := config[WordWrap := Bool(checked)];
      SaveConfig();
    }
  }
}

/**
 * The settings store: a key/value map filled with defaults on load, read
 * with a fallback, written key by key, with a clamped buffer length.
 */
module Config {
  import opened Options
  import opened Paths

  /** The values the two known settings hold: a number or a string. */
  datatype Value = Int(n: int) | Str(s: string)

  /** What reading `config.json` gives: no file, a file that fails to open or parse, or its parsed map. */
  datatype ConfigFile = Missing | Unreadable | Parsed(contents: map<string, Value>)

  const OutputDirKey: string := "output_dir"
  const BufferMinutesKey: string := "buffer_duration_minutes"

  /** The buffer length used until the user picks another, in minutes. */
  const DefaultMinutes: int := 5
  const MinMinutes: int := 1
  const MaxMinutes: int := 30

  /** `DEFAULT_SETTINGS`, in declaration order, for a user whose home directory is `home`. */
  function Defaults(home: string): (r: seq<(string, Value)>)
    ensures |r| == 2 && r[0].0 == OutputDirKey && r[1] == (BufferMinutesKey, Int(DefaultMinutes))
    ensures r[0].1.Str?
  {
    [(OutputDirKey, Str(Join(Join(home, "Videos"), "ScreenRecorder"))), (BufferMinutesKey, Int(DefaultMinutes))]
  }

  /** One step of the default-filling loop: a key not present gets the default value. */
  function Fill(m: map<string, Value>, d: (string, Value)): map<string, Value> {
    if d.0 in m then m else m[d.0 := d.1]
  }

  /** The map after the default-filling loop has run over `defaults`, first to last. */
  function WithDefaults(m: map<string, Value>, defaults: seq<(string, Value)>): (r: map<string, Value>)
    ensures forall k :: k in m ==> k in r && r[k] == m[k]
    ensures forall i :: 0 <= i < |defaults| ==> defaults[i].0 in r
    ensures forall k :: k in r ==> k in m || exists i :: 0 <= i < |defaults| && defaults[i] == (k, r[k])
    decreases |defaults|
  {
    if defaults == [] then m
    else
      var prefix := defaults[..|defaults| - 1];
      var r := Fill(WithDefaults(m, prefix), defaults[|defaults| - 1]);
      assert forall i :: 0 <= i < |prefix| ==> prefix[i] == defaults[i];
      r
  }

  lemma WithDefaultsStep(m: map<string, Value>, defaults: seq<(string, Value)>, i: int)
    requires 0 <= i < |defaults|
    ensures WithDefaults(m, defaults[..i + 1]) == Fill(WithDefaults(m, defaults[..i]), defaults[i])
  {
    assert defaults[..i + 1][..i] == defaults[..i];
  }

  /** What `_settings` holds before the defaults are applied: the previous map when there is no file. */
  function Loaded(file: ConfigFile, previous: map<string, Value>): map<string, Value> {
    match file
    case Missing => previous
    case Unreadable => map[]
    case Parsed(m) => m
  }

  /** A file that cannot be read or parsed yields exactly the defaults. */
  lemma UnreadableGivesDefaults(home: string, previous: map<string, Value>)
    ensures WithDefaults(Loaded(Unreadable, previous), Defaults(home))
         == map[OutputDirKey := Defaults(home)[0].1, BufferMinutesKey := Int(DefaultMinutes)]
  {
    var d := Defaults(home);
    assert d[..1] == [d[0]] && d[..1][..0] == [];
    assert WithDefaults(map[], d[..1]) == map[OutputDirKey := d[0].1];
    assert d[..|d| - 1] == d[..1];
  }

  /** `max(1, min(30, minutes))`. */
  function Clamp(minutes: int): (r: int)
    ensures MinMinutes <= r <= MaxMinutes
    ensures MinMinutes <= minutes <= MaxMinutes ==> r == minutes
    ensures minutes < MinMinutes ==> r == MinMinutes
    ensures minutes > MaxMinutes ==> r == MaxMinutes
  {
    if MaxMinutes < minutes then MaxMinutes else if minutes < MinMinutes then MinMinutes else minutes
  }

  class Settings {
    /** The user's home directory, which the default output directory lies under. */
    const home: string
    /** `%APPDATA%\ScreenRecorder`, or the home directory's `ScreenRecorder` when APPDATA is unset. */
    const appDataDir: string
    var entries: map<string, Value>

    /** Both known keys are present: true from the end of loading on, since nothing removes a key. */
    predicate Valid()
      reads this
    {
      OutputDirKey in entries && BufferMinutesKey in entries
    }

    /** `output_dir` holds a string, as every path operation on it needs. */
    predicate OutputDirIsStr()
      reads this
    {
      OutputDirKey in entries && entries[OutputDirKey].Str?
    }

    /** `buffer_duration_minutes` holds a number, as the seconds conversion needs. */
    predicate MinutesIsInt()
      reads this
    {
      BufferMinutesKey in entries && entries[BufferMinutesKey].Int?
    }

    constructor (home: string, appData: Option<string>, file: ConfigFile)
      ensures this.home == home
      ensures appDataDir == Join(appData.GetOr(home), "ScreenRecorder")
      ensures entries == WithDefaults(Loaded(file, map[]), Defaults(home))
      ensures Valid()
    {
      this.home := home;
      appDataDir := Join(appData.GetOr(home), "ScreenRecorder");
      entries := map[];
      new;
      Load(file);
    }

    /** `_load`: take the file's map (or an empty one when it is unreadable), then fill in missing defaults. */
    method Load(file: ConfigFile)
      modifies this
      ensures entries == WithDefaults(Loaded(file, old(entries)), Defaults(home))
      ensures Valid()
    {
      match file {
        case Missing =>
        case Unreadable => entries := map[];
        case Parsed(m) => entries := m;
      }
      var defaults := Defaults(home);
      ghost var start := entries;
      var i := 0;
      while i < |defaults|
        invariant 0 <= i <= |defaults|
        invariant entries == WithDefaults(start, defaults[..i])
      {
        WithDefaultsStep(start, defaults, i);
        var (key, value) := defaults[i];
        if key !in entries {
          entries := entries[key := value];
        }
        i := i + 1;
      }
      assert defaults[..i] == defaults;
    }

    /** `get(key, default)`. */
    function Get(key: string, default: Value): (r: Value)
      reads this
      ensures key in entries ==> r == entries[key]
      ensures key !in entries ==> r == default
    {
      if key in entries then entries[key] else default
    }

    /** `set(key, value)`: afterwards `get(key)` is `value`, and every other key reads as before. */
    method Set(key: string, value: Value)
      modifies this
      ensures entries == old(entries)[key := value]
      ensures forall d :: Get(key, d) == value
      ensures forall k, d :: k != key ==> Get(k, d) == old(Get(k, d))
      ensures old(Valid()) ==> Valid()
    {
      entries := entries[key := value];
    }

    /** The `output_dir` property. */
    function OutputDir(): (r: Value)
      requires OutputDirKey in entries
      reads this
      ensures r == Get(OutputDirKey, Str(""))
    {
      entries[OutputDirKey]
    }

    method SetOutputDir(path: string)
      modifies this
      ensures entries == old(entries)[OutputDirKey := Str(path)]
      ensures OutputDirKey in entries && OutputDir() == Str(path)
      ensures OutputDirIsStr() && MinutesIsInt() == old(MinutesIsInt())
    {
      entries := entries[OutputDirKey := Str(path)];
    }

    /** The `buffer_duration_minutes` getter: the stored value, not clamped, whatever the file held. */
    function BufferDurationMinutes(): (r: Value)
      requires BufferMinutesKey in entries
      reads this
      ensures r == Get(BufferMinutesKey, Int(DefaultMinutes))
    {
      entries[BufferMinutesKey]
    }

    /** The `buffer_duration_minutes` setter: stores the value clamped to 1..30. */
    method SetBufferDurationMinutes(minutes: int)
      modifies this
      ensures entries == old(entries)[BufferMinutesKey := Int(Clamp(minutes))]
      ensures Valid() == old(OutputDirKey in entries)
      ensures BufferMinutesKey in entries && MinMinutes <= entries[BufferMinutesKey].n <= MaxMinutes
      ensures MinutesIsInt() && OutputDirIsStr() == old(OutputDirIsStr())
      ensures 60 <= BufferDurationSeconds() <= 1800
    {
      entries := entries[BufferMinutesKey := Int(Clamp(minutes))];
    }

    /** `buffer_duration_seconds`: the stored minutes times sixty. */
    function BufferDurationSeconds(): (r: int)
      requires BufferMinutesKey in entries && entries[BufferMinutesKey].Int?
      reads this
      ensures r == 60 * BufferDurationMinutes().n
      ensures MinMinutes <= BufferDurationMinutes().n <= MaxMinutes ==> 60 <= r <= 1800
    {
      BufferDurationMinutes().n * 60
    }
  }

  /** A value the setter stored is stored unchanged when set again. */
  lemma ClampIdempotent(minutes: int)
    ensures Clamp(Clamp(minutes)) == Clamp(minutes)
  {
  }
}

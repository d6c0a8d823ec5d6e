/** The studio's settings store: a dictionary of JSON values, merged over
    built-in defaults, persisted as `settings.json` under the FramePack home
    directory, with the output, metadata, LoRA and temporary directories
    created whenever the settings are saved. */
module AppSettings {
  import opened Wrappers
  import opened Bytes
  import Paths
  import FileSystem

  /** A JSON value as `json.load` produces it. */
  datatype Value =
    | Null
    | Bool(b: bool)
    | Int(i: int)
    | Float(f: real)
    | Str(s: string)
    | List(items: seq<Value>)
    | Object(fields: map<string, Value>)

  /** Python truthiness of a JSON value. */
  predicate Truthy(v: Value)
  {
    match v
    case Null => false
    case Bool(b) => b
    case Int(i) => i != 0
    case Float(f) => f != 0.0
    case Str(s) => s != ""
    case List(items) => items != []
    case Object(fields) => fields != map[]
  }

  /** `json.load` and `json.dump` on the bytes of the settings file; the
      parser yields None for bytes that are not a JSON document. */
  datatype Json = Json(parse: seq<byte> -> Option<Value>, dump: Value -> seq<byte>)

  datatype SettingsError =
    | NotAPath(key: string)            // makedirs of a truthy non-string: TypeError
    | FileInTheWay(path: string)       // makedirs or mkdir where a file exists
    | DirectoryInTheWay(path: string)  // open(settings_file, 'w') on a directory

  /** `os.environ.get(name, default)`. */
  function EnvOr(env: map<string, string>, name: string, default: string): string
  {
    if name in env then env[name] else default
  }

  const HomeVariable: string := "FRAMEPACK_HOME"
  const SettingsFileName: string := "settings.json"
  const AutoSaveKey: string := "auto_save_settings"
  /** The settings that name directories to create on every save, in order. */
  const DirKeys: seq<string> := ["output_dir", "metadata_dir", "lora_dir", "gradio_temp_dir"]
  const SystemPromptTemplate: string :=
    "{\"template\": \"<|start_header_id|>system<|end_header_id|>\\"
    + "n\\nDescribe the video by detailing the following aspects: 1"
    + ". The main content and theme of the video.2. The color, shap"
    + "e, size, texture, quantity, text, and spatial relationships "
    + "of the objects.3. Actions, events, behaviors temporal relati"
    + "onships, physical movement changes of the objects.4. backgro"
    + "und environment, light, style and atmosphere.5. camera angle"
    + "s, movements, and transitions used in the video:<|eot_id|><|"
    + "start_header_id|>user<|end_header_id|>\\n\\n{}<|eot_id|>\", "
    + "\"crop_start\": 95}"

  /** The four directory defaults of `default_settings`, each an environment
      override or a default path: under the FramePack home, or the fresh
      temporary directory for Gradio. */
  function DirDefaults(env: map<string, string>, homeRoot: string, tempDir: string)
    : (r: seq<(string, Value)>)
    ensures |r| == |DirKeys|
    ensures forall j :: 0 <= j < |DirKeys| ==> r[j].0 == DirKeys[j] && r[j].1.Str?
  {
    [("output_dir", Str(EnvOr(env, "FRAMEPACK_OUTPUT_DIR", Paths.Join(homeRoot, "outputs")))),
     ("metadata_dir", Str(EnvOr(env, "FRAMEPACK_METADATA_DIR", Paths.Join(homeRoot, "metadata")))),
     ("lora_dir", Str(EnvOr(env, "FRAMEPACK_LORAS_DIR", Paths.Join(homeRoot, "loras")))),
     ("gradio_temp_dir", Str(EnvOr(env, "GRADIO_TEMP_DIR", tempDir)))]
  }

  /** The defaults after `input_files_dir`, none of which depends on the
      environment. */
  const FixedDefaults: seq<(string, Value)> :=
    [(AutoSaveKey, Bool(true)),
     ("gradio_theme", Str("default")),
     ("mp4_crf", Int(16)),
     ("clean_up_videos", Bool(true)),
     ("cleanup_temp_folder", Bool(false)),
     ("override_system_prompt", Bool(false)),
     ("system_prompt_template", Str(SystemPromptTemplate)),
     ("startup_model_type", Str("None")),
     ("startup_preset_name", Null)]

  /** `default_settings`, in the order of the dictionary literal. `homeRoot`
      is the FramePack home and `tempDir` the directory `tempfile.mkdtemp()`
      created. */
  function DefaultSettings(env: map<string, string>, homeRoot: string, tempDir: string)
    : seq<(string, Value)>
  {
    var head := [("save_metadata", Bool(true)),
                 ("gpu_memory_preservation",
                    if "FRAMEPACK_GPU_MEMORY_BUFFER" in env then Str(env["FRAMEPACK_GPU_MEMORY_BUFFER"])
                    else Float(6.0))];
    var dirs := DirDefaults(env, homeRoot, tempDir);
    var inputs := ("input_files_dir", Str(EnvOr(env, "FRAMEPACK_INPUT_DIR", Paths.Join(homeRoot, "input_files"))));
    head + dirs + [inputs] + FixedDefaults
  }

  /** The sixteen defaults hold the four directory settings at positions 2
      to 5, in the order they are created. */
  lemma DefaultSettingsShape(env: map<string, string>, homeRoot: string, tempDir: string)
    ensures var r := DefaultSettings(env, homeRoot, tempDir);
            |r| == 16 && r[2..2 + |DirKeys|] == DirDefaults(env, homeRoot, tempDir)
  {
    var r := DefaultSettings(env, homeRoot, tempDir);
    assert |FixedDefaults| == 9;
    assert r[2..6] == DirDefaults(env, homeRoot, tempDir);
  }

  // ---------------------------------------------------------------------
  // Merging with the defaults

  /** `for k, v in pairs: m.setdefault(k, v)`. */
  function SetDefaults(m: map<string, Value>, pairs: seq<(string, Value)>): map<string, Value>
    decreases |pairs|
  {
    if |pairs| == 0 then m
    else
      var before := SetDefaults(m, pairs[..|pairs| - 1]);
      var (k, v) := pairs[|pairs| - 1];
      if k in before then before else before[k := v]
  }

  /** The defaults as a dictionary. */
  function DefaultsMap(pairs: seq<(string, Value)>): map<string, Value>
  {
    SetDefaults(map[], pairs)
  }

  /** Filling in defaults keeps every existing entry and adds exactly the
      missing default keys: it is the defaults overridden by `m`. */
  lemma {:induction false} SetDefaultsIsMerge(m: map<string, Value>, pairs: seq<(string, Value)>)
    ensures SetDefaults(m, pairs) == DefaultsMap(pairs) + m
    decreases |pairs|
  {
    if |pairs| > 0 {
      var prefix := pairs[..|pairs| - 1];
      SetDefaultsIsMerge(m, prefix);
      SetDefaultsIsMerge(map[], prefix);
      assert SetDefaults(map[], prefix) + map[] == SetDefaults(map[], prefix);
    }
  }

  /** Every default key is present afterwards; a dictionary that already has
      them all is left as it is. */
  lemma SetDefaultsComplete(m: map<string, Value>, pairs: seq<(string, Value)>)
    ensures DefaultsMap(pairs).Keys <= SetDefaults(m, pairs).Keys
    ensures DefaultsMap(pairs).Keys <= m.Keys ==> SetDefaults(m, pairs) == m
  {
    SetDefaultsIsMerge(m, pairs);
  }

  /** Saving a dictionary that already holds every default changes none of
      its entries. */
  lemma SaveKeeps(m: map<string, Value>, pairs: seq<(string, Value)>)
    requires DefaultsMap(pairs).Keys <= m.Keys
    ensures DefaultsMap(pairs) + (m + map[]) == m
  {
    SetDefaultsComplete(m, pairs);
    SetDefaultsIsMerge(m, pairs);
    assert m + map[] == m;
  }

  /** What `load_settings` keeps from a parsed file: a JSON object overrides
      the defaults key by key; anything else makes `update` raise, and the
      handler falls back to the defaults. */
  function Loaded(defaults: seq<(string, Value)>, parsed: Option<Value>): (r: map<string, Value>)
    ensures DefaultsMap(defaults).Keys <= r.Keys
    ensures parsed.Some? && parsed.value.Object? ==>
              forall k :: k in parsed.value.fields ==> k in r && r[k] == parsed.value.fields[k]
    ensures forall k :: k in r && !(parsed.Some? && parsed.value.Object? && k in parsed.value.fields) ==>
              k in DefaultsMap(defaults) && r[k] == DefaultsMap(defaults)[k]
  {
    match parsed
    case Some(Object(fields)) => DefaultsMap(defaults) + fields
    case _ => DefaultsMap(defaults)
  }

  /** What is saved reads back unchanged, provided the JSON codec round-trips
      the document. */
  lemma SaveThenLoad(defaults: seq<(string, Value)>, m: map<string, Value>, json: Json)
    requires DefaultsMap(defaults).Keys <= m.Keys
    requires json.parse(json.dump(Object(m))) == Some(Object(m))
    ensures Loaded(defaults, json.parse(json.dump(Object(m)))) == m
  {
    assert DefaultsMap(defaults) + m == m;
  }

  // ---------------------------------------------------------------------
  // Creating the directories

  /** `os.makedirs(dir_path, exist_ok=True)` for each truthy directory setting,
      key by key: the first error, and the directories created before it. */
  function MakeDirs(settings: map<string, Value>, keys: seq<string>, files: set<string>)
    : (r: (Result<(), SettingsError>, set<string>))
    ensures r.1 !! files
    ensures r.0.Ok? <==> forall i :: 0 <= i < |keys| ==> DirOk(settings, keys[i], files)
    ensures r.0.Ok? ==> forall i :: 0 <= i < |keys| && keys[i] in settings && Truthy(settings[keys[i]]) ==>
                          settings[keys[i]].s in r.1
    ensures r.0.Err? && r.0.error.NotAPath? ==>
              var k := r.0.error.key; k in keys && k in settings && Truthy(settings[k]) && !settings[k].Str?
    ensures r.0.Ok? ==> r.1 == Made(settings, keys)
    ensures r.0.Err? ==> exists i :: FailsAt(settings, keys, files, i) && r.1 == Made(settings, keys[..i])
                                     && r.0.error == DirError(keys[i], settings[keys[i]])
    decreases |keys|
  {
    if |keys| == 0 then (Ok(()), {})
    else
      var prefix := keys[..|keys| - 1];
      var (res, made) := MakeDirs(settings, prefix, files);
      var k := keys[|keys| - 1];
      var dirPath := if k in settings then settings[k] else Null;
      MadeStep(settings, keys);
      FailsAtPrefix(settings, keys, files);
      if res.Err? || !Truthy(dirPath) then (res, made)
      else if !dirPath.Str? then (Err(NotAPath(k)), made)
      else if dirPath.s in files then (Err(FileInTheWay(dirPath.s)), made)
      else (Ok(()), made + {dirPath.s})
  }

  /** The directories named by the truthy string settings among `keys`. */
  function Made(settings: map<string, Value>, keys: seq<string>): set<string>
  {
    set i | 0 <= i < |keys| && keys[i] in settings && Truthy(settings[keys[i]]) && settings[keys[i]].Str?
      :: settings[keys[i]].s
  }

  /** `keys[i]` is the first directory setting that `save_settings` rejects. */
  predicate FailsAt(settings: map<string, Value>, keys: seq<string>, files: set<string>, i: int)
  {
    && 0 <= i < |keys|
    && (forall j :: 0 <= j < i ==> DirOk(settings, keys[j], files))
    && !DirOk(settings, keys[i], files)
  }

  /** The error `os.makedirs` raises for a rejected setting: a TypeError for
      a value that is not a path, else the existing file in the way. */
  function DirError(key: string, v: Value): SettingsError
  {
    if v.Str? then FileInTheWay(v.s) else NotAPath(key)
  }

  lemma MadeStep(settings: map<string, Value>, keys: seq<string>)
    requires |keys| > 0
    ensures var k := keys[|keys| - 1];
            Made(settings, keys)
            == Made(settings, keys[..|keys| - 1])
               + if k in settings && Truthy(settings[k]) && settings[k].Str? then {settings[k].s} else {}
  {
    var prefix := keys[..|keys| - 1];
    var k := keys[|keys| - 1];
    var extra: set<string> := if k in settings && Truthy(settings[k]) && settings[k].Str? then {settings[k].s} else {};
    forall x | x in Made(settings, keys)
      ensures x in Made(settings, prefix) + extra
    {
      var i :| 0 <= i < |keys| && keys[i] in settings && Truthy(settings[keys[i]]) && settings[keys[i]].Str?
               && x == settings[keys[i]].s;
      if i < |prefix| {
        assert prefix[i] == keys[i];
      }
    }
    forall x | x in Made(settings, prefix) + extra
      ensures x in Made(settings, keys)
    {
      if x in Made(settings, prefix) {
        var i :| 0 <= i < |prefix| && prefix[i] in settings && Truthy(settings[prefix[i]]) && settings[prefix[i]].Str?
                 && x == settings[prefix[i]].s;
        assert keys[i] == prefix[i];
      } else {
        assert keys[|keys| - 1] == k;
      }
    }
  }

  lemma FailsAtPrefix(settings: map<string, Value>, keys: seq<string>, files: set<string>)
    requires |keys| > 0
    ensures forall i :: FailsAt(settings, keys[..|keys| - 1], files, i) ==>
              FailsAt(settings, keys, files, i) && keys[..|keys| - 1][..i] == keys[..i]
                && keys[..|keys| - 1][i] == keys[i]
  {
  }

  /** A directory setting that `save_settings` accepts: falsy, or a string
      that does not name an existing file. */
  predicate DirOk(settings: map<string, Value>, key: string, files: set<string>)
  {
    key in settings && Truthy(settings[key]) ==> settings[key].Str? && settings[key].s !in files
  }

  /** Whether saving happens after `set` and `update`: the setting, when
      present, must be truthy. */
  predicate AutoSave(settings: map<string, Value>)
  {
    AutoSaveKey !in settings || Truthy(settings[AutoSaveKey])
  }

  class Settings {
    const settingsFile: string
    const defaultSettings: seq<(string, Value)>
    var settings: map<string, Value>

    /** Once loaded, every default key has a value. */
    predicate Valid()
      reads this
    {
      DefaultsMap(defaultSettings).Keys <= settings.Keys
    }

    constructor (settingsFile: string, defaultSettings: seq<(string, Value)>)
      ensures this.settingsFile == settingsFile && this.defaultSettings == defaultSettings
      ensures settings == map[]
    {
      this.settingsFile := settingsFile;
      this.defaultSettings := defaultSettings;
      settings := map[];
    }

    /** `get(key, default)`. */
    function Get(key: string, default: Value): (r: Value)
      reads this
      ensures key in settings ==> r == settings[key]
      ensures key !in settings ==> r == default
    {
      if key in settings then settings[key] else default
    }

    /** `save_settings(**kwargs)`: apply `kwargs`, fill in missing defaults,
        create the directory settings in order, then write the file. The
        dictionary keeps its new contents even when a later step raises. */
    method SaveSettings(disk: FileSystem.Disk, json: Json, kwargs: map<string, Value>)
      returns (r: Result<(), SettingsError>)
      requires disk.Valid()
      modifies this, disk
      ensures disk.Valid() && Valid()
      ensures settings == DefaultsMap(defaultSettings) + (old(settings) + kwargs)
      ensures var (res, made) := MakeDirs(settings, DirKeys, old(disk.files.Keys));
              disk.dirs == old(disk.dirs) + made
              && (res.Err? ==> r == res && disk.files == old(disk.files))
              && (res.Ok? && settingsFile in disk.dirs ==>
                    r == Err(DirectoryInTheWay(settingsFile)) && disk.files == old(disk.files))
              && (res.Ok? && settingsFile !in disk.dirs ==>
                    r == Ok(()) && disk.files == old(disk.files)[settingsFile := json.dump(Object(settings))])
    {
      settings := settings + kwargs;
      FillDefaults();
      var made := MakeDirectories(disk);
      if made.Err? {
        return made;
      }
      if settingsFile in disk.dirs {
        return Err(DirectoryInTheWay(settingsFile));
      }
      disk.files := disk.files[settingsFile := json.dump(Object(settings))];
      r := Ok(());
    }

    /** The `setdefault` loop of `save_settings`. */
    method FillDefaults()
      modifies this
      ensures Valid()
      ensures settings == DefaultsMap(defaultSettings) + old(settings)
    {
      ghost var updated := settings;
      var i := 0;
      while i < |defaultSettings|
        invariant 0 <= i <= |defaultSettings|
        invariant settings == SetDefaults(updated, defaultSettings[..i])
      {
        var (k, v) := defaultSettings[i];
        assert defaultSettings[..i + 1][..i] == defaultSettings[..i];
        if k !in settings {
          settings := settings[k := v];
        }
        i := i + 1;
      }
      assert defaultSettings[..i] == defaultSettings;
      SetDefaultsIsMerge(updated, defaultSettings);
      SetDefaultsComplete(updated, defaultSettings);
    }

    /** The directory loop of `save_settings`. */
    method MakeDirectories(disk: FileSystem.Disk) returns (r: Result<(), SettingsError>)
      requires disk.Valid()
      modifies disk
      ensures disk.Valid() && disk.files == old(disk.files)
      ensures var (res, made) := MakeDirs(settings, DirKeys, old(disk.files.Keys));
              (r.Ok? <==> res.Ok?) && (r.Err? ==> r.error == res.error)
              && disk.dirs == old(disk.dirs) + made
    {
      var j := 0;
      while j < |DirKeys|
        invariant 0 <= j <= |DirKeys|
        invariant disk.files == old(disk.files) && disk.Valid()
        invariant MakeDirs(settings, DirKeys[..j], old(disk.files.Keys)).0.Ok?
        invariant disk.dirs == old(disk.dirs) + MakeDirs(settings, DirKeys[..j], old(disk.files.Keys)).1
      {
        MakeDirsStep(settings, DirKeys, j, old(disk.files.Keys));
        var dirPath := Get(DirKeys[j], Null);
        if Truthy(dirPath) {
          if !dirPath.Str? {
            MakeDirsStops(settings, DirKeys, j, old(disk.files.Keys));
            return Err(NotAPath(DirKeys[j]));
          }
          if dirPath.s in disk.files {
            MakeDirsStops(settings, DirKeys, j, old(disk.files.Keys));
            return Err(FileInTheWay(dirPath.s));
          }
          disk.dirs := disk.dirs + {dirPath.s};
        }
        j := j + 1;
      }
      assert DirKeys[..j] == DirKeys;
      r := Ok(());
    }

    /** `load_settings`: an existing file is read and merged over the
        defaults (anything unreadable falls back to the defaults, and nothing
        is written); a missing file gets the defaults, which are then saved. */
    method LoadSettings(disk: FileSystem.Disk, json: Json) returns (r: Result<map<string, Value>, SettingsError>)
      requires disk.Valid()
      modifies this, disk
      ensures disk.Valid() && Valid()
      ensures old(disk.Exists(settingsFile)) ==>
                r == Ok(settings) && disk.files == old(disk.files) && disk.dirs == old(disk.dirs)
                && settings == Loaded(defaultSettings,
                                      if settingsFile in disk.files then json.parse(disk.files[settingsFile]) else None)
      ensures !old(disk.Exists(settingsFile)) ==>
                settings == DefaultsMap(defaultSettings) && (r.Ok? ==> r.value == settings)
                && var (res, made) := MakeDirs(settings, DirKeys, old(disk.files.Keys));
                   disk.dirs == old(disk.dirs) + made
                   && (r.Ok? <==> res.Ok? && settingsFile !in disk.dirs)
                   && (r.Ok? ==> disk.files == old(disk.files)[settingsFile := json.dump(Object(settings))])
                   && (r.Err? ==> disk.files == old(disk.files))
                   && (r.Err? && res.Err? ==> r.error == res.error)
                   && (r.Err? && res.Ok? ==> r.error == DirectoryInTheWay(settingsFile))
    {
      if disk.Exists(settingsFile) {
        var parsed: Option<Value> := None;
        if settingsFile in disk.files {
          parsed := json.parse(disk.files[settingsFile]);
        }
        // a directory cannot be opened for reading, and a document that is
        // not an object makes `update` raise: both are caught
        if parsed.Some? && parsed.value.Object? {
          settings := DefaultsMap(defaultSettings) + parsed.value.fields;
        } else {
          settings := DefaultsMap(defaultSettings);
        }
        return Ok(settings);
      }
      settings := DefaultsMap(defaultSettings);
      SetDefaultsComplete(map[], defaultSettings);
      assert DefaultsMap(defaultSettings) + (settings + map[]) == settings;
      var saved := SaveSettings(disk, json, map[]);
      if saved.Err? {
        return Err(saved.error);
      }
      r := Ok(settings);
    }

    /** `set(key, value)`, saving afterwards when auto-save is on. */
    method Set(disk: FileSystem.Disk, json: Json, key: string, value: Value) returns (r: Result<(), SettingsError>)
      requires disk.Valid() && Valid()
      modifies this, disk
      ensures disk.Valid() && Valid()
      ensures settings == old(settings)[key := value]
      ensures !AutoSave(settings) ==> r.Ok? && disk.files == old(disk.files) && disk.dirs == old(disk.dirs)
      ensures AutoSave(settings) ==>
                var (res, made) := MakeDirs(settings, DirKeys, old(disk.files.Keys));
                disk.dirs == old(disk.dirs) + made
                && (r.Ok? <==> res.Ok? && settingsFile !in disk.dirs)
                && (r.Ok? ==> disk.files == old(disk.files)[settingsFile := json.dump(Object(settings))])
                && (r.Err? ==> disk.files == old(disk.files))
    {
      settings := settings[key := value];
      if Truthy(Get(AutoSaveKey, Bool(true))) {
        SaveKeeps(settings, defaultSettings);
        r := SaveSettings(disk, json, map[]);
      } else {
        r := Ok(());
      }
    }

    /** `update(settings)`: every given entry overrides, then the same
        auto-save as `set`. */
    method Update(disk: FileSystem.Disk, json: Json, entries: map<string, Value>) returns (r: Result<(), SettingsError>)
      requires disk.Valid() && Valid()
      modifies this, disk
      ensures disk.Valid() && Valid()
      ensures settings == old(settings) + entries
      ensures !AutoSave(settings) ==> r.Ok? && disk.files == old(disk.files) && disk.dirs == old(disk.dirs)
      ensures AutoSave(settings) ==>
                var (res, made) := MakeDirs(settings, DirKeys, old(disk.files.Keys));
                disk.dirs == old(disk.dirs) + made
                && (r.Ok? <==> res.Ok? && settingsFile !in disk.dirs)
                && (r.Ok? ==> disk.files == old(disk.files)[settingsFile := json.dump(Object(settings))])
                && (r.Err? ==> disk.files == old(disk.files))
    {
      settings := settings + entries;
      if Truthy(Get(AutoSaveKey, Bool(true))) {
        SaveKeeps(settings, defaultSettings);
        r := SaveSettings(disk, json, map[]);
      } else {
        r := Ok(());
      }
    }
  }

  /** `Settings()`: make the FramePack home (from `FRAMEPACK_HOME`, else the
      expanded `~/.cache/framepack`), create the temporary directory that
      the defaults always ask `tempfile.mkdtemp()` for, then load. */
  method Open(disk: FileSystem.Disk, json: Json, env: map<string, string>, expandedHome: string, tempDir: string)
    returns (r: Result<Settings, SettingsError>)
    requires disk.Valid() && !disk.Exists(tempDir)
    modifies disk
    ensures disk.Valid()
    ensures var homeRoot := EnvOr(env, HomeVariable, expandedHome);
            homeRoot in old(disk.files) ==> r == Err(FileInTheWay(homeRoot)) && unchanged(disk)
    ensures r.Ok? ==>
              var homeRoot := EnvOr(env, HomeVariable, expandedHome);
              fresh(r.value) && r.value.Valid()
              && r.value.settingsFile == Paths.Join(homeRoot, SettingsFileName)
              && r.value.defaultSettings == DefaultSettings(env, homeRoot, tempDir)
              && {homeRoot, tempDir} <= disk.dirs
    ensures var homeRoot := EnvOr(env, HomeVariable, expandedHome);
            var settingsFile := Paths.Join(homeRoot, SettingsFileName);
            var defaults := DefaultSettings(env, homeRoot, tempDir);
            var found := settingsFile in old(disk.files) || settingsFile in old(disk.dirs) + {homeRoot, tempDir};
            var (res, made) := MakeDirs(DefaultsMap(defaults), DirKeys, old(disk.files.Keys));
            homeRoot !in old(disk.files) ==>
              && (found ==>
                    && r.Ok?
                    && r.value.settings == Loaded(defaults, if settingsFile in old(disk.files)
                                                            then json.parse(old(disk.files)[settingsFile]) else None)
                    && disk.files == old(disk.files)
                    && disk.dirs == old(disk.dirs) + {homeRoot, tempDir})
              && (!found ==>
                    && disk.dirs == old(disk.dirs) + {homeRoot, tempDir} + made
                    && (r.Ok? <==> res.Ok? && settingsFile !in disk.dirs)
                    && (r.Ok? ==> r.value.settings == DefaultsMap(defaults)
                                  && disk.files == old(disk.files)[settingsFile := json.dump(Object(DefaultsMap(defaults)))])
                    && (r.Err? ==> disk.files == old(disk.files))
                    && (r.Err? && res.Err? ==> r.error == res.error)
                    && (r.Err? && res.Ok? ==> r.error == DirectoryInTheWay(settingsFile)))
  {
    var homeRoot := EnvOr(env, HomeVariable, expandedHome);
    if homeRoot in disk.files {
      return Err(FileInTheWay(homeRoot));
    }
    disk.dirs := disk.dirs + {homeRoot};
    var settingsFile := Paths.Join(homeRoot, SettingsFileName);
    disk.dirs := disk.dirs + {tempDir};
    var defaults := DefaultSettings(env, homeRoot, tempDir);
    var s := new Settings(settingsFile, defaults);
    assert disk.files == old(disk.files) && disk.dirs == old(disk.dirs) + {homeRoot, tempDir};
    ghost var found := disk.Exists(settingsFile);
    var loaded := s.LoadSettings(disk, json);
    ghost var made := MakeDirs(DefaultsMap(defaults), DirKeys, old(disk.files.Keys)).1;
    assert !found ==> s.settings == DefaultsMap(defaults)
                      && disk.dirs == old(disk.dirs) + {homeRoot, tempDir} + made;
    if loaded.Err? {
      return Err(loaded.error);
    }
    r := Ok(s);
  }

  /** One more key after a prefix that succeeded. */
  lemma MakeDirsStep(settings: map<string, Value>, keys: seq<string>, j: nat, files: set<string>)
    requires j < |keys| && MakeDirs(settings, keys[..j], files).0.Ok?
    ensures var made := MakeDirs(settings, keys[..j], files).1;
            var v := if keys[j] in settings then settings[keys[j]] else Null;
            MakeDirs(settings, keys[..j + 1], files)
            == if !Truthy(v) then (Ok(()), made)
               else if !v.Str? then (Err(NotAPath(keys[j])), made)
               else if v.s in files then (Err(FileInTheWay(v.s)), made)
               else (Ok(()), made + {v.s})
  {
    var p := keys[..j + 1];
    assert p[..|p| - 1] == keys[..j] && p[|p| - 1] == keys[j];
    var res := MakeDirs(settings, keys[..j], files).0;
    assert res.value == ();
  }

  /** Once a directory step fails, the later keys change nothing. */
  lemma {:induction false} MakeDirsStops(settings: map<string, Value>, keys: seq<string>, j: nat, files: set<string>)
    requires j < |keys|
    requires MakeDirs(settings, keys[..j + 1], files).0.Err?
    ensures MakeDirs(settings, keys, files) == MakeDirs(settings, keys[..j + 1], files)
    decreases |keys|
  {
    if j + 1 < |keys| {
      var prefix := keys[..|keys| - 1];
      assert prefix[..j + 1] == keys[..j + 1];
      MakeDirsStops(settings, prefix, j, files);
    } else {
      assert keys[..j + 1] == keys;
    }
  }
}

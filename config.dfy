/**
 * src/config.py: the default configuration, `validate_config`, and the state
 * that `load_parameters` and `update_config` read and change, namely the
 * file parameters.json and the module-level dict `DEFAULT_CONFIG`.
 */
module Config {
  import opened Wrappers
  import opened Text

  /** A value `json.loads` can produce (numbers as integers). */
  datatype JsonValue =
    | JNull
    | JBool(b: bool)
    | JNumber(n: int)
    | JString(s: string)
    | JArray(items: seq<JsonValue>)
    | JObject(fields: map<string, JsonValue>)

  type ConfigDict = map<string, JsonValue>

  const BaseSourceKey := "base_source_dir"
  const DestinationKey := "destination_dir"
  const RequiredParams: seq<string> := [BaseSourceKey, DestinationKey]

  /** `DEFAULT_CONFIG` as the module defines it. */
  function DefaultConfig(): ConfigDict {
    map[BaseSourceKey := JString("C:\\Path\\To\\Your\\Source\\Directory"),
        DestinationKey := JString("C:\\Path\\To\\Your\\Destination\\Directory")]
  }

  /** The two reasons `validate_config` raises ConfigurationError. */
  datatype ConfigurationError =
    | MissingParameters(names: seq<string>)
    | NotAString(name: string)
  {
    function Message(): string {
      match this
      case MissingParameters(names) => "Missing required parameters: " + JoinWith(names, ", ")
      case NotAString(name) => "Parameter '" + name + "' must be a string"
    }
  }

  /** `[param for param in params if param not in config]`: the absent keys, in the order of `params`. */
  function MissingFrom(params: seq<string>, config: ConfigDict): (r: seq<string>)
    ensures forall p :: p in r <==> p in params && p !in config
    ensures |r| <= |params|
  {
    if params == [] then []
    else (if params[0] in config then [] else [params[0]]) + MissingFrom(params[1..], config)
  }

  /** The first key of `params` whose value is not a string; all of them must be present. */
  function FirstNonString(params: seq<string>, config: ConfigDict): (r: Option<string>)
    requires forall p :: p in params ==> p in config
    ensures r.None? <==> forall p :: p in params ==> config[p].JString?
    ensures r.Some? ==> r.value in params && !config[r.value].JString?
  {
    if params == [] then None
    else if !config[params[0]].JString? then Some(params[0])
    else FirstNonString(params[1..], config)
  }

  /** `validate_config`: every missing key reported together first, then the first non-string value. */
  function ValidateConfig(config: ConfigDict): (r: Outcome<ConfigurationError>)
    ensures r.Pass? <==>
      && BaseSourceKey in config && config[BaseSourceKey].JString?
      && DestinationKey in config && config[DestinationKey].JString?
  {
    var missing := MissingFrom(RequiredParams, config);
    if missing != [] then
      assert missing[0] in missing;
      Fail(MissingParameters(missing))
    else
      assert BaseSourceKey in RequiredParams && DestinationKey in RequiredParams;
      match FirstNonString(RequiredParams, config)
      case Some(p) => Fail(NotAString(p))
      case None => Pass
  }

  /** The missing keys are listed in the order base_source_dir, destination_dir, before any type check. */
  lemma MissingReportedInOrder(config: ConfigDict)
    requires BaseSourceKey !in config || DestinationKey !in config
    ensures ValidateConfig(config) == Fail(MissingParameters(
      (if BaseSourceKey in config then [] else [BaseSourceKey]) +
      (if DestinationKey in config then [] else [DestinationKey])))
  {
    assert RequiredParams[1..] == [DestinationKey];
    assert MissingFrom([DestinationKey], config) == if DestinationKey in config then [] else [DestinationKey];
  }

  /** With both keys present, the first non-string one in that order is reported. */
  lemma FirstNonStringReported(config: ConfigDict)
    requires BaseSourceKey in config && DestinationKey in config
    ensures !config[BaseSourceKey].JString? ==> ValidateConfig(config) == Fail(NotAString(BaseSourceKey))
    ensures config[BaseSourceKey].JString? && !config[DestinationKey].JString? ==>
      ValidateConfig(config) == Fail(NotAString(DestinationKey))
  {
    assert MissingFrom(RequiredParams, config) == [];
    assert RequiredParams[1..][1..] == [];
  }

  /** The message for two missing keys names both, separated by a comma. */
  lemma BothMissingMessage()
    ensures MissingParameters(RequiredParams).Message() ==
      "Missing required parameters: " + BaseSourceKey + ", " + DestinationKey
  {
    assert RequiredParams[1..] == [DestinationKey];
    assert JoinWith(RequiredParams, ", ") == BaseSourceKey + ", " + DestinationKey;
  }

  /** Keys other than the two required ones never change the verdict of `validate_config`. */
  lemma OtherKeysIgnored(config: ConfigDict, key: string, value: JsonValue)
    requires key !in RequiredParams
    ensures ValidateConfig(config[key := value]) == ValidateConfig(config)
    ensures ValidateConfig(config - {key}) == ValidateConfig(config)
  {
    SameRequiredSameVerdict(config[key := value], config);
    SameRequiredSameVerdict(config - {key}, config);
  }

  /** Two configurations that agree on the required keys get the same verdict. */
  lemma {:induction false} SameRequiredSameVerdict(a: ConfigDict, b: ConfigDict)
    requires forall p :: p in RequiredParams ==> (p in a <==> p in b)
    requires forall p :: p in RequiredParams && p in a ==> a[p] == b[p]
    ensures ValidateConfig(a) == ValidateConfig(b)
  {
    SameKeysSameMissing(RequiredParams, a, b);
    if MissingFrom(RequiredParams, a) == [] {
      SameValuesSameFirstNonString(RequiredParams, a, b);
    }
  }

  lemma {:induction false} SameKeysSameMissing(params: seq<string>, a: ConfigDict, b: ConfigDict)
    requires forall p :: p in params ==> (p in a <==> p in b)
    ensures MissingFrom(params, a) == MissingFrom(params, b)
  {
    if params != [] {
      SameKeysSameMissing(params[1..], a, b);
    }
  }

  lemma {:induction false} SameValuesSameFirstNonString(params: seq<string>, a: ConfigDict, b: ConfigDict)
    requires forall p :: p in params ==> p in a && p in b && a[p] == b[p]
    ensures FirstNonString(params, a) == FirstNonString(params, b)
  {
    if params != [] {
      SameValuesSameFirstNonString(params[1..], a, b);
    }
  }

  /** `DEFAULT_CONFIG` passes validation. */
  lemma DefaultConfigIsValid()
    ensures ValidateConfig(DefaultConfig()) == Pass
  {
  }

  /** `config.update(updates)`: every key of `updates` takes its new value, the other keys keep theirs. */
  function Merge(config: ConfigDict, updates: ConfigDict): (r: ConfigDict)
    ensures r.Keys == config.Keys + updates.Keys
    ensures forall k :: k in updates ==> r[k] == updates[k]
    ensures forall k :: k in config && k !in updates ==> r[k] == config[k]
  {
    config + updates
  }

  /** When the updates set both required keys, only the updates decide whether the merge validates. */
  lemma UpdatesDecideValidity(config: ConfigDict, updates: ConfigDict)
    requires BaseSourceKey in updates && DestinationKey in updates
    ensures ValidateConfig(Merge(config, updates)) == ValidateConfig(updates)
  {
    SameRequiredSameVerdict(Merge(config, updates), updates);
  }

  /** What parameters.json holds: nothing, an unreadable file, text that is not JSON, or a JSON document. */
  datatype ConfigFile = Absent | Unreadable | Malformed | Stored(value: JsonValue)

  /** Why `load_parameters` gave up; every such failure ends in `sys.exit(1)`. */
  datatype LoadFailure =
    | CreateFailed
    | ReadFailed
    | InvalidJson
    | NotAnObject
    | Invalid(error: ConfigurationError)

  /**
   * `load_parameters`: the configuration and whether the returned dict is the
   * `DEFAULT_CONFIG` object itself, or the `sys.exit(1)` it ends in.
   */
  datatype LoadResult = Loaded(config: ConfigDict, isDefaultObject: bool) | Exited(code: int, cause: LoadFailure)

  /** Why `update_config` raised its ConfigurationError. */
  datatype UpdateFailure = UpdateInvalid(error: ConfigurationError) | WriteFailed

  /** `update_config`: the merged configuration, its ConfigurationError, or the SystemExit of loading, which it does not catch. */
  datatype UpdateResult = Updated(config: ConfigDict) | UpdateFailed(cause: UpdateFailure) | UpdateExited(code: int)

  /** The file states for which `load_parameters` ends in `sys.exit(1)`. */
  predicate LoadExits(file: ConfigFile, writable: bool) {
    match file
    case Absent => !writable
    case Unreadable => true
    case Malformed => true
    case Stored(v) => !v.JObject? || ValidateConfig(v.fields).Fail?
  }

  /** The state of src/config.py: the file parameters.json and the dict object `DEFAULT_CONFIG`. */
  class ConfigModule {
    /** The current contents of the module-level dict `DEFAULT_CONFIG`. */
    var defaults: ConfigDict
    /** parameters.json. */
    var file: ConfigFile
    /** Whether writing parameters.json succeeds. */
    const writable: bool

    constructor(file: ConfigFile, writable: bool)
      ensures this.defaults == DefaultConfig() && this.file == file && this.writable == writable
    {
      this.defaults := DefaultConfig();
      this.file := file;
      this.writable := writable;
    }

    /**
     * `load_parameters`. A missing file is created from `DEFAULT_CONFIG`, and that
     * very dict is returned without validation; an existing file must hold a JSON
     * object that passes `validate_config`. Every failure ends in exit code 1.
     */
    method LoadParameters() returns (r: LoadResult)
      modifies this`file
      ensures old(file).Absent? && writable ==>
        r == Loaded(defaults, true) && file == Stored(JObject(defaults))
      ensures old(file).Absent? && !writable ==> r == Exited(1, CreateFailed) && file == old(file)
      ensures !old(file).Absent? ==> file == old(file)
      ensures old(file).Unreadable? ==> r == Exited(1, ReadFailed)
      ensures old(file).Malformed? ==> r == Exited(1, InvalidJson)
      ensures old(file).Stored? && !old(file).value.JObject? ==> r == Exited(1, NotAnObject)
      ensures old(file).Stored? && old(file).value.JObject? ==>
        var m := old(file).value.fields;
        match ValidateConfig(m)
        case Pass => r == Loaded(m, false)
        case Fail(e) => r == Exited(1, Invalid(e))
      ensures r.Loaded? ==> r.isDefaultObject || ValidateConfig(r.config) == Pass
    {
      match file
      case Absent =>
        if writable {
          file := Stored(JObject(defaults));
          r := Loaded(defaults, true);
        } else {
          r := Exited(1, CreateFailed);
        }
      case Unreadable =>
        r := Exited(1, ReadFailed);
      case Malformed =>
        r := Exited(1, InvalidJson);
      case Stored(v) =>
        if v.JObject? {
          match ValidateConfig(v.fields)
          case Pass => r := Loaded(v.fields, false);
          case Fail(e) => r := Exited(1, Invalid(e));
        } else {
          r := Exited(1, NotAnObject);
        }
    }

    /**
     * `update_config(updates)`: load, merge in place, validate, write. The merge
     * happens before validation on the loaded dict itself, so when that dict is
     * `DEFAULT_CONFIG` the module default changes even if validation then fails.
     * The file is written only when the merged dict validates.
     */
    method UpdateConfig(updates: ConfigDict) returns (r: UpdateResult)
      modifies this
      ensures r.UpdateExited? <==> LoadExits(old(file), writable)
      ensures r.UpdateExited? ==> r.code == 1 && defaults == old(defaults) && file == old(file)
      ensures r.Updated? ==> ValidateConfig(r.config) == Pass && file == Stored(JObject(r.config))
      ensures r.UpdateFailed? && r.cause.UpdateInvalid? ==> file == if old(file).Absent? then Stored(JObject(old(defaults))) else old(file)
      ensures old(file).Absent? && writable ==>
        && defaults == Merge(old(defaults), updates)
        && (ValidateConfig(defaults) == Pass <==> r.Updated?)
        && (r.Updated? ==> r.config == defaults)
        && (ValidateConfig(defaults).Fail? ==> r == UpdateFailed(UpdateInvalid(ValidateConfig(defaults).error)))
      ensures !old(file).Absent? ==> defaults == old(defaults)
      ensures old(file).Stored? && old(file).value.JObject? && ValidateConfig(old(file).value.fields) == Pass ==>
        var merged := Merge(old(file).value.fields, updates);
        match ValidateConfig(merged)
        case Pass => r == (if writable then Updated(merged) else UpdateFailed(WriteFailed))
        case Fail(e) => r == UpdateFailed(UpdateInvalid(e)) && file == old(file)
    {
      var loaded := LoadParameters();
      if loaded.Exited? {
        return UpdateExited(loaded.code);
      }
      var merged := Merge(loaded.config, updates);
      if loaded.isDefaultObject {
        defaults := merged;
      }
      match ValidateConfig(merged)
      case Fail(e) =>
        r := UpdateFailed(UpdateInvalid(e));
      case Pass =>
        if writable {
          file := Stored(JObject(merged));
          r := Updated(merged);
        } else {
          r := UpdateFailed(WriteFailed);
        }
    }
  }

  /**
   * A failed update while parameters.json is absent still rewrites `DEFAULT_CONFIG`;
   * once the file is gone again, `load_parameters` hands out the changed, invalid dict.
   */
  method DefaultConfigAliasing() {
    var m := new ConfigModule(Absent, true);
    var u := m.UpdateConfig(map[BaseSourceKey := JNumber(7)]);
    assert ValidateConfig(Merge(DefaultConfig(), map[BaseSourceKey := JNumber(7)])) != Pass;
    assert u.UpdateFailed?;
    assert m.defaults[BaseSourceKey] == JNumber(7);
    m.file := Absent;
    var l := m.LoadParameters();
    assert l.Loaded? && ValidateConfig(l.config) != Pass;
  }
}

/**
 * The build script build-config.js: it takes the Maps API key from the process
 * environment or, failing that, from a `.env` file, refuses to go on when no key is
 * found, and otherwise writes static/config.js from a fixed template.
 *
 * The environment variable and the file's content are parameters (`None` for an unset
 * variable and for a missing file); the error exit and the file write become the
 * `Failure` and `Success` of a `Result`.
 */
module BuildConfig {
  import opened Wrappers
  import opened JsText

  /** The name of the key, both as environment variable and as `.env` entry. */
  const ApiKeyName: string := "GOOGLE_MAPS_API_KEY"

  // ---------- one line of the .env file ----------

  /** A trimmed line that the scan looks at: not empty and not a `#` comment. */
  predicate IsEntry(trimmed: string) {
    trimmed != "" && trimmed[0] != '#'
  }

  /** `key.trim()` of `const [key, ...valueParts] = trimmed.split('=')`. */
  function LineKey(trimmed: string): string {
    Trim(SplitOn(trimmed, '=')[0])
  }

  /** `valueParts.join('=').trim()`: everything after the first `=`, trimmed. */
  function LineValue(trimmed: string): string {
    Trim(Join(SplitOn(trimmed, '=')[1..], "="))
  }

  /** Whether a raw line of the file is the entry for the key. */
  predicate IsKeyLine(line: string) {
    IsEntry(Trim(line)) && LineKey(Trim(line)) == ApiKeyName
  }

  /** The index of the first line at or after `from` satisfying `matches`, if any. */
  function FirstIndex(lines: seq<string>, matches: string -> bool, from: nat): (r: Option<nat>)
    requires from <= |lines|
    ensures r.Some? ==> from <= r.value < |lines| && matches(lines[r.value])
    ensures r.Some? ==> forall j :: from <= j < r.value ==> !matches(lines[j])
    ensures r.None? ==> forall j :: from <= j < |lines| ==> !matches(lines[j])
    decreases |lines| - from
  {
    if from == |lines| then None
    else if matches(lines[from]) then Some(from)
    else FirstIndex(lines, matches, from + 1)
  }

  /** Reference definition of the scan: the value of the first line that is the key's entry,
      even an empty one; `None` when no line is. */
  function EnvFileKey(lines: seq<string>): Option<string> {
    match FirstIndex(lines, IsKeyLine, 0)
    case None => None
    case Some(i) => Some(LineValue(Trim(lines[i])))
  }

  /** The scan finds nothing exactly when no line is the key's entry. */
  lemma EnvFileKeyNone(lines: seq<string>)
    ensures EnvFileKey(lines).None? <==> forall i :: 0 <= i < |lines| ==> !IsKeyLine(lines[i])
  {
    var r := FirstIndex(lines, IsKeyLine, 0);
  }

  /** The first entry for the key decides, whatever the lines after it hold. */
  lemma EnvFileKeyAt(lines: seq<string>, i: nat)
    requires i < |lines| && IsKeyLine(lines[i])
    requires forall j :: 0 <= j < i ==> !IsKeyLine(lines[j])
    ensures EnvFileKey(lines) == Some(LineValue(Trim(lines[i])))
  {
    var r := FirstIndex(lines, IsKeyLine, 0);
    assert r.Some? && r.value == i;
  }

  /** The for loop over the file's lines, leaving it at the first entry for the key. */
  method ScanEnvLines(lines: seq<string>) returns (found: Option<string>)
    ensures found == EnvFileKey(lines)
  {
    found := None;
    for n := 0 to |lines|
      invariant FirstIndex(lines, IsKeyLine, n) == FirstIndex(lines, IsKeyLine, 0)
    {
      var trimmed := Trim(lines[n]);
      if trimmed != "" && trimmed[0] != '#' {
        var parts := SplitOn(trimmed, '=');
        if Trim(parts[0]) == ApiKeyName {
          found := Some(Trim(Join(parts[1..], "=")));
          return;
        }
      }
    }
  }

  // ---------- resolving the key ----------

  /** JavaScript truthiness of the possibly unset string variable. */
  predicate IsSet(key: Option<string>) {
    key.Some? && key.value != ""
  }

  /** The key the script ends up with: the environment's when it is set and not empty;
      otherwise the `.env` file's entry when the file exists and has one; otherwise the
      environment's value as it was. */
  function ResolveKey(env: Option<string>, envFile: Option<string>): (r: Option<string>)
    ensures IsSet(env) || envFile.None? ==> r == env
    ensures r == env || (envFile.Some? && r.Some? && r == EnvFileKey(SplitOn(envFile.value, '\n')))
    ensures !IsSet(env) && envFile.Some? && EnvFileKey(SplitOn(envFile.value, '\n')).Some? ==>
      r == EnvFileKey(SplitOn(envFile.value, '\n'))
  {
    if IsSet(env) || envFile.None? then env
    else
      match EnvFileKey(SplitOn(envFile.value, '\n'))
      case Some(v) => Some(v)
      case None => env
  }

  // ---------- the generated file ----------

  /** The template's text before and after the key. */
  const ConfigPrefix: string :=
    "// Auto-generated config file - DO NOT EDIT MANUALLY\n" +
    "// This file is generated from environment variables during build\n" +
    "window.APP_CONFIG = {\n" +
    "  GOOGLE_MAPS_API_KEY: \""
  const ConfigSuffix: string := "\"\n};\n"

  /** The content of static/config.js for a key: the key is placed between the fixed prefix
      and suffix, unescaped. */
  function ConfigContent(key: string): string {
    ConfigPrefix + key + ConfigSuffix
  }

  /** The key can be read back from the content: it sits between the prefix and the
      suffix. */
  lemma ConfigContentParts(key: string)
    ensures var c := ConfigContent(key);
      && |c| == |ConfigPrefix| + |key| + |ConfigSuffix|
      && c[..|ConfigPrefix|] == ConfigPrefix
      && c[|ConfigPrefix|..|c| - |ConfigSuffix|] == key
      && c[|c| - |ConfigSuffix|..] == ConfigSuffix
  {
    var c := ConfigContent(key);
    assert c[..|ConfigPrefix|] == ConfigPrefix;
    assert c[|ConfigPrefix|..|c| - |ConfigSuffix|] == key;
  }

  /** Different keys give different files. */
  lemma ConfigContentInjective(k1: string, k2: string)
    requires ConfigContent(k1) == ConfigContent(k2)
    ensures k1 == k2
  {
    ConfigContentParts(k1);
    ConfigContentParts(k2);
  }

  datatype BuildError = KeyNotSet

  /** Reference definition of the script's outcome: the error exit when the resolved key is
      unset or empty, and otherwise the generated content. */
  function GenerateConfigSpec(env: Option<string>, envFile: Option<string>): Result<string, BuildError> {
    var key := ResolveKey(env, envFile);
    if IsSet(key) then Success(ConfigContent(key.value)) else Failure(KeyNotSet)
  }

  /** The script: the environment first, then the `.env` scan, the check, the template. */
  method GenerateConfig(env: Option<string>, envFile: Option<string>) returns (result: Result<string, BuildError>)
    ensures result == GenerateConfigSpec(env, envFile)
  {
    var key := env;
    if envFile.Some? && !IsSet(key) {
      var lines := SplitOn(envFile.value, '\n');
      var found := ScanEnvLines(lines);
      if found.Some? {
        key := found;
      }
    }
    assert key == ResolveKey(env, envFile);
    if key.None? || key.value == "" {
      return Failure(KeyNotSet);
    }
    return Success(ConfigContent(key.value));
  }

  // ---------- properties ----------

  /** A set, non-empty environment variable wins: the file is not read. */
  lemma EnvironmentFirst(env: string, envFile: Option<string>)
    requires env != ""
    ensures GenerateConfigSpec(Some(env), envFile) == Success(ConfigContent(env))
  {
  }

  /** The script fails exactly when the environment gives no key and the file gives none
      either: missing, without an entry for the key, or with an empty value there. */
  lemma FailsExactlyWhenUnset(env: Option<string>, envFile: Option<string>)
    ensures GenerateConfigSpec(env, envFile).Failure? <==>
      !IsSet(env) &&
      (envFile.None? || !IsSet(EnvFileKey(SplitOn(envFile.value, '\n'))))
  {
  }

  /** On success the generated file carries the resolved key, which is never empty. */
  lemma SuccessCarriesKey(env: Option<string>, envFile: Option<string>)
    requires GenerateConfigSpec(env, envFile).Success?
    ensures var c := GenerateConfigSpec(env, envFile).value;
      var k := c[|ConfigPrefix|..|c| - |ConfigSuffix|];
      k != "" && Some(k) == ResolveKey(env, envFile)
  {
    ConfigContentParts(ResolveKey(env, envFile).value);
  }

  /** A `KEY=value` line splits at its first `=`: the key is the trimmed text before it and
      the value the trimmed rest, which may itself contain `=`. */
  lemma EntrySplitsAtFirstEquals(key: string, value: string)
    requires '=' !in key
    ensures LineKey(key + "=" + value) == Trim(key)
    ensures LineValue(key + "=" + value) == Trim(value)
  {
    var s := key + "=" + value;
    assert s[|key|] == '=' && s[..|key|] == key;
    IndexOfAt(s, '=', |key|);
    SplitOnFirst(s, '=');
    assert s[|key| + 1..] == value;
  }

  /** A name without `=` and without surrounding white space is, alone on a line, an entry
      for itself with an empty value. */
  lemma BareNameEntry(name: string)
    requires name != "" && name[0] != '#' && '=' !in name
    requires !IsJsSpace(name[0]) && !IsJsSpace(name[|name| - 1])
    ensures IsEntry(name) && LineKey(name) == name && LineValue(name) == ""
  {
    TrimOfTrimmed(name);
  }

  /** The key name has no `=` and no surrounding white space. */
  lemma ApiKeyNameShape()
    ensures ApiKeyName != "" && ApiKeyName[0] == 'G' && ApiKeyName[|ApiKeyName| - 1] == 'Y' && '=' !in ApiKeyName
  {
  }

  /** A line holding only the key name is the key's entry with an empty value: the scan stops
      there, and without an environment key the script fails even if a later line has a value. */
  lemma BareKeyLineStopsScan(lines: seq<string>, i: nat)
    requires i < |lines| && Trim(lines[i]) == ApiKeyName
    requires forall j :: 0 <= j < i ==> !IsKeyLine(lines[j])
    ensures EnvFileKey(lines) == Some("")
  {
    ApiKeyNameShape();
    BareNameEntry(ApiKeyName);
    assert IsKeyLine(lines[i]);
    EnvFileKeyAt(lines, i);
  }
}

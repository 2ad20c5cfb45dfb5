/** The build script that gathers documentation metadata for every component
    (scripts/generateComponentData.js). The file system is a value of
    `NodeFs.FileSystem`; react-docgen's `parse` and `JSON.stringify` are
    parameters the model knows nothing about. */
module ComponentData {
  import opened Wrappers
  import opened NodeFs
  import JsText

  /** One documented prop, as react-docgen reports it. */
  datatype PropInfo = PropInfo(typeName: string, required: bool, defaultValue: Option<string>, description: string)

  /** What react-docgen's `parse` recovers from a component's source. */
  datatype DocInfo = DocInfo(description: string, props: seq<(string, PropInfo)>)

  datatype ExampleRecord = ExampleRecord(name: string, description: string, code: string)

  datatype ComponentRecord = ComponentRecord(
    name: string,
    description: string,
    props: seq<(string, PropInfo)>,
    code: string,
    examples: seq<ExampleRecord>)

  /** What is serialised: the error list when some component failed, the records otherwise. */
  datatype Payload = Errors(messages: seq<string>) | Components(records: seq<ComponentRecord>)

  datatype Paths = Paths(examples: string, components: string, output: string)

  /** Everything a run depends on: the file system, the three configured paths
      and the behaviour of react-docgen's `parse` (which may throw). */
  datatype Env = Env(fs: FileSystem, paths: Paths, parse: string -> Result<DocInfo>)

  const OutputPrefix := "module.exports = /* eslint-disable */ "
  const ErrorPrefix := "An error occurred while attempting to generate metadata for "

  // ---------------------------------------------------------------------------
  // Command line: `process.argv.slice(2) == '--watch'`

  /** The array after the script name is compared loosely with a string, so it is
      first turned into a string by joining its elements with commas: watch mode is
      on exactly when `--watch` is the one and only argument. */
  function WatchModeEnabled(argv: seq<string>): (enabled: bool)
    ensures enabled <==> |argv| == 3 && argv[2] == "--watch"
  {
    var args := JsText.SliceFrom(argv, 2);
    JsText.JoinEqualsWord(args, ',', "--watch");
    assert |args| == 1 ==> args[0] == argv[2];
    JsText.Join(args, ",") == "--watch"
  }

  /** The change notifications chokidar can deliver for the watched trees. */
  datatype WatchEvent = Add | AddDir | Change | Unlink | UnlinkDir

  /** How many times `generate` runs: once when not watching; when watching,
      once for every `'change'` notification and never at start-up. */
  function PassCount(argv: seq<string>, events: seq<WatchEvent>): (n: nat)
    ensures !WatchModeEnabled(argv) ==> n == 1
    ensures WatchModeEnabled(argv) ==> n == multiset(events)[Change] && n <= |events|
  {
    if WatchModeEnabled(argv) then ChangeCount(events) else 1
  }

  function ChangeCount(events: seq<WatchEvent>): (n: nat)
    ensures n <= |events|
    ensures n == multiset(events)[Change]
  {
    if |events| == 0 then 0
    else
      assert events == events[..|events| - 1] + [events[|events| - 1]];
      ChangeCount(events[..|events| - 1]) + (if events[|events| - 1] == Change then 1 else 0)
  }

  // ---------------------------------------------------------------------------
  // Directory scanning

  /** `getDirectories(dir)`: the listing's entries that are directories. */
  function GetDirectories(fs: FileSystem, dir: string): (r: Result<seq<string>>)
    ensures ReadDir(fs, dir).Err? ==> r == Err(ReadDir(fs, dir).error)
    ensures ReadDir(fs, dir).Ok? ==>
              (r.Ok? <==> forall e :: e in ReadDir(fs, dir).value ==> PathJoin(dir, e) in fs)
    ensures r.Ok? ==> ReadDir(fs, dir).Ok? && IsSubsequence(r.value, ReadDir(fs, dir).value)
    ensures r.Ok? ==> forall e :: e in r.value <==>
                        e in ReadDir(fs, dir).value && PathJoin(dir, e) in fs && fs[PathJoin(dir, e)].Directory?
    ensures ReadDir(fs, dir).Ok? ==> r == FilterByKind(fs, dir, ReadDir(fs, dir).value, IsDirectory)
  {
    match ReadDir(fs, dir)
    case Err(e) => Err(e)
    case Ok(entries) => FilterByKind(fs, dir, entries, IsDirectory)
  }

  /** `getFiles(dir)`: the listing's entries that are regular files. */
  function GetFiles(fs: FileSystem, dir: string): (r: Result<seq<string>>)
    ensures ReadDir(fs, dir).Err? ==> r == Err(ReadDir(fs, dir).error)
    ensures ReadDir(fs, dir).Ok? ==>
              (r.Ok? <==> forall e :: e in ReadDir(fs, dir).value ==> PathJoin(dir, e) in fs)
    ensures r.Ok? ==> ReadDir(fs, dir).Ok? && IsSubsequence(r.value, ReadDir(fs, dir).value)
    ensures r.Ok? ==> forall e :: e in r.value <==>
                        e in ReadDir(fs, dir).value && PathJoin(dir, e) in fs && fs[PathJoin(dir, e)].RegularFile?
    ensures ReadDir(fs, dir).Ok? ==> r == FilterByKind(fs, dir, ReadDir(fs, dir).value, IsFile)
  {
    match ReadDir(fs, dir)
    case Err(e) => Err(e)
    case Ok(entries) => FilterByKind(fs, dir, entries, IsFile)
  }

  /** `getExampleFiles`: the files of the component's examples directory, or no
      files at all when that directory cannot be listed (the error is only logged). */
  function GetExampleFiles(fs: FileSystem, examplesPath: string, componentName: string): (r: seq<string>)
    ensures GetFiles(fs, PathJoin(examplesPath, componentName)).Err? ==> r == []
    ensures GetFiles(fs, PathJoin(examplesPath, componentName)).Ok? ==>
              r == GetFiles(fs, PathJoin(examplesPath, componentName)).value
  {
    match GetFiles(fs, PathJoin(examplesPath, componentName))
    case Ok(files) => files
    case Err(_) => []
  }

  // ---------------------------------------------------------------------------
  // Metadata extraction

  /** The example's display name: the file name less its last three characters
      (meant to drop `.js`; the extension is not checked). */
  function ExampleName(file: string): (r: string)
    ensures |r| == if |file| >= 3 then |file| - 3 else 0
    ensures r <= file
  {
    JsText.DropLast(file, 3)
  }

  lemma ExampleNameOfScript(name: string)
    ensures ExampleName(name + ".js") == name
  {
    assert (name + ".js")[..|name|] == name;
  }

  /** The `map` callback of `getExampleData` for one file of `dir`. */
  function ExampleAt(env: Env, dir: string, file: string): (r: Result<ExampleRecord>)
    ensures r.Ok? <==> ReadFile(env.fs, PathJoin(dir, file)).Ok? && env.parse(ReadFile(env.fs, PathJoin(dir, file)).value).Ok?
    ensures ReadFile(env.fs, PathJoin(dir, file)).Err? ==> r == Err(ReadFile(env.fs, PathJoin(dir, file)).error)
    ensures ReadFile(env.fs, PathJoin(dir, file)).Ok? && env.parse(ReadFile(env.fs, PathJoin(dir, file)).value).Err? ==>
              r == Err(env.parse(ReadFile(env.fs, PathJoin(dir, file)).value).error)
    ensures r.Ok? ==>
              && r.value.name == ExampleName(file)
              && r.value.code == env.fs[PathJoin(dir, file)].content
              && r.value.description == env.parse(r.value.code).value.description
  {
    match ReadFile(env.fs, PathJoin(dir, file))
    case Err(e) => Err(e)
    case Ok(content) =>
      match env.parse(content)
      case Err(e) => Err(e)
      case Ok(info) => Ok(ExampleRecord(ExampleName(file), info.description, content))
  }

  /** `files.map(...)` in order; the first file that cannot be read or parsed
      throws out of the whole map. */
  function ExampleRecords(env: Env, dir: string, files: seq<string>): (r: Result<seq<ExampleRecord>>)
    ensures r.Ok? <==> forall i :: 0 <= i < |files| ==> ExampleAt(env, dir, files[i]).Ok?
    ensures r.Ok? ==>
              && |r.value| == |files|
              && forall i :: 0 <= i < |files| ==> r.value[i] == ExampleAt(env, dir, files[i]).value
  {
    if |files| == 0 then Ok([])
    else
      match ExampleAt(env, dir, files[0])
      case Err(e) => Err(e)
      case Ok(first) =>
        var rest := ExampleRecords(env, dir, files[1..]);
        assert forall i :: 1 <= i < |files| ==> files[i] == files[1..][i - 1];
        if rest.Err? then Err(rest.error) else Ok([first] + rest.value)
  }

  /** The error of `ExampleRecords` is that of the first file that fails. */
  lemma {:induction false} ExampleRecordsError(env: Env, dir: string, files: seq<string>)
    requires ExampleRecords(env, dir, files).Err?
    ensures exists k :: 0 <= k < |files|
              && (forall i :: 0 <= i < k ==> ExampleAt(env, dir, files[i]).Ok?)
              && ExampleAt(env, dir, files[k]) == Err(ExampleRecords(env, dir, files).error)
  {
    if ExampleAt(env, dir, files[0]).Ok? {
      var tail := files[1..];
      assert ExampleRecords(env, dir, tail).Err?;
      ExampleRecordsError(env, dir, tail);
      var k :| 0 <= k < |tail|
               && (forall i :: 0 <= i < k ==> ExampleAt(env, dir, tail[i]).Ok?)
               && ExampleAt(env, dir, tail[k]) == Err(ExampleRecords(env, dir, tail).error);
      assert ExampleRecords(env, dir, files).error == ExampleRecords(env, dir, tail).error;
      assert forall i :: 0 <= i < k + 1 ==> ExampleAt(env, dir, files[i]).Ok? by {
        forall i | 0 <= i < k + 1 ensures ExampleAt(env, dir, files[i]).Ok? {
          if i > 0 { assert files[i] == tail[i - 1]; }
        }
      }
      assert files[k + 1] == tail[k];
    }
  }

  /** `getExampleData(examplesPath, componentName)`. */
  function GetExampleData(env: Env, componentName: string): (r: Result<seq<ExampleRecord>>)
    ensures var dir, files := PathJoin(env.paths.examples, componentName),
                              GetExampleFiles(env.fs, env.paths.examples, componentName);
            && (r.Ok? <==> forall i :: 0 <= i < |files| ==> ExampleAt(env, dir, files[i]).Ok?)
            && (r.Ok? ==> |r.value| == |files|
                          && forall i :: 0 <= i < |files| ==> r.value[i] == ExampleAt(env, dir, files[i]).value)
  {
    var dir := PathJoin(env.paths.examples, componentName);
    ExampleRecords(env, dir, GetExampleFiles(env.fs, env.paths.examples, componentName))
  }

  /** A component whose examples directory cannot be listed simply has no examples. */
  lemma MissingExamplesAreNoError(env: Env, componentName: string)
    requires ReadDir(env.fs, PathJoin(env.paths.examples, componentName)).Err?
    ensures GetExampleData(env, componentName) == Ok([])
  {
  }

  /** The component's primary source: `<components>/<name>/<name>.js`. */
  function PrimaryFile(paths: Paths, componentName: string): string
  {
    PathJoin(PathJoin(paths.components, componentName), componentName + ".js")
  }

  /** `getComponentData(paths, componentName)`: read the primary file, parse it,
      then gather the examples; the first of these steps to throw decides the error. */
  function GetComponentData(env: Env, componentName: string): (r: Result<ComponentRecord>)
    ensures var source := ReadFile(env.fs, PrimaryFile(env.paths, componentName));
            r.Ok? <==> source.Ok? && env.parse(source.value).Ok? && GetExampleData(env, componentName).Ok?
    ensures r.Ok? ==> && r.value.name == componentName
                      && r.value.code == env.fs[PrimaryFile(env.paths, componentName)].content
                      && r.value.description == env.parse(r.value.code).value.description
                      && r.value.props == env.parse(r.value.code).value.props
                      && r.value.examples == GetExampleData(env, componentName).value
  {
    match ReadFile(env.fs, PrimaryFile(env.paths, componentName))
    case Err(e) => Err(e)
    case Ok(content) =>
      match env.parse(content)
      case Err(e) => Err(e)
      case Ok(info) =>
        match GetExampleData(env, componentName)
        case Err(e) => Err(e)
        case Ok(examples) => Ok(ComponentRecord(componentName, info.description, info.props, content, examples))
  }

  /** The error of a failing component is that of the first step that threw:
      reading the primary file, parsing it, or gathering the examples. */
  lemma ComponentErrorIsFirstFailure(env: Env, componentName: string)
    requires GetComponentData(env, componentName).Err?
    ensures var source := ReadFile(env.fs, PrimaryFile(env.paths, componentName));
            var error := GetComponentData(env, componentName).error;
            if source.Err? then error == source.error
            else if env.parse(source.value).Err? then error == env.parse(source.value).error
            else GetExampleData(env, componentName).Err? && error == GetExampleData(env, componentName).error
  {
  }

  // ---------------------------------------------------------------------------
  // Aggregation

  /** One call of the `map` callback of `generate`: the component's name and what
      `getComponentData` gave for it. The aggregation rules below depend on
      nothing else. */
  datatype Attempt = Attempt(name: string, outcome: Result<ComponentRecord>)

  /** The attempts of one run, in directory order. */
  function Attempts(env: Env, names: seq<string>): (attempts: seq<Attempt>)
    ensures |attempts| == |names|
    ensures forall i :: 0 <= i < |names| ==> attempts[i] == Attempt(names[i], GetComponentData(env, names[i]))
  {
    seq(|names|, i requires 0 <= i < |names| => Attempt(names[i], GetComponentData(env, names[i])))
  }

  function ErrorMessage(componentName: string, error: string): string
  {
    ErrorPrefix + componentName + ". " + error
  }

  /** The message for a failing component is the fixed prefix, then the name,
      then `. ` and the text of the thrown error, each recoverable from it. */
  lemma ErrorMessageParts(componentName: string, error: string)
    ensures var m, n := ErrorMessage(componentName, error), |ErrorPrefix| + |componentName|;
            && |m| == n + 2 + |error|
            && m[..|ErrorPrefix|] == ErrorPrefix
            && m[|ErrorPrefix|..n] == componentName
            && m[n..n + 2] == ". "
            && m[n + 2..] == error
  {
  }

  /** What the callback pushes onto `errors`. */
  function MessagesOf(attempt: Attempt): seq<string>
  {
    match attempt.outcome
    case Ok(_) => []
    case Err(e) => [ErrorMessage(attempt.name, e)]
  }

  /** What the callback returns into the mapped array: the record, or `undefined`. */
  function EntryOf(attempt: Attempt): Option<ComponentRecord>
  {
    match attempt.outcome
    case Ok(record) => Some(record)
    case Err(_) => None
  }

  /** The `errors` array after the callback has run on `attempts` in order. */
  function CollectErrors(attempts: seq<Attempt>): (errors: seq<string>)
    ensures |errors| <= |attempts|
  {
    if |attempts| == 0 then []
    else CollectErrors(attempts[..|attempts| - 1]) + MessagesOf(attempts[|attempts| - 1])
  }

  predicate AllSucceeded(attempts: seq<Attempt>)
  {
    forall i :: 0 <= i < |attempts| ==> attempts[i].outcome.Ok?
  }

  /** The all-or-nothing rule: the errors when there are any, otherwise every record. */
  function PayloadFrom(attempts: seq<Attempt>): (p: Payload)
    ensures p.Errors? <==> exists i :: 0 <= i < |attempts| && attempts[i].outcome.Err?
    ensures p.Errors? ==> p.messages == CollectErrors(attempts) && |p.messages| > 0
    ensures p.Components? ==>
              && |p.records| == |attempts|
              && forall i :: 0 <= i < |attempts| ==> p.records[i] == attempts[i].outcome.value
  {
    ErrorsIffFailure(attempts);
    if AllSucceeded(attempts) then
      Components(seq(|attempts|, i requires 0 <= i < |attempts| && AllSucceeded(attempts) =>
        attempts[i].outcome.value))
    else Errors(CollectErrors(attempts))
  }

  function PayloadOf(env: Env, names: seq<string>): Payload
  {
    PayloadFrom(Attempts(env, names))
  }

  /** What `generate` writes, or the error that escapes it when the components
      directory itself cannot be scanned. */
  function Output(env: Env, stringify: Payload -> string): (out: Result<string>)
    ensures var names := GetDirectories(env.fs, env.paths.components);
            && (out.Ok? <==> names.Ok?)
            && (out.Err? ==> out.error == names.error)
            && (out.Ok? ==> && OutputPrefix <= out.value
                            && out.value[|OutputPrefix|..] == stringify(PayloadOf(env, names.value)))
  {
    match GetDirectories(env.fs, env.paths.components)
    case Err(e) => Err(e)
    case Ok(names) => Ok(OutputPrefix + stringify(PayloadOf(env, names)))
  }

  /** The `map` callback of `generate`: the component's record, or `undefined`
      after pushing the formatted message onto the captured `errors`. */
  method VisitComponent(env: Env, names: seq<string>, ghost attempts: seq<Attempt>, i: nat, errors: seq<string>)
    returns (entry: Option<ComponentRecord>, errors': seq<string>)
    requires i < |names| == |attempts|
    requires forall j {:trigger GetComponentData(env, names[j])} :: 0 <= j < |names| ==>
               attempts[j] == Attempt(names[j], GetComponentData(env, names[j]))
    ensures entry == EntryOf(attempts[i])
    ensures errors' == errors + MessagesOf(attempts[i])
    ensures entry.None? <==> |errors'| == |errors| + 1
  {
    var componentName := names[i];
    var result := GetComponentData(env, componentName);
    assert attempts[i] == Attempt(componentName, result);
    if result.Ok? {
      entry, errors' := Some(result.value), errors;
    } else {
      entry, errors' := None, errors + [ErrorMessage(componentName, result.error)];
    }
  }

  /** `generate(paths)`: one pass over the component directories, collecting the
      records and the error messages, then the text handed to `writeFile`. */
  method Generate(env: Env, stringify: Payload -> string) returns (out: Result<string>)
    ensures out == Output(env, stringify)
  {
    var directories := GetDirectories(env.fs, env.paths.components);
    if directories.Err? {
      return Err(directories.error);
    }
    var names := directories.value;
    var errors, componentData := MapComponents(env, names, Attempts(env, names));
    PayloadFromLoop(Attempts(env, names), errors, componentData);
    var payload := if |errors| > 0 then Errors(errors) else Components(Unwrap(componentData));
    out := Ok(OutputPrefix + stringify(payload));
  }

  /** `getDirectories(...).map(callback)` together with the `errors` array the
      callback pushes onto. */
  method MapComponents(env: Env, names: seq<string>, ghost attempts: seq<Attempt>)
    returns (errors: seq<string>, componentData: seq<Option<ComponentRecord>>)
    requires |attempts| == |names|
    requires forall i {:trigger GetComponentData(env, names[i])} :: 0 <= i < |names| ==>
               attempts[i] == Attempt(names[i], GetComponentData(env, names[i]))
    ensures errors == CollectErrors(attempts)
    ensures |componentData| == |names|
    ensures forall j :: 0 <= j < |names| ==> componentData[j] == EntryOf(attempts[j])
  {
    errors := [];
    // The array built by `map`: `undefined` where the callback caught an error.
    componentData := [];
    for i := 0 to |names|
      invariant errors == CollectErrors(attempts[..i])
      invariant |componentData| == i
      invariant forall j :: 0 <= j < i ==> componentData[j] == EntryOf(attempts[j])
    {
      CollectErrorsStep(attempts, i);
      var entry;
      entry, errors := VisitComponent(env, names, attempts, i, errors);
      componentData := componentData + [entry];
    }
    assert attempts[..|names|] == attempts;
  }

  /** What the loop of `generate` leaves behind determines the payload. */
  lemma PayloadFromLoop(attempts: seq<Attempt>, errors: seq<string>, componentData: seq<Option<ComponentRecord>>)
    requires errors == CollectErrors(attempts)
    requires |componentData| == |attempts|
    requires forall j :: 0 <= j < |attempts| ==> componentData[j] == EntryOf(attempts[j])
    ensures |errors| == 0 ==> forall j :: 0 <= j < |componentData| ==> componentData[j].Some?
    ensures PayloadFrom(attempts) == if |errors| > 0 then Errors(errors) else Components(Unwrap(componentData))
  {
    ErrorsIffFailure(attempts);
  }

  lemma CollectErrorsStep(attempts: seq<Attempt>, i: nat)
    requires i < |attempts|
    ensures CollectErrors(attempts[..i + 1]) == CollectErrors(attempts[..i]) + MessagesOf(attempts[i])
  {
    assert attempts[..i + 1][..i] == attempts[..i];
  }

  // ---------------------------------------------------------------------------
  // Properties of a run

  /** The error list is empty exactly when every component succeeded. */
  lemma {:induction false} ErrorsIffFailure(attempts: seq<Attempt>)
    ensures |CollectErrors(attempts)| == 0 <==> AllSucceeded(attempts)
  {
    if |attempts| > 0 {
      var init := attempts[..|attempts| - 1];
      ErrorsIffFailure(init);
      assert forall i :: 0 <= i < |init| ==> init[i] == attempts[i];
    }
  }

  /** Messages are collected component by component: the attempts of `a` then
      those of `b` give the messages of `a` followed by those of `b`. */
  lemma {:induction false} CollectErrorsAppend(a: seq<Attempt>, b: seq<Attempt>)
    ensures CollectErrors(a + b) == CollectErrors(a) + CollectErrors(b)
  {
    if |b| == 0 {
      assert a + b == a;
    } else {
      var init, last := b[..|b| - 1], b[|b| - 1];
      CollectErrorsAppend(a, init);
      assert (a + b)[..|a + b| - 1] == a + init && (a + b)[|a + b| - 1] == last;
      assert CollectErrors(a + b) == CollectErrors(a + init) + MessagesOf(last);
      assert CollectErrors(b) == CollectErrors(init) + MessagesOf(last);
      var x, y, z := CollectErrors(a), CollectErrors(init), MessagesOf(last);
      assert x + y + z == x + (y + z);
    }
  }

  /** A single component contributes one formatted message when it fails and none
      otherwise; with the previous lemma, every failure of a run is reported once,
      in component order, and processing goes on after it. */
  lemma CollectErrorsOfOne(attempt: Attempt)
    ensures attempt.outcome.Err? ==> CollectErrors([attempt]) == [ErrorMessage(attempt.name, attempt.outcome.error)]
    ensures attempt.outcome.Ok? ==> CollectErrors([attempt]) == []
  {
    assert [attempt][..0] == [];
  }

  /** Every message names a failing component and its error, and every failing
      component has its message. */
  lemma {:induction false} CollectErrorsExact(attempts: seq<Attempt>)
    ensures forall m :: m in CollectErrors(attempts) ==>
              exists i :: 0 <= i < |attempts| && attempts[i].outcome.Err?
                        && m == ErrorMessage(attempts[i].name, attempts[i].outcome.error)
    ensures forall i :: 0 <= i < |attempts| && attempts[i].outcome.Err? ==>
              ErrorMessage(attempts[i].name, attempts[i].outcome.error) in CollectErrors(attempts)
  {
    if |attempts| > 0 {
      var init := attempts[..|attempts| - 1];
      CollectErrorsExact(init);
      assert forall i :: 0 <= i < |init| ==> init[i] == attempts[i];
    }
  }

  /** Without failures the payload holds one record per component directory,
      in directory order, each named after its directory and holding its source. */
  lemma PayloadOfSuccessfulRun(env: Env, names: seq<string>)
    requires forall i :: 0 <= i < |names| ==> GetComponentData(env, names[i]).Ok?
    ensures PayloadOf(env, names).Components?
    ensures |PayloadOf(env, names).records| == |names|
    ensures forall i :: 0 <= i < |names| ==>
              && PayloadOf(env, names).records[i] == GetComponentData(env, names[i]).value
              && PayloadOf(env, names).records[i].name == names[i]
              && PayloadOf(env, names).records[i].code == env.fs[PrimaryFile(env.paths, names[i])].content
              && PayloadOf(env, names).records[i].examples == GetExampleData(env, names[i]).value
  {
    var attempts := Attempts(env, names);
    assert AllSucceeded(attempts);
  }

  // ---------------------------------------------------------------------------
  // Two concrete runs

  const ScenarioPaths := Paths("src/docs/examples", "src/components", "config/componentData.js")

  /** A components tree with one component `Button` and one example `Basic.js`;
      its paths are built the way the script builds them. */
  const ButtonFs: FileSystem := map[
    ScenarioPaths.components := Directory(["Button"]),
    PathJoin(ScenarioPaths.components, "Button") := Directory(["Button.js"]),
    PrimaryFile(ScenarioPaths, "Button") := RegularFile("button-source"),
    PathJoin(ScenarioPaths.examples, "Button") := Directory(["Basic.js"]),
    PathJoin(PathJoin(ScenarioPaths.examples, "Button"), "Basic.js") := RegularFile("basic-source")]

  /** The five nodes of `ButtonFs`, found by their paths (whose lengths tell them apart). */
  lemma ButtonFsNodes()
    ensures ScenarioPaths.components in ButtonFs && PathJoin(ScenarioPaths.components, "Button") in ButtonFs
    ensures PathJoin(ScenarioPaths.examples, "Button") in ButtonFs
    ensures PathJoin(PathJoin(ScenarioPaths.examples, "Button"), "Basic.js") in ButtonFs
    ensures ButtonFs[ScenarioPaths.components] == Directory(["Button"])
    ensures ButtonFs[PathJoin(ScenarioPaths.components, "Button")] == Directory(["Button.js"])
    ensures ButtonFs[PrimaryFile(ScenarioPaths, "Button")] == RegularFile("button-source")
    ensures ButtonFs[PathJoin(ScenarioPaths.examples, "Button")] == Directory(["Basic.js"])
    ensures ButtonFs[PathJoin(PathJoin(ScenarioPaths.examples, "Button"), "Basic.js")] == RegularFile("basic-source")
  {
    assert |ScenarioPaths.components| == 14 && |ScenarioPaths.examples| == 17;
    assert |PathJoin(ScenarioPaths.components, "Button")| == 21;
    assert |PrimaryFile(ScenarioPaths, "Button")| == 31;
    assert |PathJoin(ScenarioPaths.examples, "Button")| == 24;
    assert |PathJoin(PathJoin(ScenarioPaths.examples, "Button"), "Basic.js")| == 33;
  }

  lemma ButtonExamples(parse: string -> Result<DocInfo>)
    requires parse("basic-source") == Ok(DocInfo("Basic usage.", []))
    ensures GetExampleData(Env(ButtonFs, ScenarioPaths, parse), "Button") ==
              Ok([ExampleRecord("Basic", "Basic usage.", "basic-source")])
  {
    var env := Env(ButtonFs, ScenarioPaths, parse);
    var dir := PathJoin(ScenarioPaths.examples, "Button");
    ButtonFsNodes();
    assert ReadDir(ButtonFs, dir) == Ok(["Basic.js"]);
    FilterOfOne(ButtonFs, dir, "Basic.js", IsFile);
    assert GetExampleFiles(ButtonFs, ScenarioPaths.examples, "Button") == ["Basic.js"];
    ExampleNameOfScript("Basic");
    assert "Basic" + ".js" == "Basic.js";
    var record := ExampleRecord("Basic", "Basic usage.", "basic-source");
    assert ExampleAt(env, dir, "Basic.js") == Ok(record);
    var r := GetExampleData(env, "Button");
    assert |r.value| == 1 && r.value[0] == record;
    assert r.value == [record];
  }

  lemma ButtonDirectories()
    ensures GetDirectories(ButtonFs, ScenarioPaths.components) == Ok(["Button"])
  {
    ButtonFsNodes();
    assert ReadDir(ButtonFs, ScenarioPaths.components) == Ok(["Button"]);
    FilterOfOne(ButtonFs, ScenarioPaths.components, "Button", IsDirectory);
  }

  const ButtonRecord := ComponentRecord("Button", "A clickable button.", [], "button-source",
                           [ExampleRecord("Basic", "Basic usage.", "basic-source")])

  lemma ButtonComponent(parse: string -> Result<DocInfo>)
    requires parse("button-source") == Ok(DocInfo("A clickable button.", []))
    requires parse("basic-source") == Ok(DocInfo("Basic usage.", []))
    ensures GetComponentData(Env(ButtonFs, ScenarioPaths, parse), "Button") == Ok(ButtonRecord)
  {
    ButtonExamples(parse);
    ButtonFsNodes();
    assert ReadFile(ButtonFs, PrimaryFile(ScenarioPaths, "Button")) == Ok("button-source");
  }

  /** The scanner finds the one component, and the payload is its one record with its one example. */
  lemma ButtonScenario(parse: string -> Result<DocInfo>)
    requires parse("button-source") == Ok(DocInfo("A clickable button.", []))
    requires parse("basic-source") == Ok(DocInfo("Basic usage.", []))
    ensures GetDirectories(ButtonFs, ScenarioPaths.components) == Ok(["Button"])
    ensures PayloadOf(Env(ButtonFs, ScenarioPaths, parse), ["Button"]) == Components([ButtonRecord])
  {
    var env := Env(ButtonFs, ScenarioPaths, parse);
    ButtonDirectories();
    ButtonComponent(parse);
    var attempts := Attempts(env, ["Button"]);
    assert attempts[0].outcome == Ok(ButtonRecord);
    var p := PayloadFrom(attempts);
    assert p.Components? && |p.records| == 1 && p.records[0] == ButtonRecord;
    assert p.records == [ButtonRecord];
  }

  /** The components tree of `ButtonFs` without its examples, plus a directory
      `Spinner` that lacks its primary file. */
  const BrokenFs: FileSystem := map[
    ScenarioPaths.components := Directory(["Button", "Spinner"]),
    PathJoin(ScenarioPaths.components, "Button") := Directory(["Button.js"]),
    PrimaryFile(ScenarioPaths, "Button") := RegularFile("button-source"),
    PathJoin(ScenarioPaths.components, "Spinner") := Directory([])]

  /** The nodes of `BrokenFs` the run visits, and the missing primary file
      `src/components/Spinner/Spinner.js`. */
  lemma BrokenFsNodes()
    ensures PrimaryFile(ScenarioPaths, "Button") in BrokenFs
    ensures BrokenFs[PrimaryFile(ScenarioPaths, "Button")] == RegularFile("button-source")
    ensures PathJoin(ScenarioPaths.examples, "Button") !in BrokenFs
    ensures PrimaryFile(ScenarioPaths, "Spinner") !in BrokenFs
  {
    assert |ScenarioPaths.components| == 14 && |ScenarioPaths.examples| == 17;
    assert |PathJoin(ScenarioPaths.components, "Button")| == 21;
    assert |PathJoin(ScenarioPaths.components, "Spinner")| == 22;
    assert |PrimaryFile(ScenarioPaths, "Button")| == 31;
    assert |PathJoin(ScenarioPaths.examples, "Button")| == 24;
    assert |PrimaryFile(ScenarioPaths, "Spinner")| == 33;
  }

  /** Two components, the second without a primary file: the payload is that
      component's one message, and the first component's record is dropped. */
  lemma OneFailureScenario(parse: string -> Result<DocInfo>)
    requires parse("button-source") == Ok(DocInfo("A clickable button.", []))
    ensures PayloadOf(Env(BrokenFs, ScenarioPaths, parse), ["Button", "Spinner"]) ==
              Errors([ErrorMessage("Spinner", NoSuchEntry("open", PrimaryFile(ScenarioPaths, "Spinner")))])
  {
    var env := Env(BrokenFs, ScenarioPaths, parse);
    var button := GetComponentData(env, "Button");
    var spinner := GetComponentData(env, "Spinner");
    BrokenRunOutcomes(parse);
    var attempts := Attempts(env, ["Button", "Spinner"]);
    assert attempts[0] == Attempt("Button", button) && attempts[1] == Attempt("Spinner", spinner);
    CollectErrorsStep(attempts, 0);
    CollectErrorsStep(attempts, 1);
    assert attempts[..0] == [] && attempts[..2] == attempts;
    assert CollectErrors(attempts) == [ErrorMessage("Spinner", spinner.error)];
  }

  lemma BrokenRunOutcomes(parse: string -> Result<DocInfo>)
    requires parse("button-source") == Ok(DocInfo("A clickable button.", []))
    ensures GetComponentData(Env(BrokenFs, ScenarioPaths, parse), "Button").Ok?
    ensures GetComponentData(Env(BrokenFs, ScenarioPaths, parse), "Spinner") ==
              Err(NoSuchEntry("open", PrimaryFile(ScenarioPaths, "Spinner")))
  {
    BrokenFsNodes();
    BrokenButtonHasNoExamples(parse);
  }

  lemma BrokenButtonHasNoExamples(parse: string -> Result<DocInfo>)
    ensures GetExampleData(Env(BrokenFs, ScenarioPaths, parse), "Button") == Ok([])
  {
    BrokenFsNodes();
    MissingExamplesAreNoError(Env(BrokenFs, ScenarioPaths, parse), "Button");
  }
}

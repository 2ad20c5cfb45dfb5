# Component library core, modelled in Dafny

This project models the three pieces of logic in a small React component library:

- **The component-metadata generator** (`scripts/generateComponentData.js`). It lists the
  component directories and reads each component's primary source file. It extracts the
  documentation with react-docgen and gathers the component's examples. Then it writes
  `module.exports = /* eslint-disable */ ` followed by the JSON of either every record or,
  if any component failed, the list of error messages. It also decides whether to run
  once or in watch mode.
- **The registration form** (`RegistrationForm.js`). This is a small state machine over
  `user`, `errors` and `submitted`, together with its password-quality meter, its
  validation rules and its default props.
- **The progress bar** (`ProgressBar.js`). This is its colour threshold, its filled-width
  arithmetic and its default height.

Files:

- `wrappers.dfy`: `Option` and `Result`.
- `js_text.dfy`: the JavaScript built-ins the code relies on. These are
  `Array.prototype.join`, `slice`, number-to-string, `String.prototype.length` in UTF-16
  code units, and `parseInt` applied to a number.
- `node_fs.dfy`: the file system as a finite map from paths to directories (an ordered
  listing) and regular files (their text). `readdirSync`, `readFileSync` and the
  `statSync` filter either return a value or throw, with the error text in Node's format.
- `component_data.dfy`: the generator.
  - The `fs` snapshot, the paths and react-docgen's `parse` are bundled in an `Env`.
  - `parse` is an uninterpreted function that may fail.
  - `JSON.stringify` is an uninterpreted function parameter.
  - `Generate` is the imperative pass of `generate`: a loop that pushes messages onto
    `errors` while building the mapped array. It is proved equal to the declarative
    function `Output`.
  - The all-or-nothing rules are proved about `PayloadFrom`.
- `registration.dfy`: the form.
  - The component state is the class `RegistrationForm`, with methods `OnChange`,
    `Validate` and `OnSubmit` and the function `Render`.
  - `passwordQuality` is a pure function.
- `progress_bar.dfy`: the progress bar as pure functions on real-valued props.

Two details of JavaScript decide what the code does, and the model follows them:

- The script compares `process.argv.slice(2)` loosely with the string `'--watch'`. The
  array is turned into a string by joining its elements with commas. Watch mode is
  therefore on only when `--watch` is the one and only argument, and
  `ComponentData.WatchModeEnabled` states exactly that.
- `password.length` counts UTF-16 code units, not characters. A character outside the
  Basic Multilingual Plane, such as an emoji, counts twice. `JsText.Utf16Length` is this
  count, and the form's quality meter and validation use it.

## Model

| member | source | states |
|---|---|---|
| ComponentData.WatchModeEnabled | scripts/generateComponentData.js:13 | watch mode is on exactly when there are exactly three arguments and the third (the first after the script) is `--watch` |
| ComponentData.PassCount | scripts/generateComponentData.js:13-22 | without watch mode `generate` runs exactly once; in watch mode it runs exactly once per `'change'` notification, so never more often than there are notifications |
| ComponentData.ChangeCount | scripts/generateComponentData.js:16-18 | the number of runs in watch mode is the number of `'change'` notifications in the sequence (their multiplicity), at most its length |
| ComponentData.GetDirectories | scripts/generateComponentData.js:81-85 | a `readdirSync` error propagates; otherwise the call succeeds exactly when every listed entry exists; after a successful listing the result is that of the `statSync` filter, whose error is the ENOENT `stat` error of the first missing entry (`NodeFs.FilterByKindError`); on success it keeps listing order and holds exactly the entries that are directories |
| ComponentData.GetFiles | scripts/generateComponentData.js:87-92 | a `readdirSync` error propagates; otherwise the call succeeds exactly when every listed entry exists; after a successful listing the result is that of the `statSync` filter, whose error is the ENOENT `stat` error of the first missing entry (`NodeFs.FilterByKindError`); on success it keeps listing order and holds exactly the entries that are regular files |
| ComponentData.GetExampleFiles | scripts/generateComponentData.js:70-78 | the files of the examples directory, or the empty list when that directory cannot be scanned |
| ComponentData.MissingExamplesAreNoError | scripts/generateComponentData.js:70-78 | an examples directory that cannot be listed gives an empty example list, not an error |
| ComponentData.ExampleName | scripts/generateComponentData.js:60 | the example name is a prefix of the file name, of length max(0, n-3) |
| ComponentData.ExampleNameOfScript | scripts/generateComponentData.js:58-60 | the name of `X.js` is `X` |
| ComponentData.ExampleAt | scripts/generateComponentData.js:53-64 | an example record exists exactly when its file can be read and parsed; a read error or parse error is what is thrown; the record's name, code and description come from the file name, its content and the parse |
| ComponentData.ExampleRecords | scripts/generateComponentData.js:53-64 | the example list succeeds exactly when every example succeeds, and then holds one record per file, in order |
| ComponentData.ExampleRecordsError | scripts/generateComponentData.js:53-56 | a failing example list fails with the error of its first failing file |
| ComponentData.GetExampleData | scripts/generateComponentData.js:51-65 | the examples of a component succeed exactly when every file of its examples directory gives a record, and then hold that file's record at each position |
| ComponentData.GetComponentData | scripts/generateComponentData.js:39-49 | a record exists exactly when the primary file is read, parsed and its examples gathered; the record is named after the directory and holds the raw primary source, the parsed description and props, and the examples |
| ComponentData.ComponentErrorIsFirstFailure | scripts/generateComponentData.js:39-56 | a failing component fails with the error of the first failing step, in the order read, parse, examples |
| ComponentData.Attempts | scripts/generateComponentData.js:26-28 | one attempt per component directory, in directory order, holding that component's outcome |
| ComponentData.ErrorMessageParts | scripts/generateComponentData.js:30 | the pushed message is `An error occurred while attempting to generate metadata for `, the component name, `. ` and the error text, in that order |
| ComponentData.CollectErrors | scripts/generateComponentData.js:25-31 | the `errors` array holds no more messages than there are components |
| ComponentData.PayloadFrom | scripts/generateComponentData.js:33-35 | the payload is the error list exactly when some component failed, and that list is then non-empty; otherwise it is every record, element by element |
| ComponentData.Output | scripts/generateComponentData.js:24-36 | the written text exists exactly when the components directory can be scanned (otherwise its error escapes), and is `module.exports = /* eslint-disable */ ` followed by the serialised payload |
| ComponentData.VisitComponent | scripts/generateComponentData.js:27-31 | the callback returns the record and pushes nothing on success; on failure it returns `undefined` and pushes exactly the formatted message |
| ComponentData.MapComponents | scripts/generateComponentData.js:25-32 | after the `map`, the `errors` array is the collected messages of all attempts, and the mapped array holds each component's record or `undefined`, in order |
| ComponentData.Generate | scripts/generateComponentData.js:24-37 | the text handed to `writeFile` is the declarative `Output`: the prefix and the serialised payload, or the listing error of the components directory |
| ComponentData.PayloadFromLoop | scripts/generateComponentData.js:33-35 | choosing `errors` when it is non-empty, and otherwise the mapped array (then all defined), gives the all-or-nothing payload |
| ComponentData.CollectErrorsStep | scripts/generateComponentData.js:29-31 | each callback appends its component's messages to those of earlier components |
| ComponentData.ErrorsIffFailure | scripts/generateComponentData.js:25-35 | the error list is empty exactly when every component succeeded |
| ComponentData.CollectErrorsAppend | scripts/generateComponentData.js:26-32 | messages are collected component by component, in component order |
| ComponentData.CollectErrorsOfOne | scripts/generateComponentData.js:29-31 | a failing component adds exactly one message, `An error occurred while attempting to generate metadata for <name>. <error>`; a successful one adds none |
| ComponentData.CollectErrorsExact | scripts/generateComponentData.js:26-32 | every message belongs to a failing component, and every failing component has its message, so processing continues past a failure |
| ComponentData.PayloadOfSuccessfulRun | scripts/generateComponentData.js:26-35 | with no failure, the payload holds one record per component directory in directory order, each with its name, raw source and examples |
| ComponentData.ButtonFsNodes | scripts/generateComponentData.js:40-54 | the paths the script builds for a sample component `Button` name the nodes of a sample tree |
| ComponentData.ButtonExamples | scripts/generateComponentData.js:51-65 | in the sample tree, the one example file `Basic.js` gives the record named `Basic` |
| ComponentData.ButtonDirectories | scripts/generateComponentData.js:81-85 | in the sample tree, the one component directory is found |
| ComponentData.ButtonComponent | scripts/generateComponentData.js:39-49 | in the sample tree, the component record holds the parsed description, the raw source and its example |
| ComponentData.ButtonScenario | scripts/generateComponentData.js:24-37 | in the sample tree, the payload is the one record |
| ComponentData.BrokenFsNodes | scripts/generateComponentData.js:40-54 | in a second tree, the primary file of `Spinner` and the examples directory of `Button` are absent |
| ComponentData.BrokenButtonHasNoExamples | scripts/generateComponentData.js:70-78 | a component without an examples directory gets an empty example list |
| ComponentData.BrokenRunOutcomes | scripts/generateComponentData.js:39-41 | a component directory without its primary file fails with Node's ENOENT `open` error for that path |
| ComponentData.OneFailureScenario | scripts/generateComponentData.js:24-37 | with one good and one broken component, the payload is only the broken component's message |
| NodeFs.ReadDir | scripts/generateComponentData.js:82 | `readdirSync` succeeds exactly on a directory and returns its listing |
| NodeFs.ReadFile | scripts/generateComponentData.js:100-102 | `readFileSync` succeeds exactly on a regular file and returns its content |
| NodeFs.FilterByKind | scripts/generateComponentData.js:82-84 | the `statSync` filter succeeds exactly when every entry exists; it keeps listing order, holds exactly the entries of the requested kind, and keeps each such entry as often as it is listed |
| NodeFs.FilterOfOne | scripts/generateComponentData.js:82-84 | a one-entry listing keeps its entry exactly when the entry has the requested kind |
| NodeFs.FilterByKindError | scripts/generateComponentData.js:82-84 | a failing filter throws the ENOENT `stat` error of the first missing entry |
| JsText.JoinOfSeveralHasSeparator | scripts/generateComponentData.js:13 | joining two or more arguments with a comma leaves a comma in the string |
| JsText.JoinEqualsWord | scripts/generateComponentData.js:13 | the comma join of an array equals a word without commas exactly when the array is that one word |
| JsText.SliceFrom | scripts/generateComponentData.js:13 | `argv.slice(2)` has the elements after the first two, in place, and is empty for a shorter array |
| JsText.DropLast | scripts/generateComponentData.js:60 | `slice(0, -3)` drops the last three characters (code units in JavaScript: see Left out), or gives the empty string for a shorter name |
| JsText.NatToString | src/components/RegistrationForm/RegistrationForm.js:48 | the decimal digits of a natural number, without a leading zero, read back as that number |
| JsText.IntToString | src/components/RegistrationForm/RegistrationForm.js:48 | the template literal renders the minimum length in decimal, read back as the number, with a `-` sign exactly when negative |
| JsText.IntToStringOfDefault | src/components/RegistrationForm/RegistrationForm.js:48 | the default minimum renders as `8` |
| JsText.Utf16Length | src/components/RegistrationForm/RegistrationForm.js:35 | `length` is the number of UTF-16 code units: between the number of characters and twice that, and equal to it exactly when no character lies outside the Basic Multilingual Plane |
| JsText.Utf16LengthAppend | src/components/RegistrationForm/RegistrationForm.js:35 | the code units of a concatenation are those of its parts, added |
| JsText.Truncate | src/components/ProgressBar/ProgressBar.js:15 | `parseInt` of a number drops the fraction toward zero |
| JsText.TruncateBelow | src/components/ProgressBar/ProgressBar.js:15 | truncating a non-negative number keeps it non-negative and under any bound it was under |
| JsText.TruncateMonotonic | src/components/ProgressBar/ProgressBar.js:15 | truncation is non-decreasing |
| Wrappers.Unwrap | scripts/generateComponentData.js:26-35 | the mapped array without failures is its records, element by element |
| Registration.WithDefaults | src/components/RegistrationForm/RegistrationForm.js:116-119 | a missing `confirmationMessage` is `Thanks for registering!` and a missing `minPasswordLength` is 8 |
| Registration.PasswordQuality | src/components/RegistrationForm/RegistrationForm.js:31-40 | `null` exactly for an empty password; 100 once the UTF-16 length reaches the minimum; below it, a whole percentage in 0..99 that brackets `length*100/min` |
| Registration.TruncatedPercent | src/components/RegistrationForm/RegistrationForm.js:37 | truncating `(length / min) * 100` gives the integer quotient `length*100 / min` |
| Registration.FloorOfSum | src/components/RegistrationForm/RegistrationForm.js:37 | a whole number plus a fraction in [0, 1) truncates to that number |
| Registration.PercentBounds | src/components/RegistrationForm/RegistrationForm.js:37-39 | for a length below the minimum, that quotient lies in 0..99 |
| Registration.QualityMonotonic | src/components/RegistrationForm/RegistrationForm.js:34-39 | a password with at least as many code units never shows a lower quality |
| Registration.TypingNeverLowersQuality | src/components/RegistrationForm/RegistrationForm.js:21-39 | appending typed text to a non-empty password never lowers the quality |
| Registration.QualityIsIntegerPercentage | src/components/RegistrationForm/RegistrationForm.js:37-39 | below the minimum, the quality is exactly `length*100 / min` rounded down, in code units |
| Registration.FourEmojiMeetDefaultMinimum | src/components/RegistrationForm/RegistrationForm.js:35-48 | four emoji are eight code units: with the default minimum they give quality 100 and no password error |
| Registration.ValidationErrors | src/components/RegistrationForm/RegistrationForm.js:42-48 | an `email` error exactly when the email is empty, a `password` error exactly when the password has fewer code units than the minimum, no other keys, and the two messages |
| Registration.ValidIff | src/components/RegistrationForm/RegistrationForm.js:52-54 | the error map is empty exactly when an email is given and the password is long enough |
| Registration.RegistrationForm.constructor | src/components/RegistrationForm/RegistrationForm.js:8-19 | the initial state is an empty email and password, no errors and not submitted |
| Registration.RegistrationForm.OnChange | src/components/RegistrationForm/RegistrationForm.js:21-26 | the named field of `user` takes the new value; every other field, the errors and `submitted` are unchanged |
| Registration.RegistrationForm.Validate | src/components/RegistrationForm/RegistrationForm.js:42-55 | `errors` is replaced by the map of validation errors, and the result is true exactly when the form is valid |
| Registration.RegistrationForm.OnSubmit | src/components/RegistrationForm/RegistrationForm.js:57-65 | the callback receives `user` and `submitted` latches true exactly when validation passes; otherwise no callback and `submitted` is unchanged |
| Registration.RegistrationForm.Render | src/components/RegistrationForm/RegistrationForm.js:67-97 | the confirmation message exactly when submitted; otherwise the form with the user's email and password, each error exactly when `errors` has it (`undefined` otherwise), and the password quality |
| ProgressBar.WithDefaults | src/components/ProgressBar/ProgressBar.js:42-44 | a missing height is 5 |
| ProgressBar.GetColor | src/components/ProgressBar/ProgressBar.js:6-10 | `green` exactly at 100, `lightgreen` exactly above 50 except 100, `red` exactly at or below 50; always one of the three |
| ProgressBar.GetWidthAsPercentOfTotalWidth | src/components/ProgressBar/ProgressBar.js:12-16 | the filled width is `width*percent/100` truncated toward zero, for either sign |
| ProgressBar.WidthAtEnds | src/components/ProgressBar/ProgressBar.js:15 | 0 percent fills nothing; 100 percent fills the truncated width |
| ProgressBar.WidthWithinBar | src/components/ProgressBar/ProgressBar.js:15 | for a percent in 0..100 and a non-negative width, the fill lies in [0, width] |
| ProgressBar.ScaleWithinWhole | src/components/ProgressBar/ProgressBar.js:15 | a share in [0, 1] of a non-negative width lies in [0, width] |
| ProgressBar.WidthMonotonic | src/components/ProgressBar/ProgressBar.js:15 | on a bar of non-negative width, the fill is non-decreasing in the percent |
| ProgressBar.ScaleMonotonic | src/components/ProgressBar/ProgressBar.js:15 | a larger share of a non-negative width is no smaller |

## Left out

- File-system I/O is a snapshot passed in as a map. `fs.writeFile` is asynchronous, and its error
  callback and logging are not modelled. The model returns the text that would be written.
- Symbolic links, permissions and `statSync` errors other than a missing path are not modelled.
  `path.join` normalisation (`..`, duplicate separators) is not modelled either: paths are
  joined with `/`, which is all the script needs for names without separators.
- `chalk` console output and the `No examples found` log line are left out; they do not
  affect the output.
- The `chokidar` watcher is not modelled as an event loop. `PassCount` only counts the runs a
  sequence of notifications triggers: one per `'change'`, and none at start-up. A pass whose
  `getDirectories` throws (`readdirSync` or `statSync` on the components directory) is not
  caught inside the `'change'` listener, so Node ends the process and no later notification
  runs; `PassCount` does not model this early exit and counts every `'change'`.
- react-docgen's `parse` is an uninterpreted, possibly failing function of the source text.
  Its analysis is not part of this model.
- `JSON.stringify` is an uninterpreted function; its encoding is not modelled.
  `undefined` entries of the mapped array are never serialised, because the all-or-nothing
  rule picks the error list whenever one exists.
- Running `generate` twice on the same tree gives the same text, because `Output` is a
  function of the snapshot. No separate lemma states this.
- JavaScript numbers are not modelled as floating point. The progress bar's props are exact
  reals, and the form's lengths and minimum are integers. Floating-point rounding is left out,
  and so is the exponent notation `parseInt` meets for very large or very small numbers.
  - Registration.PasswordQuality: exact arithmetic gives 29 for 29 of 100 code units. In
    floating point `(29/100)*100` is `28.999…`, and the source shows 28 there.
  - ProgressBar.GetWidthAsPercentOfTotalWidth: the same rounding applies to `width * (percent / 100)`.
- Registration.PasswordQuality: `minPasswordLength` is an integer here, while its prop type
  admits any number. A fractional or non-finite minimum (`7.5`, `NaN`) is not modelled.
- Registration.ValidationErrors: for the same reason, the message renders an integer minimum
  only; the text JavaScript gives a fractional one (`7.5`) is not modelled.
- ComponentData.ExampleName: `slice(0, -3)` drops three UTF-16 code units, and the model drops
  three characters. The two differ only when one of the last three characters lies outside the
  Basic Multilingual Plane. JavaScript then removes fewer than three characters: for `ab😀` it
  keeps `a` where the model keeps the empty string. When the cut falls inside a surrogate pair
  (`a😀js`), JavaScript leaves a lone surrogate, which a Dafny string cannot hold.
- JsText.DropLast: the same gap; it counts characters where `slice(0, -k)` counts UTF-16 code
  units, and `ExampleName` is built on it.
- Registration.RegistrationForm.OnChange: React's `setState` batching is not modelled, and
  neither is the aliasing of `user`. The source mutates `this.state.user` in place, and the
  same object is handed to the `onSubmit` callback. The model treats `user` as a value.
- The parent's `onSubmit` callback is not called. `OnSubmit` returns the user it would be given.
- The JSX markup of both `render` methods, their styles, and the `TextInput`/`PasswordInput`
  components are not modelled. `Render` only states the `submitted` branch and the values
  it passes down.
- The TextInput components (`TextInputBEM.js`, `TextInputCSSModules.js`) are declarative markup
  and are not part of this model.

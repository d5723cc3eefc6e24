# add-types: a Dafny model of the installer's decision logic

`add-types` is a command-line script (`cli.js`) that reads the project's
`package.json`, gathers the names under `dependencies` and
`devDependencies`, and for each one tries to add the matching
`@types/<name>` package with `yarn add --dev`. It skips a name whose
`@types/` counterpart is already declared, and a name whose installed copy
in `node_modules` ships its own types. It asks the npm website whether the
types package exists: the answer must have status 200 and a body that
contains `"Installation"`. When that page has no marker and the name has
upper-case letters, it tries once more with the lower-case name.

The model keeps that logic and treats the outside world as inputs:

- `Text`: the ASCII part of `toLowerCase` and `indexOf`. It proves that
  lower-casing is idempotent and that `indexOf(...) >= 0` means "contains".
- `Dependencies`: the parsed manifest, and the split of the declared names
  on the `@types/` prefix (`alreadyInstalledTypes` and the candidates). This
  part is pure functions plus the collecting method.
- `Trace`: the observable effects of a run as a sequence of events. A
  `Probe(uri)` is an HTTP request, an `Exec(command)` is a subprocess, and a
  `Msg(kind, subject)` is a console line. The module also has the three
  views of a trace (probed URIs, commands, message counts).
- `Installer`: `installDependency` is a recursive method with a mutable
  `success` flag. `installAllDependencies` is a `for` loop with `continue`
  skips. `Run` is the whole script. Each of them is proved equal to a
  specification function (`DependencyOutcome`, `CandidateTrace`,
  `RunTrace`), and the lemmas state the policy's properties about those
  functions. `RunTrace` is the concatenation of the per-candidate traces.

The HTTP request, the subprocess and the local `node_modules` manifests are
passed in as three total functions:

- `probe : uri -> Response(statusCode, body)`;
- `install : command -> bool`, where true means "completed without throwing";
- `local : name -> Missing | Present(types, typings)`.

The probe's URI is `https://www.npmjs.com/package/@types/<name>`. The
install command is `yarn add --dev @types/<name>`. Both are the constants of
`cli.js`.

The lower-case retry needs both a status of 200 and a body without the
marker (`cli.js:70-86`). A 2xx status other than 200 goes straight to "No
types found" without a retry, even for a mixed-case name. Any status outside
2xx is rejected by the HTTP library before that test; see the HTTP request
under "## Left out".

## Model

| member | source | states |
|---|---|---|
| Text.ToLower | cli.js:82 | `toLowerCase` maps each character on its own: position i of the result is the lower-case form of position i of the input, and the length is kept |
| Text.ToLowerHasNoUpper | cli.js:82-84 | the lower-case form of any name has no upper-case letter |
| Text.ToLowerKeepsLower | cli.js:82 | a name without upper-case letters equals its lower-case form |
| Text.ToLowerIdempotent | cli.js:84 | lower-casing twice gives the same name as lower-casing once |
| Text.ToLowerChangesIffHasUpper | cli.js:82 | `name !== name.toLowerCase()` holds exactly when the name has an upper-case letter |
| Text.IndexOfFrom | cli.js:72 | the result is -1 or an index at or after `from` where the pattern occurs, and no occurrence starts between `from` and the result (none at all after -1) |
| Text.IndexOf | cli.js:72 | `indexOf` returns the first occurrence of the pattern, or -1 exactly when there is none |
| Text.IndexOfFindsIffContains | cli.js:72 | `body.indexOf("Installation") >= 0` holds exactly when the body contains the marker |
| Dependencies.IsTypesPackage | cli.js:32-33 | `/^@types\//` matches exactly the names made of the `@types/` scope followed by the rest of the name |
| Dependencies.TypesPackage | cli.js:42 | `'@types/' + name` is in the `@types/` scope, and dropping the scope gives back the name |
| Dependencies.TypesPackageInjective | cli.js:42 | distinct names have distinct `@types/` counterparts |
| Dependencies.TypesPackages | cli.js:32 | `alreadyInstalledTypes` contains a name exactly when it is declared and starts with `@types/`, and keeps the declared order |
| Dependencies.Candidates | cli.js:33 | the candidate list contains a name exactly when it is declared and does not start with `@types/`, and keeps the declared order |
| Dependencies.PartitionIsPermutation | cli.js:32-33 | the two lists together hold every declared name exactly as many times as it was declared, duplicates included |
| Dependencies.TypesPackagesOfConcat | cli.js:21-32 | the declared `@types/` names of `dependencies` come before those of `devDependencies` |
| Dependencies.CandidatesOfConcat | cli.js:21-33 | the candidates from `dependencies` come before those from `devDependencies`, each group in declared order |
| Dependencies.TypesPackageDeclared | cli.js:42 | the `includes` check on `alreadyInstalledTypes` succeeds exactly when package.json declares `@types/<dep>` |
| Dependencies.DeclaredNames | cli.js:21-28 | the declared names: the keys of `dependencies`, then those of `devDependencies`, a falsy field adding nothing |
| Dependencies.CollectDependencies | cli.js:21-33 | the collected lists are the split of the keys of `dependencies` followed by those of `devDependencies`, an absent field adding nothing, and no candidate starts with `@types/` |
| Installer.ProbeUri | cli.js:66 | the requested page is `https://www.npmjs.com/package/` followed by `@types/<name>` |
| Installer.InstallCommand | cli.js:75 | the executed command is `yarn add --dev ` followed by `@types/<name>` |
| Installer.Found | cli.js:70-72 | a page counts as found exactly when its status is 200 and its body contains `"Installation"` |
| Installer.ProbeUriAndCommandInjective | cli.js:66-75 | the requested URI and the executed command each determine the name they were built from |
| Installer.Retries | cli.js:70-85 | the retry test: status 200, a body without `"Installation"`, and `name !== name.toLowerCase()` |
| Installer.BundlesOwnTypes | cli.js:51-53 | the second skip: the local `node_modules/<dep>/package.json` exists and declares `types` or `typings` |
| Installer.LowercaseNeverRetries | cli.js:82-84 | the inner call on the lower-case name can never itself retry |
| Installer.DependencyOutcome | cli.js:64-95 | the specification of `installDependency`: the request, then the install, the single lower-case retry or nothing, then "No types found" when `success` is false; its properties are the lemmas below |
| Installer.InstallDependency | cli.js:64-95 | the method's `success` flag and its trace of requests, commands and messages are those of the specification `DependencyOutcome` |
| Installer.DependencyProbes | cli.js:66-85 | one request for `@types/<name>`, then one for `@types/<lower-case name>` exactly when the page was 200 without the marker and the name has upper case; never more than two |
| Installer.DependencyInstalls | cli.js:70-84 | a command is executed only after a probe with status 200 and the marker, and it is `yarn add --dev @types/<n>` for exactly the probed name `n`; at most one command |
| Installer.DependencySuccess | cli.js:68-94 | the returned `success` is true exactly when one install was executed and completed without throwing |
| Installer.RetryReturnsInnerResult | cli.js:84 | after a lower-case retry the outer call returns the inner call's result |
| Installer.DependencyReportsFailure | cli.js:79-91 | "No types found" is printed 0 times on success, once on a failure without retry, and twice after a failed retry |
| Installer.FoundThenInstall | cli.js:68-91 | when the page of the name is found: "attempting", the `yarn add --dev @types/<name>` command, then "installed" or the install's own failure line, and "No types found" after a failed install; `success` is the install's result |
| Installer.NotFoundReportsOnce | cli.js:66-91 | when the page is not found and there is no retry: one request, then "No types found", nothing else, and `success` is false |
| Installer.DependencyFailureEndsWithReport | cli.js:90-91 | a call whose `success` is false ends with "No types found" for its own name |
| Installer.RetryThenInstall | cli.js:70-91 | a mixed-case name whose page lacks the marker, while the lower-case page has it and the install completes, gives exactly: probe, "trying lowercase", probe of the lower-case name, "attempting", the install of `@types/<lower-case name>`, "installed", and success |
| Installer.CandidateTrace | cli.js:37-61 | one candidate's trace is never empty, and its first event shows the path taken: "already installed" when `@types/<dep>` is declared, otherwise "includes own types" when the local manifest declares them, otherwise the request for `@types/<dep>` |
| Installer.CandidateProbes | cli.js:42-60 | a candidate is probed exactly when its `@types/` counterpart is not declared and its local manifest does not declare `types`/`typings`; a missing local manifest falls through to the probe; the first request is for the candidate's own name; at most two requests and one install |
| Installer.SkipPrintsOneLine | cli.js:42-56 | each skip prints its single message ("already installed" is checked first) and does nothing else |
| Installer.LowercaseRetrySkipsDeclaredCheck | cli.js:42-84 | the retry does not repeat the already-declared check, so `@types/<lower-case name>` is added even if package.json declares it |
| Installer.RunTrace | cli.js:37-61 | the specification of `installAllDependencies`: the traces of the candidates, in list order; its properties are the lemmas below |
| Installer.RunTraceOfConcat | cli.js:37-61 | candidates are processed one after the other, and the loop shares no program state between candidates |
| Installer.RunBounds | cli.js:37-61 | a run makes at most two requests and executes at most one command per candidate |
| Installer.RunInstallsOnlyCounterparts | cli.js:37-61 | every executed command adds the `@types/` counterpart of a candidate or of its lower-case form |
| Installer.InstallAllDependencies | cli.js:36-62 | the loop's trace is that of the specification `RunTrace`: each candidate in list order, with the two `continue` skips |
| Installer.Run | cli.js:13-33 | without package.json the script prints one line and does nothing else; otherwise it runs the loop on the candidates and the `@types/` names taken from its keys |
| Installer.LodashExample | cli.js:64-95 | for a manifest declaring only `Lodash`, when the first page lacks the marker, the lower-case page has it and the install completes: probe `@types/Lodash`, announce the retry, probe `@types/lodash`, then install `@types/lodash` successfully |

## Left out

- Reading `package.json` and `node_modules/<dep>/package.json` from disk,
  and parsing their JSON. The parsed key lists and the truthiness of
  `types` and `typings` are inputs. A malformed manifest throws in the
  script and is not modelled.
- The HTTP request. The probe is a total function from URI to status and
  body. `request-promise` rejects on a non-2xx status or a network error,
  and nothing catches that rejection, so it would end the whole run. The
  model does not include that abort. It treats any non-200 answer as "not
  found".
- The `yarn` subprocess. It is a boolean oracle meaning "completed without
  throwing". The error text in the failure message is not modelled.
- Console colouring, symbols and exact wording. Each line is one of eight
  message kinds with the name it concerns. The missing-manifest line has an
  empty subject.
- `process.exit()` after the missing-manifest message. `Run` returns
  without processing any candidate.
- Async/await. The script awaits every call, so the model is plain
  sequential code.
- Full Unicode case mapping. `toLowerCase` is modelled on the ASCII letters
  A-Z only.
- Field values that are not objects. Every falsy value, `null` included,
  is `None`; any other value is taken as its `Object.keys` list.
- Changes in the outside world during a run. `probe`, `install` and `local`
  are each one fixed function for the whole run. In the script, an earlier
  candidate's `yarn add` can create or re-hoist `node_modules`, and so change
  what a later candidate's local-manifest check reads. The model cannot
  express that.

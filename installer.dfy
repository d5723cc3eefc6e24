/** The per-candidate decision policy of cli.js (`installAllDependencies`,
    lines 36-62) and the probe / install / lower-case retry of
    `installDependency` (lines 64-95).

    The outside world is passed in as three total functions:
    - `probe` answers the HTTP request for a URI with a status and a body;
    - `install` says whether executing a command completes without throwing;
    - `local` describes `node_modules/<name>/package.json` for a name.
    Every effect is recorded, in order, as an `Event` of the returned trace. */
module Installer {
  import opened Text
  import opened Dependencies
  import opened Trace

  datatype Response = Response(statusCode: int, body: string)

  /** `node_modules/<name>/package.json`: missing, or present with the
      truthiness of its `types` and `typings` fields. */
  datatype LocalPackage = Missing | Present(types: bool, typings: bool)

  /** The `success` flag of `installDependency` and what it printed and did. */
  datatype Outcome = Outcome(success: bool, trace: seq<Event>)

  const RegistryPage: string := "https://www.npmjs.com/package/"
  const InstallationMarker: string := "Installation"
  const AddDevCommand: string := "yarn add --dev "

  /** The page requested for `name` (cli.js:66): the registry's page of the
      `@types/` counterpart. */
  function ProbeUri(name: string): string {
    RegistryPage + TypesPackage(name)
  }

  /** The command executed for `name` (cli.js:75): `yarn add --dev` of the
      `@types/` counterpart. */
  function InstallCommand(name: string): string {
    AddDevCommand + TypesPackage(name)
  }

  /** Distinct names are probed and installed under distinct URIs and
      commands, so the trace says which name each effect was for. */
  lemma ProbeUriAndCommandInjective(a: string, b: string)
    ensures ProbeUri(a) == ProbeUri(b) ==> a == b
    ensures InstallCommand(a) == InstallCommand(b) ==> a == b
  {
    if ProbeUri(a) == ProbeUri(b) {
      assert ProbeUri(a)[|RegistryPage|..] == TypesPackage(a);
      assert ProbeUri(b)[|RegistryPage|..] == TypesPackage(b);
      TypesPackageInjective(a, b);
    }
    if InstallCommand(a) == InstallCommand(b) {
      assert InstallCommand(a)[|AddDevCommand|..] == TypesPackage(a);
      assert InstallCommand(b)[|AddDevCommand|..] == TypesPackage(b);
      TypesPackageInjective(a, b);
    }
  }

  /** The registry has a types package: status 200 and the body contains
      "Installation" (cli.js:70-72). */
  predicate Found(res: Response): (r: bool)
    ensures r <==> res.statusCode == 200 && Contains(res.body, InstallationMarker)
  {
    IndexOfFindsIffContains(res.body, InstallationMarker);
    res.statusCode == 200 && IndexOf(res.body, InstallationMarker) >= 0
  }

  /** The probe of `name` leads to the lower-case retry: status 200 without
      the marker, and `name !== name.toLowerCase()` (cli.js:81-85). */
  predicate Retries(name: string, probe: string -> Response) {
    var res := probe(ProbeUri(name));
    res.statusCode == 200 && IndexOf(res.body, InstallationMarker) < 0 && name != ToLower(name)
  }

  /** The skip of cli.js:53: the local manifest exists and has `types` or
      `typings`. */
  predicate BundlesOwnTypes(local: LocalPackage) {
    local.Present? && (local.types || local.typings)
  }

  /** A lower-case name is never changed by `toLowerCase`, so the inner call
      of the retry never retries again. */
  lemma LowercaseNeverRetries(name: string, probe: string -> Response)
    ensures !Retries(ToLower(name), probe)
  {
    ToLowerIdempotent(name);
  }

  /** The lines and the command of an attempted install (cli.js:74-79). */
  function InstallSteps(name: string, completed: bool): seq<Event> {
    [Msg(AttemptingInstall, name), Exec(InstallCommand(name)),
     Msg(if completed then InstalledSuccessfully else InstallFailed, name)]
  }

  /** The closing line of a call whose `success` is false (cli.js:90-91). */
  function FailureReport(name: string, success: bool): seq<Event> {
    if success then [] else [Msg(NoTypesFound, name)]
  }

  lemma InstallStepsViews(name: string, completed: bool)
    ensures ProbedUris(InstallSteps(name, completed)) == []
    ensures Commands(InstallSteps(name, completed)) == [InstallCommand(name)]
    ensures CountMsg(InstallSteps(name, completed), NoTypesFound) == 0
  {
    var last := Msg(if completed then InstalledSuccessfully else InstallFailed, name);
    ViewsOfCons(last, []);
    ViewsOfCons(Exec(InstallCommand(name)), [last]);
    ViewsOfCons(Msg(AttemptingInstall, name), [Exec(InstallCommand(name)), last]);
    assert [last] + [] == [last];
    assert [Exec(InstallCommand(name))] + [last] == [Exec(InstallCommand(name)), last];
    assert [Msg(AttemptingInstall, name)] + [Exec(InstallCommand(name)), last] == InstallSteps(name, completed);
  }

  lemma FailureReportViews(name: string, success: bool)
    ensures ProbedUris(FailureReport(name, success)) == []
    ensures Commands(FailureReport(name, success)) == []
    ensures CountMsg(FailureReport(name, success), NoTypesFound) == if success then 0 else 1
  {
    ViewsOfCons(Msg(NoTypesFound, name), []);
    assert [Msg(NoTypesFound, name)] + [] == [Msg(NoTypesFound, name)];
  }

  /** The specification of `installDependency(name)` (cli.js:64-95): the
      request, then the install, the lower-case retry or nothing, then the
      closing "No types found" line when `success` is false. */
  function DependencyOutcome(name: string, probe: string -> Response, install: string -> bool): Outcome
    decreases if name == ToLower(name) then 0 else 1
  {
    var res := probe(ProbeUri(name));
    var attempt: Outcome :=
      if Found(res) then
        var completed := install(InstallCommand(name));
        Outcome(completed, InstallSteps(name, completed))
      else if Retries(name, probe) then
        ToLowerIdempotent(name);
        var inner := DependencyOutcome(ToLower(name), probe, install);
        Outcome(inner.success, [Msg(TryingLowercase, name)] + inner.trace)
      else
        Outcome(false, []);
    Outcome(attempt.success, [Probe(ProbeUri(name))] + attempt.trace + FailureReport(name, attempt.success))
  }

  /** `installDependency` (cli.js:64-95): probe, then install or retry once in
      lower case, keeping a mutable `success` flag. */
  method InstallDependency(name: string, probe: string -> Response, install: string -> bool)
    returns (success: bool, trace: seq<Event>)
    ensures Outcome(success, trace) == DependencyOutcome(name, probe, install)
    decreases if name == ToLower(name) then 0 else 1
  {
    var uri := ProbeUri(name);
    trace := [Probe(uri)];
    var res := probe(uri);
    success := false;
    if res.statusCode == 200 {
      if IndexOf(res.body, InstallationMarker) >= 0 {
        var command := InstallCommand(name);
        trace := trace + [Msg(AttemptingInstall, name), Exec(command)];
        var completed := install(command);
        if completed {
          trace := trace + [Msg(InstalledSuccessfully, name)];
          success := true;
        } else {
          trace := trace + [Msg(InstallFailed, name)];
        }
        assert trace == [Probe(uri)] + InstallSteps(name, completed);
      } else if name != ToLower(name) {
        trace := trace + [Msg(TryingLowercase, name)];
        ToLowerIdempotent(name);
        var innerTrace;
        success, innerTrace := InstallDependency(ToLower(name), probe, install);
        trace := trace + innerTrace;
        assert trace == [Probe(uri)] + ([Msg(TryingLowercase, name)] + innerTrace);
      }
    }
    if !success {
      trace := trace + [Msg(NoTypesFound, name)];
    }
  }

  /** One probe for `name`, and a second one, for the lower-case name, exactly
      when the retry happens: never more than two. */
  lemma {:induction false} DependencyProbes(name: string, probe: string -> Response, install: string -> bool)
    ensures ProbedUris(DependencyOutcome(name, probe, install).trace)
         == [ProbeUri(name)] + (if Retries(name, probe) then [ProbeUri(ToLower(name))] else [])
    decreases if name == ToLower(name) then 0 else 1
  {
    var o := DependencyOutcome(name, probe, install);
    var res := probe(ProbeUri(name));
    var head := [Probe(ProbeUri(name))];
    var tail := FailureReport(name, o.success);
    FailureReportViews(name, o.success);
    assert ProbedUris(head[1..]) == [] by { assert head[1..] == []; }
    if Found(res) {
      var completed := install(InstallCommand(name));
      var mid := InstallSteps(name, completed);
      assert o.trace == head + mid + tail;
      InstallStepsViews(name, completed);
      ProbedUrisOfConcat(head, mid);
      ProbedUrisOfConcat(head + mid, tail);
    } else if Retries(name, probe) {
      ToLowerIdempotent(name);
      var inner := DependencyOutcome(ToLower(name), probe, install);
      DependencyProbes(ToLower(name), probe, install);
      LowercaseNeverRetries(name, probe);
      var retry := [Msg(TryingLowercase, name)];
      assert ProbedUris(retry[1..]) == [] by { assert retry[1..] == []; }
      var mid := retry + inner.trace;
      assert o.trace == head + mid + tail;
      ProbedUrisOfConcat(retry, inner.trace);
      ProbedUrisOfConcat(head, mid);
      ProbedUrisOfConcat(head + mid, tail);
    } else {
      assert o.trace == head + tail;
      ProbedUrisOfConcat(head, tail);
    }
  }

  /** The only command ever executed is `yarn add --dev @types/<n>` for the
      name `n` whose probe found the marker; at most one install. */
  lemma {:induction false} DependencyInstalls(name: string, probe: string -> Response, install: string -> bool)
    ensures Commands(DependencyOutcome(name, probe, install).trace)
         == if Found(probe(ProbeUri(name))) then [InstallCommand(name)]
            else if Retries(name, probe) && Found(probe(ProbeUri(ToLower(name)))) then [InstallCommand(ToLower(name))]
            else []
    decreases if name == ToLower(name) then 0 else 1
  {
    var o := DependencyOutcome(name, probe, install);
    var res := probe(ProbeUri(name));
    var head := [Probe(ProbeUri(name))];
    var tail := FailureReport(name, o.success);
    FailureReportViews(name, o.success);
    assert Commands(head[1..]) == [] by { assert head[1..] == []; }
    if Found(res) {
      var completed := install(InstallCommand(name));
      var mid := InstallSteps(name, completed);
      assert o.trace == head + mid + tail;
      InstallStepsViews(name, completed);
      CommandsOfConcat(head, mid);
      CommandsOfConcat(head + mid, tail);
    } else if Retries(name, probe) {
      ToLowerIdempotent(name);
      var inner := DependencyOutcome(ToLower(name), probe, install);
      DependencyInstalls(ToLower(name), probe, install);
      LowercaseNeverRetries(name, probe);
      var retry := [Msg(TryingLowercase, name)];
      assert Commands(retry[1..]) == [] by { assert retry[1..] == []; }
      var mid := retry + inner.trace;
      assert o.trace == head + mid + tail;
      CommandsOfConcat(retry, inner.trace);
      CommandsOfConcat(head, mid);
      CommandsOfConcat(head + mid, tail);
    } else {
      assert o.trace == head + tail;
      CommandsOfConcat(head, tail);
    }
  }

  /** `success` is true exactly when an install was executed and completed
      without throwing (cli.js:73-80). */
  lemma {:induction false} DependencySuccess(name: string, probe: string -> Response, install: string -> bool)
    ensures var o := DependencyOutcome(name, probe, install);
            o.success <==> |Commands(o.trace)| == 1 && install(Commands(o.trace)[0])
    decreases if name == ToLower(name) then 0 else 1
  {
    DependencyInstalls(name, probe, install);
    if Retries(name, probe) && !Found(probe(ProbeUri(name))) {
      ToLowerIdempotent(name);
      DependencySuccess(ToLower(name), probe, install);
      DependencyInstalls(ToLower(name), probe, install);
    }
  }

  /** After a retry the outer call returns what the inner call returned. */
  lemma RetryReturnsInnerResult(name: string, probe: string -> Response, install: string -> bool)
    requires Retries(name, probe)
    ensures DependencyOutcome(name, probe, install).success
         == DependencyOutcome(ToLower(name), probe, install).success
  {
  }

  /** Every failure ends with "No types found" for the name, printed once per
      level of the call: twice after a failed lower-case retry, and also after
      a failed install that printed its own failure line (cli.js:79, 90-91). */
  lemma {:induction false} DependencyReportsFailure(name: string, probe: string -> Response, install: string -> bool)
    ensures var o := DependencyOutcome(name, probe, install);
            CountMsg(o.trace, NoTypesFound) == (if o.success then 0 else if Retries(name, probe) then 2 else 1)
    decreases if name == ToLower(name) then 0 else 1
  {
    var o := DependencyOutcome(name, probe, install);
    var res := probe(ProbeUri(name));
    var head := [Probe(ProbeUri(name))];
    var tail := FailureReport(name, o.success);
    FailureReportViews(name, o.success);
    assert CountMsg(head[1..], NoTypesFound) == 0 by { assert head[1..] == []; }
    if Found(res) {
      var completed := install(InstallCommand(name));
      var mid := InstallSteps(name, completed);
      assert o.trace == head + mid + tail;
      InstallStepsViews(name, completed);
      CountMsgOfConcat(head, mid, NoTypesFound);
      CountMsgOfConcat(head + mid, tail, NoTypesFound);
    } else if Retries(name, probe) {
      ToLowerIdempotent(name);
      var inner := DependencyOutcome(ToLower(name), probe, install);
      DependencyReportsFailure(ToLower(name), probe, install);
      LowercaseNeverRetries(name, probe);
      var retry := [Msg(TryingLowercase, name)];
      assert CountMsg(retry[1..], NoTypesFound) == 0 by { assert retry[1..] == []; }
      var mid := retry + inner.trace;
      assert o.trace == head + mid + tail;
      CountMsgOfConcat(retry, inner.trace, NoTypesFound);
      CountMsgOfConcat(head, mid, NoTypesFound);
      CountMsgOfConcat(head + mid, tail, NoTypesFound);
    } else {
      assert o.trace == head + tail;
      CountMsgOfConcat(head, tail, NoTypesFound);
    }
  }

  /** A call whose `success` is false ends with its own "No types found"
      line (cli.js:90-91). */
  lemma DependencyFailureEndsWithReport(name: string, probe: string -> Response, install: string -> bool)
    ensures var o := DependencyOutcome(name, probe, install);
            !o.success ==> o.trace[|o.trace| - 1] == Msg(NoTypesFound, name)
  {
    var o := DependencyOutcome(name, probe, install);
    if !o.success {
      assert o.trace == (o.trace[..|o.trace| - 1]) + FailureReport(name, o.success);
    }
  }

  /** What `installAllDependencies` does for one candidate (cli.js:37-61):
      its first event tells which of the three paths it took. */
  function CandidateTrace(dep: string, installedTypes: seq<string>, local: string -> LocalPackage,
                          probe: string -> Response, install: string -> bool): (r: seq<Event>)
    ensures r != []
    ensures r[0] == if TypesPackage(dep) in installedTypes then Msg(TypesAlreadyInstalled, dep)
                    else if BundlesOwnTypes(local(dep)) then Msg(IncludesOwnTypes, dep)
                    else Probe(ProbeUri(dep))
  {
    if TypesPackage(dep) in installedTypes then [Msg(TypesAlreadyInstalled, dep)]
    else if BundlesOwnTypes(local(dep)) then [Msg(IncludesOwnTypes, dep)]
    else DependencyOutcome(dep, probe, install).trace
  }

  /** What `installAllDependencies` does for each candidate. */
  function CandidateTraces(candidates: seq<string>, installedTypes: seq<string>, local: string -> LocalPackage,
                           probe: string -> Response, install: string -> bool): seq<seq<Event>>
  {
    seq(|candidates|, i requires 0 <= i < |candidates| => CandidateTrace(candidates[i], installedTypes, local, probe, install))
  }

  /** What `installAllDependencies` does for a list of candidates: each one in
      turn, with no program state shared between them. */
  function RunTrace(candidates: seq<string>, installedTypes: seq<string>, local: string -> LocalPackage,
                    probe: string -> Response, install: string -> bool): seq<Event>
  {
    Flatten(CandidateTraces(candidates, installedTypes, local, probe, install))
  }

  /** A candidate is probed exactly when neither skip applies: a declared
      `@types/` counterpart and a local manifest with its own types both
      prevent any request and any install; a missing local manifest does
      not. Per candidate, at most two probes and at most one install. */
  lemma CandidateProbes(dep: string, installedTypes: seq<string>, local: string -> LocalPackage,
                        probe: string -> Response, install: string -> bool)
    ensures var t := CandidateTrace(dep, installedTypes, local, probe, install);
            (ProbedUris(t) == [] <==> TypesPackage(dep) in installedTypes || BundlesOwnTypes(local(dep)))
            && (ProbedUris(t) != [] ==> ProbedUris(t)[0] == ProbeUri(dep))
            && |ProbedUris(t)| <= 2 && |Commands(t)| <= 1
  {
    DependencyProbes(dep, probe, install);
    DependencyInstalls(dep, probe, install);
  }

  /** The skips print one line and nothing else. */
  lemma SkipPrintsOneLine(dep: string, installedTypes: seq<string>, local: string -> LocalPackage,
                          probe: string -> Response, install: string -> bool)
    requires TypesPackage(dep) in installedTypes || BundlesOwnTypes(local(dep))
    ensures CandidateTrace(dep, installedTypes, local, probe, install)
         == [Msg(if TypesPackage(dep) in installedTypes then TypesAlreadyInstalled else IncludesOwnTypes, dep)]
  {
  }

  /** The already-installed check is made for the candidate's own name only:
      when the lower-case retry finds types, `@types/<lower-case name>` is
      added even if package.json already declares it. */
  lemma LowercaseRetrySkipsDeclaredCheck(dep: string, installedTypes: seq<string>, local: string -> LocalPackage,
                                         probe: string -> Response, install: string -> bool)
    requires TypesPackage(dep) !in installedTypes && !BundlesOwnTypes(local(dep))
    requires Retries(dep, probe) && Found(probe(ProbeUri(ToLower(dep))))
    ensures Commands(CandidateTrace(dep, installedTypes, local, probe, install)) == [InstallCommand(ToLower(dep))]
  {
    DependencyInstalls(dep, probe, install);
  }

  /** The run over a concatenation is the concatenation of the runs: the
      loop shares no program state between candidates. */
  lemma RunTraceOfConcat(a: seq<string>, b: seq<string>, installedTypes: seq<string>,
                         local: string -> LocalPackage, probe: string -> Response, install: string -> bool)
    ensures RunTrace(a + b, installedTypes, local, probe, install)
         == RunTrace(a, installedTypes, local, probe, install) + RunTrace(b, installedTypes, local, probe, install)
  {
    assert CandidateTraces(a + b, installedTypes, local, probe, install)
        == CandidateTraces(a, installedTypes, local, probe, install) + CandidateTraces(b, installedTypes, local, probe, install);
    FlattenOfConcat(CandidateTraces(a, installedTypes, local, probe, install), CandidateTraces(b, installedTypes, local, probe, install));
  }

  /** A non-empty run starts with the first candidate's trace. */
  lemma RunTraceCons(candidates: seq<string>, installedTypes: seq<string>,
                     local: string -> LocalPackage, probe: string -> Response, install: string -> bool)
    requires candidates != []
    ensures RunTrace(candidates, installedTypes, local, probe, install)
         == CandidateTrace(candidates[0], installedTypes, local, probe, install)
            + RunTrace(candidates[1..], installedTypes, local, probe, install)
  {
    assert candidates == [candidates[0]] + candidates[1..];
    RunTraceOfConcat([candidates[0]], candidates[1..], installedTypes, local, probe, install);
    var head := CandidateTrace(candidates[0], installedTypes, local, probe, install);
    var one := CandidateTraces([candidates[0]], installedTypes, local, probe, install);
    assert one == [head];
    assert one[1..] == [];
    assert Flatten(one) == head + [];
  }

  /** Over a whole run: at most two probes and one install per candidate. */
  lemma {:induction false} RunBounds(candidates: seq<string>, installedTypes: seq<string>,
                                     local: string -> LocalPackage, probe: string -> Response,
                                     install: string -> bool)
    ensures var t := RunTrace(candidates, installedTypes, local, probe, install);
            |ProbedUris(t)| <= 2 * |candidates| && |Commands(t)| <= |candidates|
  {
    if candidates != [] {
      var head := CandidateTrace(candidates[0], installedTypes, local, probe, install);
      var rest := RunTrace(candidates[1..], installedTypes, local, probe, install);
      RunTraceCons(candidates, installedTypes, local, probe, install);
      RunBounds(candidates[1..], installedTypes, local, probe, install);
      CandidateProbes(candidates[0], installedTypes, local, probe, install);
      ProbedUrisOfConcat(head, rest);
      CommandsOfConcat(head, rest);
    }
  }

  /** Every command of a run adds the `@types/` counterpart of a candidate or
      of its lower-case form. */
  lemma {:induction false} RunInstallsOnlyCounterparts(candidates: seq<string>, installedTypes: seq<string>,
                                                       local: string -> LocalPackage, probe: string -> Response,
                                                       install: string -> bool)
    ensures forall command :: command in Commands(RunTrace(candidates, installedTypes, local, probe, install)) ==>
              exists dep :: dep in candidates && (command == InstallCommand(dep) || command == InstallCommand(ToLower(dep)))
  {
    if candidates != [] {
      var dep := candidates[0];
      var head := CandidateTrace(dep, installedTypes, local, probe, install);
      var rest := RunTrace(candidates[1..], installedTypes, local, probe, install);
      RunTraceCons(candidates, installedTypes, local, probe, install);
      RunInstallsOnlyCounterparts(candidates[1..], installedTypes, local, probe, install);
      CommandsOfConcat(head, rest);
      DependencyInstalls(dep, probe, install);
      assert Commands(head) == [] || Commands(head) == [InstallCommand(dep)] || Commands(head) == [InstallCommand(ToLower(dep))];
      forall command | command in Commands(head) + Commands(rest)
        ensures exists d :: d in candidates && (command == InstallCommand(d) || command == InstallCommand(ToLower(d)))
      {
        if command in Commands(head) {
          assert dep in candidates;
        } else {
          var d :| d in candidates[1..] && (command == InstallCommand(d) || command == InstallCommand(ToLower(d)));
          assert d in candidates;
        }
      }
    }
  }

  /** Appending one candidate to the list appends its trace to the run's. */
  lemma RunTraceSnoc(done: seq<string>, dep: string, installedTypes: seq<string>,
                     local: string -> LocalPackage, probe: string -> Response, install: string -> bool)
    ensures RunTrace(done + [dep], installedTypes, local, probe, install)
         == RunTrace(done, installedTypes, local, probe, install) + CandidateTrace(dep, installedTypes, local, probe, install)
  {
    RunTraceOfConcat(done, [dep], installedTypes, local, probe, install);
    RunTraceCons([dep], installedTypes, local, probe, install);
    assert [dep][1..] == [];
    assert CandidateTraces([], installedTypes, local, probe, install) == [];
  }

  /** `installAllDependencies` (cli.js:36-62): a loop over the candidates with
      two early `continue` skips. */
  method InstallAllDependencies(candidates: seq<string>, installedTypes: seq<string>, local: string -> LocalPackage,
                                probe: string -> Response, install: string -> bool)
    returns (trace: seq<Event>)
    ensures trace == RunTrace(candidates, installedTypes, local, probe, install)
  {
    trace := [];
    for i := 0 to |candidates|
      invariant trace == RunTrace(candidates[..i], installedTypes, local, probe, install)
    {
      var dep := candidates[i];
      assert candidates[..i + 1] == candidates[..i] + [dep];
      RunTraceSnoc(candidates[..i], dep, installedTypes, local, probe, install);
      if TypesPackage(dep) in installedTypes {
        trace := trace + [Msg(TypesAlreadyInstalled, dep)];
        continue;
      }
      var manifest := local(dep);
      if manifest.Present? {
        if manifest.types || manifest.typings {
          trace := trace + [Msg(IncludesOwnTypes, dep)];
          continue;
        }
      }
      var success, depTrace := InstallDependency(dep, probe, install);
      assert depTrace == CandidateTrace(dep, installedTypes, local, probe, install);
      trace := trace + depTrace;
    }
    assert candidates[..|candidates|] == candidates;
  }

  /** The whole script: without a package.json it prints one line and stops;
      otherwise it collects the candidates and processes them in order. */
  method Run(pkg: Option<Manifest>, local: string -> LocalPackage, probe: string -> Response, install: string -> bool)
    returns (trace: seq<Event>)
    ensures pkg.None? ==> trace == [Msg(NoPackageJson, "")]
    ensures pkg.Some? ==> trace == RunTrace(Candidates(DeclaredNames(pkg.value)), TypesPackages(DeclaredNames(pkg.value)),
                                            local, probe, install)
  {
    if pkg.None? {
      trace := [Msg(NoPackageJson, "")];
      return;
    }
    var installedTypes, candidates := CollectDependencies(pkg.value);
    CandidatesOfConcat(Keys(pkg.value.dependencies), Keys(pkg.value.devDependencies));
    trace := InstallAllDependencies(candidates, installedTypes, local, probe, install);
  }

  lemma SingleCandidateRun(dep: string, installedTypes: seq<string>, local: string -> LocalPackage,
                            probe: string -> Response, install: string -> bool)
    ensures RunTrace([dep], installedTypes, local, probe, install) == CandidateTrace(dep, installedTypes, local, probe, install)
  {
    RunTraceCons([dep], installedTypes, local, probe, install);
    assert [dep][1..] == [];
    assert CandidateTraces([], installedTypes, local, probe, install) == [];
  }

  /** A name whose page is found: the install is announced and executed,
      its outcome is reported, and a failed install is followed by "No types
      found". The result is the install's own result. */
  lemma FoundThenInstall(name: string, probe: string -> Response, install: string -> bool)
    requires Found(probe(ProbeUri(name)))
    ensures var o := DependencyOutcome(name, probe, install);
            o.success == install(InstallCommand(name))
            && o.trace == [Probe(ProbeUri(name)), Msg(AttemptingInstall, name), Exec(InstallCommand(name)),
                           Msg(if o.success then InstalledSuccessfully else InstallFailed, name)]
                          + (if o.success then [] else [Msg(NoTypesFound, name)])
  {
  }

  /** A name whose page is not found and that does not retry: one request
      and "No types found", nothing else. */
  lemma NotFoundReportsOnce(name: string, probe: string -> Response, install: string -> bool)
    requires !Found(probe(ProbeUri(name))) && !Retries(name, probe)
    ensures var o := DependencyOutcome(name, probe, install);
            !o.success && o.trace == [Probe(ProbeUri(name)), Msg(NoTypesFound, name)]
  {
  }

  /** A mixed-case name whose page lacks the marker, while the lower-case
      page has it and the install completes: two probes, one install of the
      lower-case counterpart, and a success. */
  lemma RetryThenInstall(name: string, probe: string -> Response, install: string -> bool)
    requires Retries(name, probe)
    requires Found(probe(ProbeUri(ToLower(name))))
    requires install(InstallCommand(ToLower(name)))
    ensures var o := DependencyOutcome(name, probe, install);
            o.success
            && o.trace == [Probe(ProbeUri(name)), Msg(TryingLowercase, name),
                           Probe(ProbeUri(ToLower(name))), Msg(AttemptingInstall, ToLower(name)),
                           Exec(InstallCommand(ToLower(name))), Msg(InstalledSuccessfully, ToLower(name))]
  {
    var lower := ToLower(name);
    ToLowerIdempotent(name);
    var inner := DependencyOutcome(lower, probe, install);
    assert inner == Outcome(true, [Probe(ProbeUri(lower))] + InstallSteps(lower, true));
    var outer := DependencyOutcome(name, probe, install);
    assert outer.trace == [Probe(ProbeUri(name))] + ([Msg(TryingLowercase, name)] + inner.trace) + [];
  }

  /** The worked example for a manifest declaring only "Lodash": the page of
      `@types/Lodash` lacks the marker, that of `@types/lodash` has it, and
      the install completes. */
  lemma LodashExample(local: string -> LocalPackage, probe: string -> Response, install: string -> bool)
    requires local("Lodash") == Missing
    requires probe(ProbeUri("Lodash")) == Response(200, "Not found")
    requires probe(ProbeUri("lodash")) == Response(200, "Installation")
    requires install(InstallCommand("lodash"))
    ensures RunTrace(Candidates(DeclaredNames(Manifest(Some(["Lodash"]), None))),                      TypesPackages(DeclaredNames(Manifest(Some(["Lodash"]), None))), local, probe, install)
         == [Probe(ProbeUri("Lodash")), Msg(TryingLowercase, "Lodash"),
             Probe(ProbeUri("lodash")), Msg(AttemptingInstall, "lodash"), Exec(InstallCommand("lodash")),
             Msg(InstalledSuccessfully, "lodash")]
  {
    LodashCandidates();
    LodashLowercase();
    assert IndexOfFrom("Not found", InstallationMarker, 0) == -1;
    assert OccursAt("Installation", InstallationMarker, 0);
    RetryThenInstall("Lodash", probe, install);
    SingleCandidateRun("Lodash", [], local, probe, install);
  }

  lemma LodashCandidates()
    ensures Candidates(DeclaredNames(Manifest(Some(["Lodash"]), None))) == ["Lodash"]
    ensures TypesPackages(DeclaredNames(Manifest(Some(["Lodash"]), None))) == []
  {
    assert !IsTypesPackage("Lodash");
    assert DeclaredNames(Manifest(Some(["Lodash"]), None)) == ["Lodash"];
  }

  lemma LodashLowercase()
    ensures ToLower("Lodash") == "lodash"
  {
    assert !HasUpper("odash");
    ToLowerKeepsLower("odash");
    assert ToLower("Lodash") == [LowerChar('L')] + ToLower("odash");
  }
}

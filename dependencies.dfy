/** Collecting the declared dependency names of the project's package.json and
    splitting them on the `@types/` scope (cli.js lines 21-33). */
module Dependencies {

  datatype Option<T> = None | Some(value: T)

  /** The parsed package.json, reduced to what the installer reads: the keys of
      `dependencies` and of `devDependencies`, in `Object.keys` order. `None`
      stands for a field whose value is falsy: absent, or `null`. */
  datatype Manifest = Manifest(dependencies: Option<seq<string>>, devDependencies: Option<seq<string>>)

  const TypesScope: string := "@types/"

  /** The regular expression `/^@types\//`: the name starts with the scope,
      that is, it is the scope followed by the rest of the name. */
  predicate IsTypesPackage(name: string): (r: bool)
    ensures r <==> |name| >= |TypesScope| && name == TypesScope + name[|TypesScope|..]
  {
    TypesScope <= name
  }

  /** `'@types/' + name`: the type-declaration counterpart of a package. */
  function TypesPackage(name: string): (r: string)
    ensures IsTypesPackage(r)
    ensures r[|TypesScope|..] == name
  {
    TypesScope + name
  }

  lemma TypesPackageInjective(a: string, b: string)
    requires TypesPackage(a) == TypesPackage(b)
    ensures a == b
  {
  }

  function Keys(field: Option<seq<string>>): seq<string> {
    match field
    case None => []
    case Some(keys) => keys
  }

  /** The names cli.js gathers: the keys of `dependencies`, then those of
      `devDependencies`. */
  function DeclaredNames(pkg: Manifest): seq<string> {
    Keys(pkg.dependencies) + Keys(pkg.devDependencies)
  }

  /** `a` can be obtained from `b` by deleting elements: the order of what
      remains is that of `b`. */
  predicate IsSubsequence(a: seq<string>, b: seq<string>)
    decreases |b|
  {
    if a == [] then true
    else if b == [] then false
    else if a[0] == b[0] then IsSubsequence(a[1..], b[1..])
    else IsSubsequence(a, b[1..])
  }

  /** `alreadyInstalledTypes`: the names in the `@types/` scope, in order. */
  function TypesPackages(names: seq<string>): (r: seq<string>)
    ensures forall x :: x in r <==> x in names && IsTypesPackage(x)
    ensures IsSubsequence(r, names)
  {
    if names == [] then []
    else if IsTypesPackage(names[0]) then [names[0]] + TypesPackages(names[1..])
    else TypesPackages(names[1..])
  }

  /** The install candidates: the names outside the `@types/` scope, in order. */
  function Candidates(names: seq<string>): (r: seq<string>)
    ensures forall x :: x in r <==> x in names && !IsTypesPackage(x)
    ensures IsSubsequence(r, names)
  {
    if names == [] then []
    else if IsTypesPackage(names[0]) then Candidates(names[1..])
    else [names[0]] + Candidates(names[1..])
  }

  /** The two filters split the names exactly: every occurrence of every name
      goes to one side, duplicates included. */
  lemma {:induction false} PartitionIsPermutation(names: seq<string>)
    ensures multiset(TypesPackages(names)) + multiset(Candidates(names)) == multiset(names)
    ensures |TypesPackages(names)| + |Candidates(names)| == |names|
  {
    if names != [] {
      PartitionIsPermutation(names[1..]);
      assert names == [names[0]] + names[1..];
    }
  }

  /** Filtering commutes with concatenation: the `@types/` names from
      `dependencies` come before those from `devDependencies`. */
  lemma {:induction false} TypesPackagesOfConcat(a: seq<string>, b: seq<string>)
    ensures TypesPackages(a + b) == TypesPackages(a) + TypesPackages(b)
  {
    if a == [] {
      assert a + b == b;
    } else {
      TypesPackagesOfConcat(a[1..], b);
      assert (a + b)[0] == a[0] && (a + b)[1..] == a[1..] + b;
      if IsTypesPackage(a[0]) {
        calc {
          TypesPackages(a + b);
          [a[0]] + TypesPackages(a[1..] + b);
          [a[0]] + (TypesPackages(a[1..]) + TypesPackages(b));
          ([a[0]] + TypesPackages(a[1..])) + TypesPackages(b);
        }
      }
    }
  }

  /** Filtering commutes with concatenation: the candidates from
      `dependencies` come before those from `devDependencies`. */
  lemma {:induction false} CandidatesOfConcat(a: seq<string>, b: seq<string>)
    ensures Candidates(a + b) == Candidates(a) + Candidates(b)
  {
    if a == [] {
      assert a + b == b;
    } else {
      CandidatesOfConcat(a[1..], b);
      assert (a + b)[0] == a[0] && (a + b)[1..] == a[1..] + b;
      if !IsTypesPackage(a[0]) {
        calc {
          Candidates(a + b);
          [a[0]] + Candidates(a[1..] + b);
          [a[0]] + (Candidates(a[1..]) + Candidates(b));
          ([a[0]] + Candidates(a[1..])) + Candidates(b);
        }
      }
    }
  }

  /** The declared counterpart of a candidate is in `alreadyInstalledTypes`
      exactly when package.json declares it. */
  lemma TypesPackageDeclared(dep: string, names: seq<string>)
    ensures TypesPackage(dep) in TypesPackages(names) <==> TypesPackage(dep) in names
  {
  }

  /** cli.js lines 21-33: push the keys of each present field into a list,
      then split it on the `@types/` prefix. */
  method CollectDependencies(pkg: Manifest) returns (installedTypes: seq<string>, candidates: seq<string>)
    ensures installedTypes == TypesPackages(DeclaredNames(pkg))
    ensures candidates == Candidates(Keys(pkg.dependencies)) + Candidates(Keys(pkg.devDependencies))
    ensures forall c :: c in candidates ==> !IsTypesPackage(c)
  {
    var dependencies: seq<string> := [];
    if pkg.dependencies.Some? {
      dependencies := dependencies + pkg.dependencies.value;
    }
    if pkg.devDependencies.Some? {
      dependencies := dependencies + pkg.devDependencies.value;
    }
    assert dependencies == DeclaredNames(pkg);
    installedTypes := TypesPackages(dependencies);
    candidates := Candidates(dependencies);
    CandidatesOfConcat(Keys(pkg.dependencies), Keys(pkg.devDependencies));
  }
}

/** `import_condalibs` with the file read and the imports abstracted: the
    environment root is found, and the manifest text goes through
    extraction, dependency expansion and the binding loop. */
module CondaLibs {
  import opened Wrappers
  import EnvRoot
  import Scanner
  import Dependencies
  import Resolution

  /** The package list the binding loop runs over: the names extracted from
      the manifest, followed by the implicit dependencies. Every element is
      a well-formed package name. */
  function Packages(env: string): (pkgs: seq<string>)
    ensures Scanner.FindAll(env) <= pkgs
    ensures forall k :: 0 <= k < |pkgs| ==> Scanner.IsPackageName(pkgs[k])
    ensures forall x :: x in pkgs <==>
              || x in Scanner.FindAll(env)
              || (x == "numpy" && ("pandas" in Scanner.FindAll(env) || "scikit-learn" in Scanner.FindAll(env)))
              || (x == "scipy" && "scikit-learn" in Scanner.FindAll(env))
              || (x == "matplotlib" && "seaborn" in Scanner.FindAll(env))
  {
    var found := Scanner.FindAll(env);
    var pkgs := Dependencies.AddImplicitDependencies(found);
    ExpansionMembership(found, pkgs);
    ExpansionKeepsNames(found, pkgs);
    pkgs
  }

  /** The per-name facts about expansion by the fixed table, gathered into
      one statement about every name. */
  lemma ExpansionMembership(found: seq<string>, pkgs: seq<string>)
    requires "numpy" in pkgs <==> "numpy" in found || "pandas" in found || "scikit-learn" in found
    requires "scipy" in pkgs <==> "scipy" in found || "scikit-learn" in found
    requires "matplotlib" in pkgs <==> "matplotlib" in found || "seaborn" in found
    requires forall x :: x != "numpy" && x != "scipy" && x != "matplotlib" ==> (x in pkgs <==> x in found)
    ensures forall x :: x in pkgs ==> x in found || x == "numpy" || x == "scipy" || x == "matplotlib"
    ensures forall x :: x in pkgs <==>
              || x in found
              || (x == "numpy" && ("pandas" in found || "scikit-learn" in found))
              || (x == "scipy" && "scikit-learn" in found)
              || (x == "matplotlib" && "seaborn" in found)
  {
  }

  /** Expansion by the fixed table adds only `numpy`, `scipy` and
      `matplotlib`, so it keeps every name well formed. */
  lemma ExpansionKeepsNames(found: seq<string>, pkgs: seq<string>)
    requires forall k :: 0 <= k < |found| ==> Scanner.IsPackageName(found[k])
    requires forall x :: x in pkgs ==> x in found || x == "numpy" || x == "scipy" || x == "matplotlib"
    ensures forall k :: 0 <= k < |pkgs| ==> Scanner.IsPackageName(pkgs[k])
  {
    assert Scanner.IsPackageName("numpy") && Scanner.IsPackageName("scipy") && Scanner.IsPackageName("matplotlib");
    forall k | 0 <= k < |pkgs|
      ensures Scanner.IsPackageName(pkgs[k])
    {
      assert pkgs[k] in pkgs;
      if pkgs[k] in found {
        var j :| 0 <= j < |found| && found[j] == pkgs[k];
      }
    }
  }

  /** The namespace after the binding loop over the packages of `env`,
      starting from `g`. Every package whose module imports is bound under
      its resolved name, to the module of a package that binds that name; a
      name no such package resolves to keeps its old binding. */
  function ImportCondaLibs(g: Resolution.Namespace, env: string, importable: string -> bool): (g': Resolution.Namespace)
    ensures var pkgs := Packages(env);
      forall i :: 0 <= i < |pkgs| && importable(Resolution.Resolve(Resolution.ImportExceptions, pkgs[i]).moduleName) ==>
        Resolution.Resolve(Resolution.ImportExceptions, pkgs[i]).name in g'
    ensures var pkgs := Packages(env);
      forall n :: n in g' && Resolution.Binds(Resolution.ImportExceptions, pkgs, importable, n) ==>
        Resolution.BindsTo(Resolution.ImportExceptions, pkgs, importable, n, g'[n])
    ensures var pkgs := Packages(env);
      forall n :: !Resolution.Binds(Resolution.ImportExceptions, pkgs, importable, n) ==>
        (n in g' <==> n in g) && (n in g ==> g'[n] == g[n])
  {
    var pkgs := Packages(env);
    var g' := Resolution.BindAll(g, Resolution.ImportExceptions, importable, pkgs);
    assert forall i :: 0 <= i < |pkgs| && importable(Resolution.Resolve(Resolution.ImportExceptions, pkgs[i]).moduleName) ==>
        Resolution.Resolve(Resolution.ImportExceptions, pkgs[i]).name in g' by {
      forall i | 0 <= i < |pkgs| && importable(Resolution.Resolve(Resolution.ImportExceptions, pkgs[i]).moduleName)
        ensures Resolution.Resolve(Resolution.ImportExceptions, pkgs[i]).name in g'
      {
        assert Resolution.BindsAt(Resolution.ImportExceptions, pkgs, importable, i,
                                  Resolution.Resolve(Resolution.ImportExceptions, pkgs[i]).name);
      }
    }
    g'
  }

  /** The procedure: find the environment root, failing with the `IOError`
      of `find_env_root` when no candidate holds the manifest, then run the
      pipeline on the manifest text of the root found. `readManifest(dir)`
      stands for reading `dir/environment.yml` and joining its lines. */
  method RunImportCondaLibs(g: Resolution.Namespace, hasManifest: string -> bool, readManifest: string -> string,
                            importable: string -> bool)
    returns (r: Result<Resolution.Namespace, string>)
    ensures (forall k :: 0 <= k < EnvRoot.MaxDepth ==> !hasManifest(EnvRoot.Candidate(k))) ==>
              r == Failure(EnvRoot.NotFoundMessage)
    ensures forall k: nat :: k < EnvRoot.MaxDepth && hasManifest(EnvRoot.Candidate(k))
                             && (forall j :: 0 <= j < k ==> !hasManifest(EnvRoot.Candidate(j))) ==>
              r == Success(ImportCondaLibs(g, readManifest(EnvRoot.Candidate(k)), importable))
  {
    var found, probed := EnvRoot.FindEnvRoot(hasManifest);
    if found.Failure? {
      return Failure(found.error);
    }
    r := Success(ImportCondaLibs(g, readManifest(found.value), importable));
    EnvRoot.FirstHitUnique(hasManifest, |probed| - 1);
  }
}

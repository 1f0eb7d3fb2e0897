/** Binding-name resolution and the import loop of `import_condalibs`:
    each package is imported as some module and bound to some global name,
    as `import_exceptions` directs; an import that fails is swallowed. */
module Resolution {

  /** A table value: a plain string is an alias for the package's own
      module; a pair gives the alias and the module to import. */
  datatype Alias = Rename(alias: string) | Redirect(alias: string, moduleName: string)

  /** The global `name` a package is bound to and the `moduleName` imported. */
  datatype Binding = Binding(name: string, moduleName: string)

  /** The table `import_exceptions`. */
  const ImportExceptions: map<string, Alias> := map[
    "beautifulsoup4" := Redirect("bs4", "bs4"),
    "numpy" := Rename("np"),
    "pandas" := Rename("pd"),
    "py-xgboost" := Redirect("xgb", "xgboost"),
    "scikit-learn" := Redirect("sklearn", "sklearn"),
    "seaborn" := Rename("sns"),
    "xgboost" := Rename("xgb")
  ]

  /** The `(name, mod)` pair chosen for `pkg`. */
  function Resolve(table: map<string, Alias>, pkg: string): (b: Binding)
    ensures pkg !in table ==> b == Binding(pkg, pkg)
    ensures pkg in table ==> b.name == table[pkg].alias
    ensures pkg in table && table[pkg].Rename? ==> b.moduleName == pkg
    ensures pkg in table && table[pkg].Redirect? ==> b.moduleName == table[pkg].moduleName
  {
    if pkg in table then
      match table[pkg]
      case Rename(alias) => Binding(alias, pkg)
      case Redirect(alias, moduleName) => Binding(alias, moduleName)
    else Binding(pkg, pkg)
  }

  /** Resolution under the fixed table: a package keeps its own name exactly
      when the table does not list it, and keeps its own module unless it is
      one of the three packages whose import name differs from the package
      name. */
  lemma ResolveFixedTable(pkg: string)
    ensures Resolve(ImportExceptions, pkg).name == pkg <==> pkg !in ImportExceptions
    ensures Resolve(ImportExceptions, pkg).moduleName == pkg <==>
              pkg != "beautifulsoup4" && pkg != "py-xgboost" && pkg != "scikit-learn"
    ensures pkg == "numpy" ==> Resolve(ImportExceptions, pkg) == Binding("np", "numpy")
    ensures pkg == "pandas" ==> Resolve(ImportExceptions, pkg) == Binding("pd", "pandas")
    ensures pkg == "py-xgboost" ==> Resolve(ImportExceptions, pkg) == Binding("xgb", "xgboost")
    ensures pkg == "beautifulsoup4" ==> Resolve(ImportExceptions, pkg) == Binding("bs4", "bs4")
  {
    var t := ImportExceptions;
    assert "beautifulsoup4" in t && "numpy" in t && "pandas" in t && "py-xgboost" in t;
    assert "scikit-learn" in t && "seaborn" in t && "xgboost" in t;
    if pkg in t {
      assert pkg in {"beautifulsoup4", "numpy", "pandas", "py-xgboost", "scikit-learn", "seaborn", "xgboost"};
    }
  }

  /** The global namespace: each bound name and the module bound to it. */
  type Namespace = map<string, string>

  /** Importing the `i`-th package succeeded and bound `name`. */
  ghost predicate BindsAt(table: map<string, Alias>, pkgs: seq<string>, importable: string -> bool, i: int, name: string)
    requires 0 <= i < |pkgs|
  {
    var b := Resolve(table, pkgs[i]);
    importable(b.moduleName) && b.name == name
  }

  /** Some package of `pkgs` is imported successfully under `name`. */
  ghost predicate Binds(table: map<string, Alias>, pkgs: seq<string>, importable: string -> bool, name: string) {
    exists i :: 0 <= i < |pkgs| && BindsAt(table, pkgs, importable, i, name)
  }

  /** Some package of `pkgs` is imported successfully under `name` as the
      module `moduleName`. */
  ghost predicate BindsTo(table: map<string, Alias>, pkgs: seq<string>, importable: string -> bool,
                          name: string, moduleName: string) {
    exists i :: 0 <= i < |pkgs| && BindsAt(table, pkgs, importable, i, name)
                && Resolve(table, pkgs[i]).moduleName == moduleName
  }

  /** One iteration of the loop: resolve, try the import, and bind on
      success. `importable` stands for whether `importlib.import_module`
      succeeds; a failure is swallowed and the namespace stays as it was. */
  function BindOne(g: Namespace, table: map<string, Alias>, importable: string -> bool, pkg: string): (g': Namespace)
    ensures var b := Resolve(table, pkg);
      && (importable(b.moduleName) ==> b.name in g' && g'[b.name] == b.moduleName)
      && (forall n :: n != b.name || !importable(b.moduleName) ==> (n in g' <==> n in g) && (n in g ==> g'[n] == g[n]))
  {
    var b := Resolve(table, pkg);
    if importable(b.moduleName) then g[b.name := b.moduleName] else g
  }

  /** The loop over all packages, in list order. A name no package binds
      keeps its old value (or stays absent); a name some package binds ends
      up bound to the module of one of the packages that bind it. */
  function BindAll(g: Namespace, table: map<string, Alias>, importable: string -> bool, pkgs: seq<string>): (g': Namespace)
    ensures forall n :: !Binds(table, pkgs, importable, n) ==>
              (n in g' <==> n in g) && (n in g ==> g'[n] == g[n])
    ensures forall n :: Binds(table, pkgs, importable, n) ==>
              n in g' && BindsTo(table, pkgs, importable, n, g'[n])
    decreases |pkgs|
  {
    if pkgs == [] then g
    else
      var g1 := BindOne(g, table, importable, pkgs[0]);
      var g' := BindAll(g1, table, importable, pkgs[1..]);
      assert forall n :: !Binds(table, pkgs, importable, n) ==>
               (n in g' <==> n in g) && (n in g ==> g'[n] == g[n]) by {
        forall n | !Binds(table, pkgs, importable, n)
          ensures (n in g' <==> n in g) && (n in g ==> g'[n] == g[n])
        {
          BindsCons(table, pkgs, importable, n);
        }
      }
      assert forall n :: Binds(table, pkgs, importable, n) ==>
               n in g' && BindsTo(table, pkgs, importable, n, g'[n]) by {
        forall n | Binds(table, pkgs, importable, n)
          ensures n in g' && BindsTo(table, pkgs, importable, n, g'[n])
        {
          BindsCons(table, pkgs, importable, n);
          if Binds(table, pkgs[1..], importable, n) {
            BindsToCons(table, pkgs, importable, n, g'[n]);
          } else {
            assert BindsAt(table, pkgs, importable, 0, n);
          }
        }
      }
      g'
  }

  /** A name is bound by the list exactly when it is bound by its head or
      by its tail. */
  lemma BindsCons(table: map<string, Alias>, pkgs: seq<string>, importable: string -> bool, n: string)
    requires |pkgs| > 0
    ensures Binds(table, pkgs, importable, n) <==>
              BindsAt(table, pkgs, importable, 0, n) || Binds(table, pkgs[1..], importable, n)
  {
    if Binds(table, pkgs, importable, n) {
      var i :| 0 <= i < |pkgs| && BindsAt(table, pkgs, importable, i, n);
      if i > 0 {
        assert pkgs[1..][i - 1] == pkgs[i];
        assert BindsAt(table, pkgs[1..], importable, i - 1, n);
      }
    }
    if Binds(table, pkgs[1..], importable, n) {
      var i :| 0 <= i < |pkgs[1..]| && BindsAt(table, pkgs[1..], importable, i, n);
      assert pkgs[1..][i] == pkgs[i + 1];
      assert BindsAt(table, pkgs, importable, i + 1, n);
    }
  }

  /** A binding made by the tail of the list is made by the list. */
  lemma BindsToCons(table: map<string, Alias>, pkgs: seq<string>, importable: string -> bool, n: string, m: string)
    requires |pkgs| > 0
    requires BindsTo(table, pkgs[1..], importable, n, m)
    ensures BindsTo(table, pkgs, importable, n, m)
  {
    var i :| 0 <= i < |pkgs[1..]| && BindsAt(table, pkgs[1..], importable, i, n)
             && Resolve(table, pkgs[1..][i]).moduleName == m;
    assert pkgs[1..][i] == pkgs[i + 1];
    assert BindsAt(table, pkgs, importable, i + 1, n);
  }

  /** The last successful import under a name decides its binding: if the
      `i`-th package binds `name` and no later package does, `name` ends up
      bound to the `i`-th package's module. */
  lemma {:induction false} LastBindingWins(g: Namespace, table: map<string, Alias>, importable: string -> bool,
                                           pkgs: seq<string>, i: nat)
    requires i < |pkgs|
    requires importable(Resolve(table, pkgs[i]).moduleName)
    requires forall j :: i < j < |pkgs| ==> !BindsAt(table, pkgs, importable, j, Resolve(table, pkgs[i]).name)
    ensures var b := Resolve(table, pkgs[i]);
      b.name in BindAll(g, table, importable, pkgs) && BindAll(g, table, importable, pkgs)[b.name] == b.moduleName
    decreases i
  {
    NoLaterBindingShifts(table, importable, pkgs, i, Resolve(table, pkgs[i]).name);
    if i == 0 {
      HeadBindingKept(g, table, importable, pkgs);
    } else {
      var g1 := BindOne(g, table, importable, pkgs[0]);
      BindAllCons(g, table, importable, pkgs);
      assert pkgs[1..][i - 1] == pkgs[i];
      LastBindingWins(g1, table, importable, pkgs[1..], i - 1);
    }
  }

  /** One step of the loop. */
  lemma BindAllCons(g: Namespace, table: map<string, Alias>, importable: string -> bool, pkgs: seq<string>)
    requires |pkgs| > 0
    ensures BindAll(g, table, importable, pkgs) == BindAll(BindOne(g, table, importable, pkgs[0]), table, importable, pkgs[1..])
  {
  }

  /** The head's binding survives a tail that never binds its name. */
  lemma HeadBindingKept(g: Namespace, table: map<string, Alias>, importable: string -> bool, pkgs: seq<string>)
    requires |pkgs| > 0
    requires importable(Resolve(table, pkgs[0]).moduleName)
    requires forall j :: 0 <= j < |pkgs| - 1 ==> !BindsAt(table, pkgs[1..], importable, j, Resolve(table, pkgs[0]).name)
    ensures var b := Resolve(table, pkgs[0]);
      b.name in BindAll(g, table, importable, pkgs) && BindAll(g, table, importable, pkgs)[b.name] == b.moduleName
  {
    var b := Resolve(table, pkgs[0]);
    var g1 := BindOne(g, table, importable, pkgs[0]);
    assert b.name in g1 && g1[b.name] == b.moduleName;
    assert !Binds(table, pkgs[1..], importable, b.name);
    BindAllCons(g, table, importable, pkgs);
  }

  /** Dropping the head of the list shifts "no package after position `i`
      binds `name`" down to position `i - 1`. */
  lemma NoLaterBindingShifts(table: map<string, Alias>, importable: string -> bool,
                             pkgs: seq<string>, i: nat, name: string)
    requires i < |pkgs|
    requires forall j :: i < j < |pkgs| ==> !BindsAt(table, pkgs, importable, j, name)
    ensures forall j :: i <= j < |pkgs| - 1 ==> !BindsAt(table, pkgs[1..], importable, j, name)
  {
    forall j | i <= j < |pkgs| - 1
      ensures !BindsAt(table, pkgs[1..], importable, j, name)
    {
      assert pkgs[1..][j] == pkgs[j + 1];
      assert !BindsAt(table, pkgs, importable, j + 1, name);
    }
  }
}

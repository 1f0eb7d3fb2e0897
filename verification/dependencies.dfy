/** The implicit-dependency expansion of `import_condalibs`: for each entry
    of `dependency_exceptions`, in the dictionary's insertion order, a
    package already in the list pulls in its listed dependencies, each
    appended only when the list does not yet hold it. */
module Dependencies {

  /** A table value: a single dependency (a plain string in the table) or
      several (a tuple). */
  datatype Deps = Single(name: string) | Several(names: seq<string>)

  /** One table entry, `key: deps`. */
  datatype Rule = Rule(key: string, deps: Deps)

  /** A single dependency is read as the one-element tuple `(deps,)`. */
  function AsTuple(d: Deps): seq<string> {
    match d
    case Single(n) => [n]
    case Several(ns) => ns
  }

  /** The table `dependency_exceptions`, in insertion order. */
  const DependencyExceptions: seq<Rule> := [
    Rule("pandas", Single("numpy")),
    Rule("scikit-learn", Several(["numpy", "scipy"])),
    Rule("seaborn", Single("matplotlib"))
  ]

  /** No name occurs twice. */
  predicate NoDuplicates(xs: seq<string>) {
    forall i, j :: 0 <= i < j < |xs| ==> xs[i] != xs[j]
  }

  /** Every element past position `n` is new: it does not occur earlier. */
  predicate FreshFrom(xs: seq<string>, n: nat) {
    forall i :: n <= i < |xs| ==> xs[i] !in xs[..i]
  }

  /** One step of the inner loop: append `dep` unless the list holds it. */
  function AppendIfMissing(pkgs: seq<string>, dep: string): (next: seq<string>)
    ensures pkgs <= next
    ensures dep in next
    ensures forall x :: x in next ==> x in pkgs || x == dep
    ensures FreshFrom(next, |pkgs|)
  {
    if dep in pkgs then pkgs
    else
      var next := pkgs + [dep];
      assert next[..|pkgs|] == pkgs;
      next
  }

  /** The inner loop: append each of `deps`, in order, unless the list (as it
      stands at that moment) already holds it. */
  function AppendMissing(pkgs: seq<string>, deps: seq<string>): (out: seq<string>)
    ensures pkgs <= out
    ensures forall x :: x in deps ==> x in out
    ensures forall x :: x in out ==> x in pkgs || x in deps
    ensures FreshFrom(out, |pkgs|)
    decreases |deps|
  {
    if deps == [] then pkgs
    else
      var next := AppendIfMissing(pkgs, deps[0]);
      var out := AppendMissing(next, deps[1..]);
      AppendMissingStep(pkgs, deps, next, out);
      out
  }

  /** The facts about one step and the rest of the loop combine into the
      facts about the whole loop. */
  lemma AppendMissingStep(pkgs: seq<string>, deps: seq<string>, next: seq<string>, out: seq<string>)
    requires |deps| > 0
    requires pkgs <= next && deps[0] in next && FreshFrom(next, |pkgs|)
    requires forall x :: x in next ==> x in pkgs || x == deps[0]
    requires next <= out && FreshFrom(out, |next|)
    requires forall x :: x in deps[1..] ==> x in out
    requires forall x :: x in out ==> x in next || x in deps[1..]
    ensures pkgs <= out
    ensures forall x :: x in deps ==> x in out
    ensures forall x :: x in out ==> x in pkgs || x in deps
    ensures FreshFrom(out, |pkgs|)
  {
    assert deps == [deps[0]] + deps[1..];
    FreshPrefix(pkgs, next, out);
  }

  /** Freshness composes along prefixes. */
  lemma FreshPrefix(a: seq<string>, b: seq<string>, c: seq<string>)
    requires a <= b <= c
    requires FreshFrom(b, |a|) && FreshFrom(c, |b|)
    ensures FreshFrom(c, |a|)
  {
    forall i | |a| <= i < |b|
      ensures c[i] !in c[..i]
    {
      assert c[..i] == b[..i];
    }
  }

  /** `x` is a dependency listed for some key of `table` that occurs in `pkgs`. */
  ghost predicate ImpliedBy(table: seq<Rule>, pkgs: seq<string>, x: string) {
    exists k :: 0 <= k < |table| && table[k].key in pkgs && x in AsTuple(table[k].deps)
  }

  /** The outer loop over the table. */
  function Expand(pkgs: seq<string>, table: seq<Rule>): (out: seq<string>)
    ensures pkgs <= out
    ensures FreshFrom(out, |pkgs|)
    ensures NoDuplicates(pkgs) ==> NoDuplicates(out)
    ensures forall x :: x in out ==> x in pkgs || ImpliedBy(table, out, x)
    ensures forall k, x :: 0 <= k < |table| && table[k].key in pkgs && x in AsTuple(table[k].deps) ==> x in out
    decreases |table|
  {
    if table == [] then pkgs
    else
      var rule := table[0];
      var next := if rule.key in pkgs then AppendMissing(pkgs, AsTuple(rule.deps)) else pkgs;
      var out := Expand(next, table[1..]);
      FreshPrefix(pkgs, next, out);
      FreshNoDuplicates(pkgs, out);
      ExpandStep(pkgs, table, next, out);
      out
  }

  /** The soundness and completeness of one iteration of the outer loop,
      combined with those of the rest of the loop. */
  lemma ExpandStep(pkgs: seq<string>, table: seq<Rule>, next: seq<string>, out: seq<string>)
    requires table != []
    requires pkgs <= next <= out
    requires table[0].key in pkgs ==> forall x :: x in AsTuple(table[0].deps) ==> x in next
    requires forall x :: x in next ==> x in pkgs || (table[0].key in pkgs && x in AsTuple(table[0].deps))
    requires forall x :: x in out ==> x in next || ImpliedBy(table[1..], out, x)
    requires forall k, x :: 0 <= k < |table[1..]| && table[1..][k].key in next && x in AsTuple(table[1..][k].deps) ==> x in out
    ensures forall x :: x in out ==> x in pkgs || ImpliedBy(table, out, x)
    ensures forall k, x :: 0 <= k < |table| && table[k].key in pkgs && x in AsTuple(table[k].deps) ==> x in out
  {
    forall x | x in out && x !in pkgs
      ensures ImpliedBy(table, out, x)
    {
      if x in next {
        assert table[0].key in out && x in AsTuple(table[0].deps);
      } else {
        var k :| 0 <= k < |table[1..]| && table[1..][k].key in out && x in AsTuple(table[1..][k].deps);
        assert table[k + 1] == table[1..][k];
      }
    }
    forall k, x | 0 <= k < |table| && table[k].key in pkgs && x in AsTuple(table[k].deps)
      ensures x in out
    {
      if k > 0 {
        assert table[1..][k - 1] == table[k];
      }
    }
  }

  /** A duplicate-free list stays duplicate-free when only fresh names are
      appended. */
  lemma FreshNoDuplicates(pkgs: seq<string>, out: seq<string>)
    requires pkgs <= out && FreshFrom(out, |pkgs|)
    ensures NoDuplicates(pkgs) ==> NoDuplicates(out)
  {
    if NoDuplicates(pkgs) {
      forall i, j | 0 <= i < j < |out|
        ensures out[i] != out[j]
      {
        if j >= |pkgs| {
          assert out[i] in out[..j];
        } else {
          assert out[i] == pkgs[i] && out[j] == pkgs[j];
        }
      }
    }
  }

  /** No key of `table` is listed as a dependency in `table`. */
  ghost predicate KeysNotDeps(table: seq<Rule>) {
    forall k, j :: 0 <= k < |table| && 0 <= j < |table| ==> table[k].key !in AsTuple(table[j].deps)
  }

  /** When no key is itself a dependency, a name enters the list only through
      a key that was there from the start. */
  lemma ImpliedByInput(table: seq<Rule>, pkgs: seq<string>, x: string)
    requires KeysNotDeps(table)
    requires x in Expand(pkgs, table)
    ensures x in pkgs || ImpliedBy(table, pkgs, x)
  {
    var out := Expand(pkgs, table);
    if x !in pkgs {
      var k :| 0 <= k < |table| && table[k].key in out && x in AsTuple(table[k].deps);
      var key := table[k].key;
      if key !in pkgs {
        assert false;
      }
    }
  }

  lemma DependencyExceptionsKeysNotDeps()
    ensures KeysNotDeps(DependencyExceptions)
  {
    assert AsTuple(DependencyExceptions[0].deps) == ["numpy"];
    assert AsTuple(DependencyExceptions[1].deps) == ["numpy", "scipy"];
    assert AsTuple(DependencyExceptions[2].deps) == ["matplotlib"];
  }

  /** The expansion `import_condalibs` applies to the extracted names,
      described name by name: `numpy` is present exactly when it, `pandas`
      or `scikit-learn` was; `scipy` when it or `scikit-learn` was;
      `matplotlib` when it or `seaborn` was; every other name exactly when it
      was. Each added name is added once, after the input and in the order
      the loop appends them: `numpy`, then `scipy`, then `matplotlib`. */
  function AddImplicitDependencies(pkgs: seq<string>): (out: seq<string>)
    ensures pkgs <= out
    ensures NoDuplicates(pkgs) ==> NoDuplicates(out)
    ensures FreshFrom(out, |pkgs|)
    ensures "numpy" in out <==> "numpy" in pkgs || "pandas" in pkgs || "scikit-learn" in pkgs
    ensures "scipy" in out <==> "scipy" in pkgs || "scikit-learn" in pkgs
    ensures "matplotlib" in out <==> "matplotlib" in pkgs || "seaborn" in pkgs
    ensures forall x :: x != "numpy" && x != "scipy" && x != "matplotlib" ==> (x in out <==> x in pkgs)
    ensures out ==
              pkgs
              + (if "numpy" !in pkgs && ("pandas" in pkgs || "scikit-learn" in pkgs) then ["numpy"] else [])
              + (if "scipy" !in pkgs && "scikit-learn" in pkgs then ["scipy"] else [])
              + (if "matplotlib" !in pkgs && "seaborn" in pkgs then ["matplotlib"] else [])
  {
    var out := Expand(pkgs, DependencyExceptions);
    ExpandFixedTableInOrder(pkgs);
    DependencyExceptionsKeysNotDeps();
    ExpandMembership(DependencyExceptions, pkgs);
    ExpandedNames(pkgs, out);
    out
  }

  /** Which keys of the fixed table imply a given name. */
  lemma ImpliedByFixedTable(pkgs: seq<string>, x: string)
    ensures ImpliedBy(DependencyExceptions, pkgs, x) <==>
      || (x == "numpy" && ("pandas" in pkgs || "scikit-learn" in pkgs))
      || (x == "scipy" && "scikit-learn" in pkgs)
      || (x == "matplotlib" && "seaborn" in pkgs)
  {
    var t := DependencyExceptions;
    assert t[0] == Rule("pandas", Single("numpy"));
    assert t[1] == Rule("scikit-learn", Several(["numpy", "scipy"]));
    assert t[2] == Rule("seaborn", Single("matplotlib"));
    assert AsTuple(t[0].deps) == ["numpy"];
    assert AsTuple(t[1].deps) == ["numpy", "scipy"];
    assert AsTuple(t[2].deps) == ["matplotlib"];
  }

  /** When no key is itself a dependency, the expanded list holds exactly the
      input names and the dependencies of keys present in the input. */
  lemma ExpandMembership(table: seq<Rule>, pkgs: seq<string>)
    requires KeysNotDeps(table)
    ensures forall x :: x in Expand(pkgs, table) <==> x in pkgs || ImpliedBy(table, pkgs, x)
  {
    var out := Expand(pkgs, table);
    forall x
      ensures x in out <==> x in pkgs || ImpliedBy(table, pkgs, x)
    {
      if x in out {
        ImpliedByInput(table, pkgs, x);
      }
      if ImpliedBy(table, pkgs, x) {
        var k :| 0 <= k < |table| && table[k].key in pkgs && x in AsTuple(table[k].deps);
      }
    }
  }

  lemma ExpandedNames(pkgs: seq<string>, out: seq<string>)
    requires forall x :: x in out <==> x in pkgs || ImpliedBy(DependencyExceptions, pkgs, x)
    ensures "numpy" in out <==> "numpy" in pkgs || "pandas" in pkgs || "scikit-learn" in pkgs
    ensures "scipy" in out <==> "scipy" in pkgs || "scikit-learn" in pkgs
    ensures "matplotlib" in out <==> "matplotlib" in pkgs || "seaborn" in pkgs
    ensures forall x :: x != "numpy" && x != "scipy" && x != "matplotlib" ==> (x in out <==> x in pkgs)
  {
    forall x
      ensures ImpliedBy(DependencyExceptions, pkgs, x) <==>
        || (x == "numpy" && ("pandas" in pkgs || "scikit-learn" in pkgs))
        || (x == "scipy" && "scikit-learn" in pkgs)
        || (x == "matplotlib" && "seaborn" in pkgs)
    {
      ImpliedByFixedTable(pkgs, x);
    }
  }

  /** The expansion by the fixed table in closed form. */
  lemma ExpandFixedTableInOrder(pkgs: seq<string>)
    ensures Expand(pkgs, DependencyExceptions) ==
              pkgs
              + (if "numpy" !in pkgs && ("pandas" in pkgs || "scikit-learn" in pkgs) then ["numpy"] else [])
              + (if "scipy" !in pkgs && "scikit-learn" in pkgs then ["scipy"] else [])
              + (if "matplotlib" !in pkgs && "seaborn" in pkgs then ["matplotlib"] else [])
  {
    var t := DependencyExceptions;
    var p1 := if "pandas" in pkgs then AppendIfMissing(pkgs, "numpy") else pkgs;
    var p2 := if "scikit-learn" in p1 then AppendIfMissing(AppendIfMissing(p1, "numpy"), "scipy") else p1;
    var p3 := if "seaborn" in p2 then AppendIfMissing(p2, "matplotlib") else p2;
    ExpandFixedTable(pkgs, p1, p2, p3);
    FixedTableAppends(pkgs, p1, p2, p3);
  }

  /** The three iterations of the outer loop over the fixed table. */
  lemma ExpandFixedTable(pkgs: seq<string>, p1: seq<string>, p2: seq<string>, p3: seq<string>)
    requires p1 == if "pandas" in pkgs then AppendIfMissing(pkgs, "numpy") else pkgs
    requires p2 == if "scikit-learn" in p1 then AppendIfMissing(AppendIfMissing(p1, "numpy"), "scipy") else p1
    requires p3 == if "seaborn" in p2 then AppendIfMissing(p2, "matplotlib") else p2
    ensures Expand(pkgs, DependencyExceptions) == p3
  {
    var t := DependencyExceptions;
    assert t[0] == Rule("pandas", Single("numpy"));
    assert t[1..][0] == Rule("scikit-learn", Several(["numpy", "scipy"]));
    assert t[1..][1..][0] == Rule("seaborn", Single("matplotlib"));
    assert t[1..][1..][1..] == [];
    AppendMissingOne(pkgs, "numpy");
    ExpandCons(pkgs, t);
    AppendMissingTwo(p1, "numpy", "scipy");
    ExpandCons(p1, t[1..]);
    AppendMissingOne(p2, "matplotlib");
    ExpandCons(p2, t[1..][1..]);
  }

  /** The appends of the three iterations, written as one extension of the
      input. No key is a dependency, so each key test sees the input. */
  lemma FixedTableAppends(pkgs: seq<string>, p1: seq<string>, p2: seq<string>, p3: seq<string>)
    requires p1 == if "pandas" in pkgs then AppendIfMissing(pkgs, "numpy") else pkgs
    requires p2 == if "scikit-learn" in p1 then AppendIfMissing(AppendIfMissing(p1, "numpy"), "scipy") else p1
    requires p3 == if "seaborn" in p2 then AppendIfMissing(p2, "matplotlib") else p2
    ensures p3 ==
              pkgs
              + (if "numpy" !in pkgs && ("pandas" in pkgs || "scikit-learn" in pkgs) then ["numpy"] else [])
              + (if "scipy" !in pkgs && "scikit-learn" in pkgs then ["scipy"] else [])
              + (if "matplotlib" !in pkgs && "seaborn" in pkgs then ["matplotlib"] else [])
  {
    var n := if "numpy" !in pkgs && ("pandas" in pkgs || "scikit-learn" in pkgs) then ["numpy"] else [];
    var sp := if "scipy" !in pkgs && "scikit-learn" in pkgs then ["scipy"] else [];
    var m := if "matplotlib" !in pkgs && "seaborn" in pkgs then ["matplotlib"] else [];
    PandasStage(pkgs, p1);
    var q := if "scikit-learn" in pkgs then AppendIfMissing(p1, "numpy") else p1;
    NumpyStage(pkgs, p1, q);
    assert p2 == if "scikit-learn" in pkgs then AppendIfMissing(q, "scipy") else q;
    ScipyStage(pkgs, n, q, p2);
    MatplotlibStage(pkgs, n, sp, p2, p3);
  }

  /** The first iteration appends at most `numpy`. */
  lemma PandasStage(pkgs: seq<string>, p1: seq<string>)
    requires p1 == if "pandas" in pkgs then AppendIfMissing(pkgs, "numpy") else pkgs
    ensures forall x :: x != "numpy" ==> (x in p1 <==> x in pkgs)
  {
  }

  /** The `scipy` append of the second iteration. */
  lemma ScipyStage(pkgs: seq<string>, n: seq<string>, q: seq<string>, p2: seq<string>)
    requires q == pkgs + n
    requires forall x :: x in n ==> x == "numpy"
    requires p2 == if "scikit-learn" in pkgs then AppendIfMissing(q, "scipy") else q
    ensures p2 == q + if "scipy" !in pkgs && "scikit-learn" in pkgs then ["scipy"] else []
  {
    AppendIfMissingSpelled(q, "scipy");
    assert "scipy" in q <==> "scipy" in pkgs;
  }

  /** The third iteration: its key and dependency are untouched by the
      earlier appends. */
  lemma MatplotlibStage(pkgs: seq<string>, n: seq<string>, sp: seq<string>, p2: seq<string>, p3: seq<string>)
    requires p2 == pkgs + n + sp
    requires forall x :: x in n ==> x == "numpy"
    requires forall x :: x in sp ==> x == "scipy"
    requires p3 == if "seaborn" in p2 then AppendIfMissing(p2, "matplotlib") else p2
    ensures p3 == p2 + if "matplotlib" !in pkgs && "seaborn" in pkgs then ["matplotlib"] else []
  {
    AppendIfMissingSpelled(p2, "matplotlib");
    assert "seaborn" in p2 <==> "seaborn" in pkgs;
    assert "matplotlib" in p2 <==> "matplotlib" in pkgs;
  }

  /** The `numpy` appends of the first two iterations together. */
  lemma NumpyStage(pkgs: seq<string>, p1: seq<string>, q: seq<string>)
    requires p1 == if "pandas" in pkgs then AppendIfMissing(pkgs, "numpy") else pkgs
    requires q == if "scikit-learn" in pkgs then AppendIfMissing(p1, "numpy") else p1
    ensures q == pkgs + if "numpy" !in pkgs && ("pandas" in pkgs || "scikit-learn" in pkgs) then ["numpy"] else []
  {
    AppendIfMissingSpelled(pkgs, "numpy");
    AppendIfMissingSpelled(p1, "numpy");
  }

  /** `AppendIfMissing` as an extension by zero or one names. */
  lemma AppendIfMissingSpelled(pkgs: seq<string>, dep: string)
    ensures AppendIfMissing(pkgs, dep) == pkgs + if dep in pkgs then [] else [dep]
  {
  }

  /** One iteration of the outer loop. */
  lemma ExpandCons(pkgs: seq<string>, table: seq<Rule>)
    requires table != []
    ensures Expand(pkgs, table) ==
              Expand(if table[0].key in pkgs then AppendMissing(pkgs, AsTuple(table[0].deps)) else pkgs, table[1..])
  {
  }

  /** The inner loop over a single dependency. */
  lemma AppendMissingOne(pkgs: seq<string>, d: string)
    ensures AppendMissing(pkgs, [d]) == AppendIfMissing(pkgs, d)
  {
    assert [d][1..] == [];
  }

  /** The inner loop over two dependencies. */
  lemma AppendMissingTwo(pkgs: seq<string>, d: string, e: string)
    ensures AppendMissing(pkgs, [d, e]) == AppendIfMissing(AppendIfMissing(pkgs, d), e)
  {
    assert [d, e][1..] == [e];
    AppendMissingOne(AppendIfMissing(pkgs, d), e);
  }
}

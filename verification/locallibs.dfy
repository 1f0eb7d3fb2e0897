/** `import_locallibs`: every directory entry of the project root, of
    `root/src` and of `root/source` that is itself a directory and whose name
    does not start with `.` is imported as a module; each top-level directory
    that exists is first appended to the module search path. The directory
    test and the listing are parameters. */
module LocalLibs {
  import opened Wrappers
  import Paths
  import EnvRoot

  /** One effect of the procedure, in the order it happens. */
  datatype Action = AddPath(dir: string) | Import(name: string)

  /** The message of the `IndexError` that `mod[0]` raises on an empty name. */
  const IndexErrorMessage := "string index out of range"

  /** The top-level directories, in scan order. */
  function TopLevels(root: string): (tops: seq<string>)
    ensures |tops| == 3 && tops[0] == root
    ensures root != "" && root[|root| - 1] != '/' ==> tops[1] == root + "/src" && tops[2] == root + "/source"
    ensures root == "" || root[|root| - 1] == '/' ==> tops[1] == root + "src" && tops[2] == root + "source"
  {
    [root, Paths.Join(root, "src"), Paths.Join(root, "source")]
  }

  /** The entry `name` of directory `top` is imported: it is not hidden and
      is itself a directory. */
  predicate Wanted(top: string, name: string, isDir: string -> bool) {
    |name| > 0 && name[0] != '.' && isDir(Paths.Join(top, name))
  }

  /** The names picked from the listing `entries` of `top`, in listing order;
      an empty name fails as indexing its first character does. */
  function Select(top: string, entries: seq<string>, isDir: string -> bool): (r: Result<seq<string>, string>)
    ensures r.Success? <==> "" !in entries
    ensures r.Failure? ==> r.error == IndexErrorMessage
    ensures r.Success? ==> |r.value| <= |entries|
    ensures r.Success? ==> forall m :: m in r.value <==> m in entries && Wanted(top, m, isDir)
    decreases |entries|
  {
    if entries == [] then Success([])
    else
      var init := entries[..|entries| - 1];
      var last := entries[|entries| - 1];
      assert entries == init + [last];
      match Select(top, init, isDir)
      case Failure(e) => Failure(e)
      case Success(mods) =>
        if last == "" then Failure(IndexErrorMessage)
        else if last[0] != '.' && isDir(Paths.Join(top, last)) then Success(mods + [last])
        else Success(mods)
  }

  /** The import actions for the selected names, in order. */
  function Imports(mods: seq<string>): (acts: seq<Action>)
    ensures |acts| == |mods|
    ensures forall k :: 0 <= k < |mods| ==> acts[k] == Import(mods[k])
    ensures forall a :: a in acts <==> a.Import? && a.name in mods
  {
    var acts := seq(|mods|, k requires 0 <= k < |mods| => Import(mods[k]));
    assert forall a :: a in acts <==> a.Import? && a.name in mods by {
      forall a
        ensures a in acts <==> a.Import? && a.name in mods
      {
        if a.Import? && a.name in mods {
          var k :| 0 <= k < |mods| && mods[k] == a.name;
          assert acts[k] == a;
        }
      }
    }
    acts
  }

  /** The actions for one top-level directory: nothing when it is not a
      directory, otherwise the path addition followed by the imports. */
  function Visit(top: string, isDir: string -> bool, listDir: string -> seq<string>): (r: Result<seq<Action>, string>)
    ensures r.Success? <==> !isDir(top) || "" !in listDir(top)
    ensures r.Failure? ==> r.error == IndexErrorMessage
    ensures r.Success? && !isDir(top) ==> r.value == []
    ensures r.Success? && isDir(top) ==> |r.value| > 0 && r.value[0] == AddPath(top)
    ensures r.Success? && isDir(top) ==>
              var mods := Select(top, listDir(top), isDir).value;
              && |r.value| == 1 + |mods|
              && forall k :: 0 <= k < |mods| ==> r.value[k + 1] == Import(mods[k])
    ensures r.Success? ==> forall a :: a in r.value ==>
              isDir(top) && (a.AddPath? ==> a.dir == top)
              && (a.Import? ==> a.name in listDir(top) && Wanted(top, a.name, isDir))
    ensures r.Success? && isDir(top) ==> forall m :: m in listDir(top) && Wanted(top, m, isDir) ==> Import(m) in r.value
  {
    if !isDir(top) then Success([])
    else
      match Select(top, listDir(top), isDir)
      case Failure(e) => Failure(e)
      case Success(mods) => Success([AddPath(top)] + Imports(mods))
  }

  /** A module `name` taken from the listing of one of `tops` that is a directory. */
  ghost predicate FoundIn(tops: seq<string>, name: string, isDir: string -> bool, listDir: string -> seq<string>) {
    exists t :: t in tops && isDir(t) && name in listDir(t) && Wanted(t, name, isDir)
  }

  /** The whole procedure over `tops`, as the concatenation of the visits.
      It fails exactly when some listed directory holds an empty name; on
      success, paths are added exactly for the directories among `tops`,
      and exactly the wanted entries of their listings are imported. */
  function Plan(tops: seq<string>, isDir: string -> bool, listDir: string -> seq<string>): (r: Result<seq<Action>, string>)
    ensures r.Success? <==> forall t :: t in tops && isDir(t) ==> "" !in listDir(t)
    ensures r.Failure? ==> r.error == IndexErrorMessage
    ensures r.Success? ==> forall t :: AddPath(t) in r.value <==> t in tops && isDir(t)
    ensures r.Success? ==> forall m :: Import(m) in r.value <==> FoundIn(tops, m, isDir, listDir)
    decreases |tops|
  {
    if tops == [] then Success([])
    else
      var init := tops[..|tops| - 1];
      var last := tops[|tops| - 1];
      assert tops == init + [last];
      match Plan(init, isDir, listDir)
      case Failure(e) => Failure(e)
      case Success(acts) =>
        match Visit(last, isDir, listDir)
        case Failure(e) => Failure(e)
        case Success(more) =>
          var r := acts + more;
          assert forall m :: Import(m) in r <==> FoundIn(tops, m, isDir, listDir) by {
            forall m
              ensures Import(m) in r <==> FoundIn(tops, m, isDir, listDir)
            {
              if FoundIn(tops, m, isDir, listDir) {
                var t :| t in tops && isDir(t) && m in listDir(t) && Wanted(t, m, isDir);
                if t != last {
                  assert t in init;
                }
              }
              if Import(m) in more {
                assert FoundIn(tops, m, isDir, listDir) by {
                  assert last in tops && isDir(last);
                }
              }
            }
          }
          Success(r)
  }

  /** The inner loop over the listing of one directory, returning the
      `IndexError` as soon as an empty name is met. */
  method SelectEntries(top: string, entries: seq<string>, isDir: string -> bool)
    returns (r: Result<seq<string>, string>)
    ensures r == Select(top, entries, isDir)
  {
    var mods: seq<string> := [];
    var j := 0;
    while j < |entries|
      invariant j <= |entries|
      invariant Select(top, entries[..j], isDir) == Success(mods)
    {
      var name := entries[j];
      assert entries[..j + 1][..j] == entries[..j];
      if name == "" {
        SelectFailurePersists(top, entries, j + 1, isDir);
        return Failure(IndexErrorMessage);
      }
      if name[0] != '.' && isDir(Paths.Join(top, name)) {
        mods := mods + [name];
      }
      j := j + 1;
    }
    assert entries[..j] == entries;
    r := Success(mods);
  }

  /** The procedure: find the environment root, failing with the `IOError`
      of `find_env_root` when no candidate holds the manifest, then scan the
      three top-level directories of the root found. */
  method ImportLocalLibs(hasManifest: string -> bool, isDir: string -> bool, listDir: string -> seq<string>)
    returns (r: Result<seq<Action>, string>)
    ensures (forall k :: 0 <= k < EnvRoot.MaxDepth ==> !hasManifest(EnvRoot.Candidate(k))) ==>
              r == Failure(EnvRoot.NotFoundMessage)
    ensures forall k :: 0 <= k < EnvRoot.MaxDepth && hasManifest(EnvRoot.Candidate(k))
                        && (forall j :: 0 <= j < k ==> !hasManifest(EnvRoot.Candidate(j))) ==>
              r == Plan(TopLevels(EnvRoot.Candidate(k)), isDir, listDir)
  {
    var found, probed := EnvRoot.FindEnvRoot(hasManifest);
    if found.Failure? {
      return Failure(found.error);
    }
    r := ImportLocalLibsAt(found.value, isDir, listDir);
    EnvRoot.FirstHitUnique(hasManifest, |probed| - 1);
  }

  /** The procedure once the root is known: the three top-level directories
      of `root`, scanned by `ScanTopLevels`. */
  method ImportLocalLibsAt(root: string, isDir: string -> bool, listDir: string -> seq<string>)
    returns (r: Result<seq<Action>, string>)
    ensures r == Plan(TopLevels(root), isDir, listDir)
  {
    r := ScanTopLevels(TopLevels(root), isDir, listDir);
  }

  /** The outer loop as the source writes it: over the top-level
      directories, around the loop over each listing, stopping at the first
      error. It produces exactly `Plan(tops, ...)`. */
  method ScanTopLevels(tops: seq<string>, isDir: string -> bool, listDir: string -> seq<string>)
    returns (r: Result<seq<Action>, string>)
    ensures r == Plan(tops, isDir, listDir)
  {
    var acts: seq<Action> := [];
    var i := 0;
    while i < |tops|
      invariant i <= |tops|
      invariant Plan(tops[..i], isDir, listDir) == Success(acts)
    {
      var top := tops[i];
      var more: seq<Action> := [];
      if isDir(top) {
        var selected := SelectEntries(top, listDir(top), isDir);
        if selected.Failure? {
          PlanStep(tops, i, isDir, listDir);
          PlanFailurePersists(tops, i + 1, isDir, listDir);
          return Failure(selected.error);
        }
        more := [AddPath(top)] + Imports(selected.value);
      }
      assert Visit(top, isDir, listDir) == Success(more);
      PlanStep(tops, i, isDir, listDir);
      acts := acts + more;
      i := i + 1;
    }
    assert tops[..i] == tops;
    r := Success(acts);
  }

  /** `Plan` of one more top-level directory: the visit's actions are
      appended, or its failure becomes the plan's. */
  lemma PlanStep(tops: seq<string>, i: nat, isDir: string -> bool, listDir: string -> seq<string>)
    requires i < |tops|
    requires Plan(tops[..i], isDir, listDir).Success?
    ensures var v := Visit(tops[i], isDir, listDir);
      Plan(tops[..i + 1], isDir, listDir)
        == if v.Failure? then Failure(v.error)
           else Success(Plan(tops[..i], isDir, listDir).value + v.value)
  {
    assert tops[..i + 1][..i] == tops[..i];
  }

  /** Once a prefix of a listing fails, every longer prefix fails too. */
  lemma {:induction false} SelectFailurePersists(top: string, entries: seq<string>, j: nat, isDir: string -> bool)
    requires j <= |entries|
    requires Select(top, entries[..j], isDir).Failure?
    ensures Select(top, entries, isDir).Failure?
    decreases |entries| - j
  {
    if j < |entries| {
      assert entries[..j + 1][..j] == entries[..j];
      SelectFailurePersists(top, entries, j + 1, isDir);
    } else {
      assert entries[..j] == entries;
    }
  }

  /** Once a prefix of the top-level list fails, the whole list fails. */
  lemma {:induction false} PlanFailurePersists(tops: seq<string>, i: nat, isDir: string -> bool, listDir: string -> seq<string>)
    requires i <= |tops|
    requires Plan(tops[..i], isDir, listDir).Failure?
    ensures Plan(tops, isDir, listDir).Failure?
    decreases |tops| - i
  {
    if i < |tops| {
      assert tops[..i + 1][..i] == tops[..i];
      PlanFailurePersists(tops, i + 1, isDir, listDir);
    } else {
      assert tops[..i] == tops;
    }
  }

  /** Selection goes entry by entry: the selection from a listing split in
      two is the selection from the first part followed by the selection
      from the second, and it fails when either part does. */
  lemma {:induction false} SelectAppend(top: string, a: seq<string>, b: seq<string>, isDir: string -> bool)
    ensures Select(top, a + b, isDir).Success? <==>
              Select(top, a, isDir).Success? && Select(top, b, isDir).Success?
    ensures Select(top, a + b, isDir).Success? ==>
              Select(top, a + b, isDir).value == Select(top, a, isDir).value + Select(top, b, isDir).value
    decreases |b|
  {
    if b == [] {
      assert a + b == a;
    } else {
      var init := b[..|b| - 1];
      var last := b[|b| - 1];
      assert b == init + [last];
      assert a + b == (a + init) + [last];
      SelectSnoc(top, a + init, last, isDir);
      SelectSnoc(top, init, last, isDir);
      SelectAppend(top, a, init, isDir);
    }
  }

  /** One entry is selected exactly when it is wanted, and an empty name
      fails. */
  lemma SelectOne(top: string, m: string, isDir: string -> bool)
    ensures Select(top, [m], isDir) ==
              if m == "" then Failure(IndexErrorMessage)
              else if Wanted(top, m, isDir) then Success([m])
              else Success([])
  {
    SelectSnoc(top, [], m, isDir);
    assert [] + [m] == [m];
  }

  /** `Select` of a listing with one more entry at the end. */
  lemma SelectSnoc(top: string, init: seq<string>, last: string, isDir: string -> bool)
    ensures Select(top, init + [last], isDir) ==
              match Select(top, init, isDir)
              case Failure(e) => Failure(e)
              case Success(mods) =>
                if last == "" then Failure(IndexErrorMessage)
                else if Wanted(top, last, isDir) then Success(mods + [last])
                else Success(mods)
  {
    assert (init + [last])[..|init|] == init;
  }

  /** The scan goes directory by directory: the plan for a list of
      top-level paths split in two is the plan for the first part followed
      by the plan for the second, and it fails when either part does. */
  lemma {:induction false} PlanAppend(a: seq<string>, b: seq<string>, isDir: string -> bool, listDir: string -> seq<string>)
    ensures Plan(a + b, isDir, listDir).Success? <==>
              Plan(a, isDir, listDir).Success? && Plan(b, isDir, listDir).Success?
    ensures Plan(a + b, isDir, listDir).Success? ==>
              Plan(a + b, isDir, listDir).value == Plan(a, isDir, listDir).value + Plan(b, isDir, listDir).value
    decreases |b|
  {
    if b == [] {
      assert a + b == a;
    } else {
      var init := b[..|b| - 1];
      var last := b[|b| - 1];
      assert b == init + [last];
      assert a + b == (a + init) + [last];
      PlanSnoc(a + init, last, isDir, listDir);
      PlanSnoc(init, last, isDir, listDir);
      PlanAppend(a, init, isDir, listDir);
      AppendResults(Plan(a, isDir, listDir), Plan(init, isDir, listDir), Plan(a + init, isDir, listDir),
                    Visit(last, isDir, listDir), Plan(b, isDir, listDir), Plan(a + b, isDir, listDir));
    }
  }

  /** The bookkeeping step of `PlanAppend`, stated over the results alone:
      `ai` is `a` then `i`, `ib` is `i` then `v`, and `aib` is `ai` then `v`. */
  lemma AppendResults(a: Result<seq<Action>, string>, i: Result<seq<Action>, string>,
                      ai: Result<seq<Action>, string>, v: Result<seq<Action>, string>,
                      ib: Result<seq<Action>, string>, aib: Result<seq<Action>, string>)
    requires ai.Success? <==> a.Success? && i.Success?
    requires ai.Success? ==> ai.value == a.value + i.value
    requires ib == match i case Failure(e) => Failure(e)
                           case Success(x) => (match v case Failure(e) => Failure(e) case Success(y) => Success(x + y))
    requires aib == match ai case Failure(e) => Failure(e)
                             case Success(x) => (match v case Failure(e) => Failure(e) case Success(y) => Success(x + y))
    ensures aib.Success? <==> a.Success? && ib.Success?
    ensures aib.Success? ==> aib.value == a.value + ib.value
  {
    if aib.Success? {
      assert aib.value == a.value + i.value + v.value;
    }
  }

  /** The plan for one top-level path is its visit. */
  lemma PlanOne(t: string, isDir: string -> bool, listDir: string -> seq<string>)
    ensures Plan([t], isDir, listDir) == Visit(t, isDir, listDir)
  {
    PlanSnoc([], t, isDir, listDir);
    assert [] + [t] == [t];
    if Visit(t, isDir, listDir).Success? {
      assert [] + Visit(t, isDir, listDir).value == Visit(t, isDir, listDir).value;
    }
  }

  /** `Plan` of a list with one more top-level path at the end. */
  lemma PlanSnoc(init: seq<string>, last: string, isDir: string -> bool, listDir: string -> seq<string>)
    ensures Plan(init + [last], isDir, listDir) ==
              match Plan(init, isDir, listDir)
              case Failure(e) => Failure(e)
              case Success(acts) =>
                match Visit(last, isDir, listDir)
                case Failure(e) => Failure(e)
                case Success(more) => Success(acts + more)
  {
    assert (init + [last])[..|init|] == init;
  }

  /** The procedure visits the root, then `root/src`, then `root/source`:
      it succeeds exactly when all three visits do, and its effects are
      theirs in that order. */
  lemma ScanOrder(root: string, isDir: string -> bool, listDir: string -> seq<string>)
    ensures var tops := TopLevels(root);
      Plan(tops, isDir, listDir).Success? <==>
        && Visit(tops[0], isDir, listDir).Success?
        && Visit(tops[1], isDir, listDir).Success?
        && Visit(tops[2], isDir, listDir).Success?
    ensures var tops := TopLevels(root);
      Plan(tops, isDir, listDir).Success? ==>
        Plan(tops, isDir, listDir).value ==
          Visit(tops[0], isDir, listDir).value + Visit(tops[1], isDir, listDir).value + Visit(tops[2], isDir, listDir).value
  {
    var tops := TopLevels(root);
    assert tops == [tops[0], tops[1], tops[2]];
    PlanThree(tops[0], tops[1], tops[2], isDir, listDir);
  }

  /** The plan for three top-level paths is their three visits in order. */
  lemma PlanThree(x: string, y: string, z: string, isDir: string -> bool, listDir: string -> seq<string>)
    ensures Plan([x, y, z], isDir, listDir).Success? <==>
              && Visit(x, isDir, listDir).Success?
              && Visit(y, isDir, listDir).Success?
              && Visit(z, isDir, listDir).Success?
    ensures Plan([x, y, z], isDir, listDir).Success? ==>
              Plan([x, y, z], isDir, listDir).value ==
                Visit(x, isDir, listDir).value + Visit(y, isDir, listDir).value + Visit(z, isDir, listDir).value
  {
    assert [y] + [z] == [y, z];
    assert [x] + [y, z] == [x, y, z];
    PlanOne(x, isDir, listDir);
    PlanOne(y, isDir, listDir);
    PlanOne(z, isDir, listDir);
    PlanAppend([y], [z], isDir, listDir);
    PlanAppend([x], [y, z], isDir, listDir);
    ThreeResults(Plan([x], isDir, listDir), Plan([y], isDir, listDir), Plan([z], isDir, listDir),
                 Plan([y, z], isDir, listDir), Plan([x, y, z], isDir, listDir));
  }

  /** The bookkeeping step of `PlanThree`, stated over the results alone:
      `yz` is `y` then `z`, and `xyz` is `x` then `yz`. */
  lemma ThreeResults(x: Result<seq<Action>, string>, y: Result<seq<Action>, string>, z: Result<seq<Action>, string>,
                     yz: Result<seq<Action>, string>, xyz: Result<seq<Action>, string>)
    requires yz.Success? <==> y.Success? && z.Success?
    requires yz.Success? ==> yz.value == y.value + z.value
    requires xyz.Success? <==> x.Success? && yz.Success?
    requires xyz.Success? ==> xyz.value == x.value + yz.value
    ensures xyz.Success? <==> x.Success? && y.Success? && z.Success?
    ensures xyz.Success? ==> xyz.value == x.value + y.value + z.value
  {
  }
}

# jupyter-env-import, modelled in Dafny

The repository is a notebook convenience script (`imports.py`). It reads a
conda manifest (`environment.yml`), imports the packages it lists into the
notebook's global namespace, and imports the project's own packages. This
project models the deterministic part of that work as pure functions over
strings and sequences and proves what it computes. File reads, directory
listings and `importlib` calls become parameters.

| file | module | models |
|---|---|---|
| `wrappers.dfy` | `Wrappers` | `Result`, standing in for raised exceptions, and `Option`, for an absent value |
| `paths.dfy` | `Paths` | two-argument POSIX `os.path.join` |
| `scanner.dfy` | `Scanner` | `re.findall(r'\s+-\s+([0-9a-z-]+)', env)` |
| `dependencies.dfy` | `Dependencies` | `dependency_exceptions` and the implicit-dependency loop |
| `resolution.dfy` | `Resolution` | `import_exceptions`, name resolution and the import loop |
| `envroot.dfy` | `EnvRoot` | `find_env_root` |
| `locallibs.dfy` | `LocalLibs` | the directory scan of `import_locallibs` |
| `condalibs.dfy` | `CondaLibs` | `import_condalibs`: the root search followed by the pipeline from manifest text to namespace |

How the pieces are modelled:

- **Extraction.** `Scanner.PatternAt` reads the regular expression
  declaratively. A match at position `p` is one or more whitespace
  characters, a `-`, one or more whitespace characters, and then a maximal
  run of `[0-9a-z-]`. That run is the captured group. Whitespace
  (`Scanner.IsSpace`) is the set of characters `str.isspace()` accepts,
  which is what `\s` matches in a text pattern, including the ASCII
  separators U+001C to U+001F. Backtracking can only ever produce one
  outcome (`Scanner.PatternDetermined`). After a
  whitespace run the next character must be `-` or a name character, and
  neither is whitespace, so each whitespace run is maximal. The group is
  greedy and nothing follows it in the pattern. `Scanner.MatchAt` is the
  engine's attempt at one position. `Scanner.Scan` is the `findall` loop:
  after a match it resumes at the match's end, otherwise one position
  further on.
- **Expansion.** A Python dict iterates in insertion order, so the table
  is a sequence of rules. A string value is read as a one-element tuple,
  as the source does. `key in pkgs` and `dep not in pkgs` test the list as
  it grows, and the model does the same.
- **Resolution and binding.** The namespace is a map from global names to
  module names. `importable(m)` says whether `importlib.import_module(m)`
  succeeds. A failed import leaves the namespace unchanged.
- **Environment root.** `hasManifest(dir)` stands for
  `os.path.isfile(os.path.join(dir, 'environment.yml'))`. Both procedures
  start with the root search and fail with its `IOError` when it fails.
- **Local packages.** `isDir` and `listDir` stand for `os.path.isdir` and
  `os.listdir`. The result is the sequence of effects in order: search-path
  additions and imports. `mod[0]` on an empty entry name raises
  `IndexError`, and the model returns that as a `Failure`.

## Model

| member | source | states |
|---|---|---|
| `Scanner.RunEnd` | imports.py:65 | the end of the longest run of class characters from a position: every character before it is in the class, and the one at it is not (or the text ends there) |
| `Scanner.PatternDetermined` | imports.py:65 | a match at a position leaves no choice: the dash sits where the first whitespace run ends, the group starts where the second one ends, and the group ends where the name run ends |
| `Scanner.MatchAt` | imports.py:65 | the engine's attempt at one position succeeds only on a genuine match of the pattern, and whenever the pattern matches there it returns exactly that match |
| `Scanner.Scan` | imports.py:65 | every reported hit is a match of the pattern at or after the start position, and hits come in text order without overlapping |
| `Scanner.ScanComplete` | imports.py:65 | no match is skipped: every position at which the pattern matches lies inside a reported hit, so each hit is the leftmost match after its predecessor |
| `Scanner.FindAll` | imports.py:65 | the extracted names, one per hit and in order: each is non-empty, uses only digits, lower-case ASCII letters and `-`, and is followed by the end of the text or a character outside that class |
| `Dependencies.AppendMissing` | imports.py:73-75 | appending dependencies only extends the list; every dependency ends up in it; nothing else is added; each appended name was absent before it was appended |
| `Dependencies.Expand` | imports.py:68-75 | the input list is a prefix of the output; appended names are fresh, so a duplicate-free input stays duplicate-free; every output name is an input name or a dependency of a key in the list; every dependency of a key present in the input is in the output |
| `Dependencies.ImpliedByInput` | imports.py:68-75 | when no key is itself a dependency, every added name is a dependency of a key present in the original input |
| `Dependencies.ExpandMembership` | imports.py:68-75 | when no key is itself a dependency, the output holds exactly the input names and the dependencies of keys present in the input |
| `Dependencies.DependencyExceptionsKeysNotDeps` | imports.py:46-50 | in the fixed table no key (`pandas`, `scikit-learn`, `seaborn`) is listed as a dependency |
| `Dependencies.ImpliedByFixedTable` | imports.py:46-50 | under the fixed table `numpy` is implied exactly by `pandas` or `scikit-learn`, `scipy` exactly by `scikit-learn`, `matplotlib` exactly by `seaborn`, and nothing else is implied |
| `Dependencies.AddImplicitDependencies` | imports.py:46-75 | the expansion as the notebook runs it: a prefix-preserving, duplicate-free extension that holds `numpy` exactly when the input holds `numpy`, `pandas` or `scikit-learn`, `scipy` exactly when it holds `scipy` or `scikit-learn`, `matplotlib` exactly when it holds `matplotlib` or `seaborn`, and every other name exactly when the input does; the appended names follow the input in the order the loop appends them: `numpy`, then `scipy`, then `matplotlib` |
| `Resolution.Resolve` | imports.py:79-85 | a package outside the table is bound under its own name to its own module; a string entry gives the alias with the package's own module; a pair entry gives its alias and module |
| `Resolution.ResolveFixedTable` | imports.py:51-85 | under the fixed table a package keeps its own name exactly when it is not listed, and keeps its own module unless it is `beautifulsoup4`, `py-xgboost` or `scikit-learn`; for example `numpy` resolves to `np`/`numpy` and `py-xgboost` to `xgb`/`xgboost` |
| `Resolution.BindOne` | imports.py:87-90 | a successful import binds the resolved name to the module; a failed import changes nothing, and no other name changes in either case |
| `Resolution.BindAll` | imports.py:77-90 | after the loop, a name that no package binds keeps its old binding or stays absent; a name some package binds is present, bound to the module of one of the packages that bind it |
| `Resolution.LastBindingWins` | imports.py:77-90 | if a package imports successfully and no later package binds the same name, that name ends up bound to its module |
| `EnvRoot.Candidate` | imports.py:4-8 | the directory examined on each iteration starts and ends with `.` and grows by three characters (`/..`) per iteration, so the candidates are distinct |
| `EnvRoot.CandidatesSpelledOut` | imports.py:4-8 | the four candidates are `.`, `./..`, `./../..` and `./../../..` |
| `EnvRoot.FindEnvRoot` | imports.py:1-9 | at most four directories are examined, in candidate order; the first one that holds the manifest is returned and the earlier ones do not hold it; the search fails with the `IOError` message exactly when none of the four holds it |
| `LocalLibs.TopLevels` | imports.py:137-141 | three top-level directories in scan order: the root itself, then `root/src`, then `root/source`, joined with a `/` unless the root is empty or already ends in one |
| `LocalLibs.Select` | imports.py:145-146 | the listing fails exactly when it holds an empty name; otherwise the selected names are exactly the listed entries that do not start with `.` and are directories, and there are no more of them than entries |
| `LocalLibs.Visit` | imports.py:142-147 | a top-level path that is not a directory contributes nothing; a directory contributes its search-path addition first, then one import per selected entry in selection order, and nothing else |
| `LocalLibs.SelectAppend` | imports.py:145-147 | selection goes entry by entry in listing order: the selection from a split listing is the selection from its first part followed by that from its second, and fails when either part does |
| `LocalLibs.PlanAppend` | imports.py:142-147 | the scan goes directory by directory in list order: the effects of a split list of top-level paths are those of its first part followed by those of its second, and the scan fails when either part does |
| `LocalLibs.ScanOrder` | imports.py:137-147 | the procedure visits the root, then `root/src`, then `root/source`: it succeeds exactly when all three visits do, and its effects are theirs in that order |
| `LocalLibs.Plan` | imports.py:137-147 | the scan fails exactly when some listed directory holds an empty name; on success, search paths are added exactly for the top-level paths that are directories, and exactly the wanted entries of their listings are imported |
| `LocalLibs.SelectEntries` | imports.py:145-147 | the loop over one listing computes exactly `Select`, stopping at the first empty name |
| `LocalLibs.ScanTopLevels` | imports.py:142-147 | the nested loops compute exactly `Plan` of the given top-level paths |
| `LocalLibs.ImportLocalLibsAt` | imports.py:137-147 | once the root is known, the procedure computes exactly `Plan` of the root, `root/src` and `root/source` |
| `LocalLibs.ImportLocalLibs` | imports.py:131-147 | the procedure fails with the `IOError` message of `find_env_root` when none of the four candidates holds the manifest; otherwise it computes exactly `Plan` of the top-level directories of the first candidate that does |
| `CondaLibs.ExpansionKeepsNames` | imports.py:46-65 | adding `numpy`, `scipy` or `matplotlib` to well-formed names keeps every name well formed |
| `CondaLibs.Packages` | imports.py:65-75 | the package list starts with the extracted names, contains only well-formed names, and holds exactly the extracted names plus the implied dependencies of the fixed table |
| `CondaLibs.ImportCondaLibs` | imports.py:77-90 | every package whose module imports is bound under its resolved name, each such name holds the module of some package that imports successfully under it, and a name no such package resolves to keeps its old binding |
| `CondaLibs.RunImportCondaLibs` | imports.py:41-90 | the procedure fails with the `IOError` message of `find_env_root` when none of the four candidates holds the manifest; otherwise its namespace is exactly the pipeline's result on the manifest text of the first candidate that does |

## Left out

- Reading `environment.yml` and joining its lines (imports.py:62-63): `CondaLibs.RunImportCondaLibs` takes the manifest text of a directory as the `readManifest` parameter.
- `importlib.import_module` and writes to `globals()` (imports.py:38, 88, 104, 124-126, 147) are foreign dynamic loading. The conda loop's import appears only as the `importable` predicate and the namespace map.
- The extras after each import (imports.py:92-128): IPython magics, pandas display options, matplotlib and plotly set-up. These are runtime side effects, and the figure size is a float expression. Any exception raised in the extras ends the loop; among them are the `KeyError` of `globals()['pd']` after a failed `pandas` import, the `matplotlib.pyplot` and `plotly` imports made outside the `try` (imports.py:104, 124-126), and the magics when `get_ipython()` returns `None` (imports.py:94, 97, 110-112). The binding contracts assume no such exception is raised, and they describe only the bindings made at imports.py:88.
- `LocalLibs.ImportLocalLibs`: the model lists the imports to attempt. It does not model an import raising. It also returns only the failure on an empty entry name, not the effects performed before the `IndexError`.
- `import_stdlibs` (imports.py:12-38): a fixed list of imports with no logic.
- `display_all_variables`, `autoreload_modules` and the `__main__` block (imports.py:150-168): notebook configuration.
- `sys.path.append`, `os.listdir`, `os.path.isdir` and `os.path.isfile` are abstracted as the `AddPath` action and the `listDir`, `isDir` and `hasManifest` parameters.
- `Paths.Join` models only two-argument POSIX joining, the only form the source uses.

/** `find_env_root`: look for `environment.yml` in the current directory and
    then in up to three ancestors, going one `..` further each time. The
    file-system test is a parameter. */
module EnvRoot {
  import opened Wrappers
  import Paths

  /** The number of directories examined: `range(4)`. */
  const MaxDepth: nat := 4

  /** The message of the `IOError` raised when no candidate has the manifest. */
  const NotFoundMessage := "Could not find `environment.yml`."

  /** The directory examined on iteration `i`: `.` joined with `..`, `i`
      times. Each level adds the three characters `/..`, so the candidates
      are pairwise distinct. */
  function Candidate(i: nat): (dir: string)
    ensures |dir| == 1 + 3 * i
    ensures dir[0] == '.' && dir[|dir| - 1] == '.'
  {
    if i == 0 then "." else Paths.Join(Candidate(i - 1), "..")
  }

  /** The four directories, spelled out. */
  lemma CandidatesSpelledOut()
    ensures Candidate(0) == "."
    ensures Candidate(1) == "./.."
    ensures Candidate(2) == "./../.."
    ensures Candidate(3) == "./../../.."
  {
  }

  /** The search. `hasManifest(dir)` stands for
      `os.path.isfile(os.path.join(dir, 'environment.yml'))`; `probed`
      records the directories examined, in order. The search stops at the
      first candidate that holds the manifest and returns it; after four
      misses it fails with the `IOError` message. */
  method FindEnvRoot(hasManifest: string -> bool) returns (r: Result<string, string>, probed: seq<string>)
    ensures |probed| <= MaxDepth
    ensures forall k :: 0 <= k < |probed| ==> probed[k] == Candidate(k)
    ensures r.Success? ==>
              && |probed| > 0
              && r.value == probed[|probed| - 1]
              && hasManifest(r.value)
              && forall k :: 0 <= k < |probed| - 1 ==> !hasManifest(probed[k])
    ensures r.Failure? ==> r.error == NotFoundMessage && |probed| == MaxDepth
    ensures r.Failure? <==> forall k :: 0 <= k < MaxDepth ==> !hasManifest(Candidate(k))
  {
    var root := ".";
    probed := [];
    var i := 0;
    while i < MaxDepth
      invariant i <= MaxDepth
      invariant root == Candidate(i)
      invariant |probed| == i
      invariant forall k :: 0 <= k < i ==> probed[k] == Candidate(k) && !hasManifest(probed[k])
    {
      probed := probed + [root];
      if hasManifest(root) {
        return Success(root), probed;
      }
      root := Paths.Join(root, "..");
      i := i + 1;
    }
    return Failure(NotFoundMessage), probed;
  }

  /** At most one candidate is the first to hold the manifest. */
  lemma FirstHitUnique(hasManifest: string -> bool, i: nat)
    requires hasManifest(Candidate(i))
    requires forall j :: 0 <= j < i ==> !hasManifest(Candidate(j))
    ensures forall k: nat :: hasManifest(Candidate(k)) && (forall j :: 0 <= j < k ==> !hasManifest(Candidate(j))) ==> k == i
  {
  }
}

/** `locate` (src/main.rs:23-48): keep the candidate paths that are regular
    files and group them by parent directory.  The external search and the
    filesystem are parameters: `lines` is what the search printed, `stat`
    answers `metadata(path)`. */
module PathIndex {
  import opened Wrappers
  import opened Paths

  /** What `metadata(path)` reports: an error, or whether the path is a
      regular file. */
  datatype Metadata = Unavailable | Found(isFile: bool)

  /** `metadata(..).unwrap()` panics on this path. */
  datatype LocateError = MetadataFailed(path: string)

  /** Directory to the set of paths found directly under it. */
  type Groups = map<string, set<string>>

  /** The candidates that are regular files. */
  function Accepted(lines: seq<string>, stat: string -> Metadata): set<string>
  {
    set p | p in lines && stat(p) == Found(true)
  }

  /** The parent directories of `files`. */
  function Parents(files: set<string>): set<string>
  {
    set p | p in files :: Parent(p)
  }

  /** The files of `files` whose parent is `d`. */
  function FilesUnder(files: set<string>, d: string): set<string>
  {
    set p | p in files && Parent(p) == d
  }

  /** Reference definition of the grouping: one key per parent directory of a
      file, holding exactly the files under it. */
  function Grouping(files: set<string>): Groups
  {
    map d | d in Parents(files) :: FilesUnder(files, d)
  }

  /** The grouping partitions the files by parent: its keys are the parents,
      no set is empty, each set holds only files with that parent, and every
      file is in its parent's set. */
  lemma GroupingPartitions(files: set<string>)
    ensures Grouping(files).Keys == Parents(files)
    ensures forall d :: d in Grouping(files) ==> Grouping(files)[d] != {}
    ensures forall d, p :: d in Grouping(files) && p in Grouping(files)[d] ==> p in files && Parent(p) == d
    ensures forall p :: p in files ==> Parent(p) in Grouping(files) && p in Grouping(files)[Parent(p)]
  {
    var g := Grouping(files);
    forall d | d in g ensures g[d] != {} {
      var p :| p in files && Parent(p) == d;
      assert p in g[d];
    }
  }

  /** Position of the first candidate whose metadata cannot be read, or
      |lines| when every candidate can be read. */
  function FirstUnavailable(lines: seq<string>, stat: string -> Metadata): (k: nat)
    ensures k <= |lines|
    ensures k < |lines| ==> stat(lines[k]) == Unavailable
    ensures forall j :: 0 <= j < k ==> stat(lines[j]).Found?
  {
    if lines == [] || stat(lines[0]) == Unavailable then 0
    else 1 + FirstUnavailable(lines[1..], stat)
  }

  /** What `locate` returns for the candidates `lines`: the panic at the first
      unreadable candidate, or the grouping of the regular files. */
  function LocateSpec(lines: seq<string>, stat: string -> Metadata): Result<Groups, LocateError>
  {
    var k := FirstUnavailable(lines, stat);
    if k < |lines| then Failure(MetadataFailed(lines[k]))
    else Success(Grouping(Accepted(lines, stat)))
  }

  /** Adding one more file to the grouping touches only its parent's set. */
  lemma GroupingAdd(files: set<string>, p: string)
    ensures var g, d := Grouping(files), Parent(p);
            Grouping(files + {p}) == g[d := (if d in g then g[d] else {}) + {p}]
  {
    var g, d := Grouping(files), Parent(p);
    var g' := g[d := (if d in g then g[d] else {}) + {p}];
    var h := Grouping(files + {p});
    ParentsAdd(files, p);
    assert h.Keys == g'.Keys;
    forall e | e in h ensures h[e] == g'[e] {
      FilesUnderAdd(files, p, e);
    }
  }

  /** One more file adds at most its parent to the parents. */
  lemma ParentsAdd(files: set<string>, p: string)
    ensures Parents(files + {p}) == Parents(files) + {Parent(p)}
  {
  }

  /** One more file joins only its own parent's files. */
  lemma FilesUnderAdd(files: set<string>, p: string, e: string)
    ensures FilesUnder(files + {p}, e) == FilesUnder(files, e) + (if Parent(p) == e then {p} else {})
  {
  }

  /** The loop of src/main.rs:34-45.  A line whose metadata fails aborts the
      whole call; a line that is not a regular file is skipped; a file is
      added to the set of its parent, creating that set if it is missing. */
  method Locate(lines: seq<string>, stat: string -> Metadata) returns (r: Result<Groups, LocateError>)
    ensures r == LocateSpec(lines, stat)
  {
    var map_: Groups := map[];
    for i := 0 to |lines|
      invariant forall j :: 0 <= j < i ==> stat(lines[j]).Found?
      invariant map_ == Grouping(Accepted(lines[..i], stat))
    {
      var path := lines[i];
      match stat(path)
      case Unavailable =>
        assert FirstUnavailable(lines, stat) == i by {
          FirstUnavailableAt(lines, stat, i);
        }
        return Failure(MetadataFailed(path));
      case Found(isFile) =>
        LocateStep(lines, stat, i);
        if isFile {
          var parent := Parent(path);
          map_ := map_[parent := (if parent in map_ then map_[parent] else {}) + {path}];
        }
    }
    assert lines[..|lines|] == lines;
    FirstUnavailableAt(lines, stat, |lines|);
    r := Success(map_);
  }

  /** One more readable candidate changes the grouping only when it is a
      regular file, and then only in its parent's set. */
  lemma LocateStep(lines: seq<string>, stat: string -> Metadata, i: nat)
    requires i < |lines|
    ensures var g, p := Grouping(Accepted(lines[..i], stat)), lines[i];
            Grouping(Accepted(lines[..i + 1], stat))
            == if stat(p) == Found(true) then g[Parent(p) := (if Parent(p) in g then g[Parent(p)] else {}) + {p}] else g
  {
    var files, p := Accepted(lines[..i], stat), lines[i];
    assert lines[..i + 1] == lines[..i] + [p];
    if stat(p) == Found(true) {
      assert Accepted(lines[..i + 1], stat) == files + {p};
      GroupingAdd(files, p);
    } else {
      assert Accepted(lines[..i + 1], stat) == files;
    }
  }

  /** `FirstUnavailable` is determined by its two properties. */
  lemma {:induction false} FirstUnavailableAt(lines: seq<string>, stat: string -> Metadata, k: nat)
    requires k <= |lines|
    requires k < |lines| ==> stat(lines[k]) == Unavailable
    requires forall j :: 0 <= j < k ==> stat(lines[j]).Found?
    ensures FirstUnavailable(lines, stat) == k
  {
    if k > 0 {
      FirstUnavailableAt(lines[1..], stat, k - 1);
    }
  }

  /** A candidate ends up in the result only if it is a regular file; every
      regular file ends up under its own parent and nowhere else. */
  lemma LocateOnlyRegularFiles(lines: seq<string>, stat: string -> Metadata, d: string, p: string)
    requires LocateSpec(lines, stat).Success?
    ensures var g := LocateSpec(lines, stat).value;
            (d in g && p in g[d]) <==> (p in lines && stat(p) == Found(true) && d == Parent(p))
  {
  }

  /** The call aborts exactly when some candidate's metadata cannot be read,
      and it reports the first such candidate. */
  lemma LocateFailsAtFirstUnreadable(lines: seq<string>, stat: string -> Metadata)
    ensures LocateSpec(lines, stat).Failure? <==> exists i :: 0 <= i < |lines| && stat(lines[i]) == Unavailable
    ensures LocateSpec(lines, stat).Failure? ==>
              exists k :: 0 <= k < |lines| && stat(lines[k]) == Unavailable
                          && (forall j :: 0 <= j < k ==> stat(lines[j]).Found?)
                          && LocateSpec(lines, stat).error == MetadataFailed(lines[k])
  {
  }

  /** No path is filed under two directories of the result. */
  lemma LocatePartition(lines: seq<string>, stat: string -> Metadata, d1: string, d2: string, p: string)
    requires LocateSpec(lines, stat).Success?
    requires var g := LocateSpec(lines, stat).value;
             d1 in g && d2 in g && p in g[d1] && p in g[d2]
    ensures d1 == d2
  {
  }
}

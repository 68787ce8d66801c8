/** The merge loop of `main` (src/main.rs:72-87): one `locate` per signature,
    every (directory, files) pair folded into a registry keyed by directory.
    The search service, the filesystem and `du` are parameters. */
module Aggregator {
  import opened Wrappers
  import opened Paths
  import opened PathIndex

  /** `App` (src/main.rs:9-13): an installation directory, its size as `du`
      reported it, and the signature files found directly in it. */
  datatype App = App(path: string, size: nat, cefFiles: set<string>)

  /** The `BTreeMap<String, App>` of src/main.rs:72.  Its key order only
      matters for printing, so a plain map stands for it. */
  type Registry = map<string, App>

  /** `CEF_FILES` (src/main.rs:15-21): the signature file names, as regular
      expressions. */
  const CefFiles: seq<string> := [
    "chrome_100_percent\\.pak",
    "chrome_crashpad_handler",
    "chrome-sandbox",
    "libcef\\.so",
    "resources\\.pak"
  ]

  /** The query of src/main.rs:75: an escaped '/', the signature, and the end
      of the line. */
  function Pattern(signature: string): (q: string)
    ensures |q| == |signature| + 3
    ensures q[..2] == "\\/" && q[|q| - 1] == '$'
  {
    "\\/" + signature + "$"
  }

  /** Different signatures give different queries. */
  lemma PatternInjective(a: string, b: string)
    requires Pattern(a) == Pattern(b)
    ensures a == b
  {
    assert a == Pattern(a)[2..|Pattern(a)| - 1];
    assert b == Pattern(b)[2..|Pattern(b)| - 1];
  }

  /** The five signatures are distinct, so each `locate` call runs its own
      query. */
  lemma CefFilesDistinctQueries()
    ensures |CefFiles| == 5
    ensures forall i, j :: 0 <= i < j < |CefFiles| ==> Pattern(CefFiles[i]) != Pattern(CefFiles[j])
  {
    forall i, j | 0 <= i < j < |CefFiles| ensures Pattern(CefFiles[i]) != Pattern(CefFiles[j]) {
      if Pattern(CefFiles[i]) == Pattern(CefFiles[j]) {
        PatternInjective(CefFiles[i], CefFiles[j]);
      }
    }
  }

  /** src/main.rs:78-85 for one pair: `entry(dir).or_insert(App { size:
      measured, path: dir, cef_files: {} }).cef_files.extend(files)`, where
      `measured` is the `disk_usage(dir)` computed at line 77. */
  function MergeEntry(reg: Registry, dir: string, files: set<string>, measured: nat): (r: Registry)
    ensures r.Keys == reg.Keys + {dir}
    ensures files <= r[dir].cefFiles
  {
    var app := if dir in reg then reg[dir] else App(dir, measured, {});
    reg[dir := app.(cefFiles := app.cefFiles + files)]
  }

  /** Reference definition of merging a whole `locate` result in one go,
      independent of the order in which the loop visits its directories.
      `du(round, dir)` is what `disk_usage(dir)` reports while the signature
      with index `round` is processed. */
  function MergeRound(reg: Registry, round: nat, found: Groups, du: (nat, string) -> nat): Registry
  {
    map d | d in reg.Keys + found.Keys ::
      if d !in found then reg[d]
      else if d in reg then reg[d].(cefFiles := reg[d].cefFiles + found[d])
      else App(d, du(round, d), found[d])
  }

  /** The registry after merging the `locate` results of the signatures
      0 .. |founds|-1 in order. */
  function Aggregate(founds: seq<Groups>, du: (nat, string) -> nat): Registry
  {
    if founds == [] then map[]
    else MergeRound(Aggregate(founds[..|founds| - 1], du), |founds| - 1, founds[|founds| - 1], du)
  }

  /** The `locate` results for each signature in order, or the panic of the
      first `locate` call that fails. */
  function Discover(signatures: seq<string>, search: string -> seq<string>, stat: string -> Metadata)
    : Result<seq<Groups>, LocateError>
  {
    if signatures == [] then Success([])
    else
      match Discover(signatures[..|signatures| - 1], search, stat)
      case Failure(e) => Failure(e)
      case Success(founds) =>
        match LocateSpec(search(Pattern(signatures[|signatures| - 1])), stat)
        case Failure(e) => Failure(e)
        case Success(found) => Success(founds + [found])
  }

  /** What the loop of src/main.rs:74-87 leaves behind. */
  function ScanSpec(signatures: seq<string>, search: string -> seq<string>, stat: string -> Metadata,
                    du: (nat, string) -> nat): Result<Registry, LocateError>
  {
    match Discover(signatures, search, stat)
    case Failure(e) => Failure(e)
    case Success(founds) => Success(Aggregate(founds, du))
  }

  /** The directories handed to `disk_usage`: every key of every `locate`
      result, once per result that holds it. */
  function Discoveries(founds: seq<Groups>): multiset<string>
  {
    if founds == [] then multiset{}
    else Discoveries(founds[..|founds| - 1]) + multiset(founds[|founds| - 1].Keys)
  }

  /** The part of `found` whose directories are in `dirs`. */
  ghost function Restrict(found: Groups, dirs: set<string>): Groups
  {
    map d | d in dirs && d in found :: found[d]
  }

  /** Merging nothing changes nothing; merging all of `found` is merging
      `found`. */
  lemma RestrictBounds(reg: Registry, round: nat, found: Groups, du: (nat, string) -> nat)
    ensures MergeRound(reg, round, Restrict(found, {}), du) == reg
    ensures Restrict(found, found.Keys) == found
  {
    assert Restrict(found, {}) == map[];
    assert MergeRound(reg, round, map[], du) == reg;
  }

  /** One iteration of the inner loop keeps its invariant: the pending and
      visited directories split the keys of `found`, the registry is the
      reference merge of the visited directories, and the log holds each
      visited directory once. */
  lemma MergeStep(registry: Registry, round: nat, found: Groups, du: (nat, string) -> nat,
                  pending: set<string>, done: set<string>, dir: string, log: seq<string>)
    requires pending !! done && pending + done == found.Keys && dir in pending
    requires multiset(log) == multiset(done)
    ensures (pending - {dir}) !! (done + {dir}) && (pending - {dir}) + (done + {dir}) == found.Keys
    ensures MergeEntry(MergeRound(registry, round, Restrict(found, done), du), dir, found[dir], du(round, dir))
            == MergeRound(registry, round, Restrict(found, done + {dir}), du)
    ensures multiset(log + [dir]) == multiset(done + {dir})
  {
    MergeRoundStep(registry, round, found, du, done, dir);
    VisitStep(found.Keys, pending, done, dir, log);
  }

  /** Moving one directory from the pending to the visited set keeps the two
      a split of the keys, and the log still holds each visited directory
      once. */
  lemma VisitStep(keys: set<string>, pending: set<string>, done: set<string>, dir: string, log: seq<string>)
    requires pending !! done && pending + done == keys && dir in pending
    requires multiset(log) == multiset(done)
    ensures (pending - {dir}) !! (done + {dir}) && (pending - {dir}) + (done + {dir}) == keys
    ensures multiset(log + [dir]) == multiset(done + {dir})
  {
    assert multiset(done + {dir}) == multiset(done) + multiset{dir};
  }

  /** One more step of the inner loop extends the reference merge by one
      directory. */
  lemma MergeRoundStep(reg0: Registry, round: nat, found: Groups, du: (nat, string) -> nat,
                       done: set<string>, d: string)
    requires d in found && d !in done
    ensures MergeEntry(MergeRound(reg0, round, Restrict(found, done), du), d, found[d], du(round, d))
            == MergeRound(reg0, round, Restrict(found, done + {d}), du)
  {
    var before := MergeRound(reg0, round, Restrict(found, done), du);
    var lhs := MergeEntry(before, d, found[d], du(round, d));
    var rhs := MergeRound(reg0, round, Restrict(found, done + {d}), du);
    RestrictAdd(found, done, d);
    assert lhs.Keys == rhs.Keys;
    forall e | e in lhs ensures lhs[e] == rhs[e] {
      if e == d {
        assert d !in Restrict(found, done);
      }
    }
  }

  /** Visiting one more directory of `found` adds just its entry. */
  lemma RestrictAdd(found: Groups, done: set<string>, d: string)
    requires d in found
    ensures Restrict(found, done + {d}) == Restrict(found, done)[d := found[d]]
  {
  }

  /** src/main.rs:76-86 for one signature: for each directory `locate`
      found, measure the directory and merge the pair into the registry.  The
      `HashMap` iteration order is unspecified, so the loop takes the
      directories in any order.  `measured` lists the directories handed to
      `disk_usage`, in call order. */
  method MergeLocated(registry: Registry, round: nat, found: Groups, du: (nat, string) -> nat)
    returns (merged: Registry, measured: seq<string>)
    ensures merged == MergeRound(registry, round, found, du)
    ensures multiset(measured) == multiset(found.Keys)
  {
    merged, measured := registry, [];
    var pending := found.Keys;
    ghost var done: set<string> := {};
    RestrictBounds(registry, round, found, du);
    while pending != {}
      invariant pending !! done && pending + done == found.Keys
      invariant merged == MergeRound(registry, round, Restrict(found, done), du)
      invariant multiset(measured) == multiset(done)
      decreases pending
    {
      var dir :| dir in pending;
      var size := du(round, dir);
      MergeStep(registry, round, found, du, pending, done, dir, measured);
      merged := MergeEntry(merged, dir, found[dir], size);
      measured := measured + [dir];
      pending := pending - {dir};
      done := done + {dir};
    }
    assert done == found.Keys;
  }

  /** src/main.rs:72-87: for each signature, `locate` its pattern (a panic
      there ends the run) and merge what it found into the registry.
      `measured` lists the directories handed to `disk_usage`, in call
      order. */
  method Scan(signatures: seq<string>, search: string -> seq<string>, stat: string -> Metadata,
              du: (nat, string) -> nat)
    returns (r: Result<Registry, LocateError>, measured: seq<string>)
    ensures r == ScanSpec(signatures, search, stat, du)
    ensures r.Success? ==> multiset(measured) == Discoveries(Discover(signatures, search, stat).value)
  {
    var registry: Registry := map[];
    measured := [];
    ghost var founds: seq<Groups> := [];
    for i := 0 to |signatures|
      invariant Discover(signatures[..i], search, stat) == Success(founds)
      invariant |founds| == i
      invariant registry == Aggregate(founds, du)
      invariant multiset(measured) == Discoveries(founds)
    {
      assert signatures[..i + 1][..i] == signatures[..i];
      var located := Locate(search(Pattern(signatures[i])), stat);
      if located.Failure? {
        DiscoverPrefixFails(signatures, search, stat, i + 1);
        r := Failure(located.error);
        return;
      }
      var found := located.value;
      var measuredNow;
      registry, measuredNow := MergeLocated(registry, i, found, du);
      measured := measured + measuredNow;
      founds := founds + [found];
      assert founds[..|founds| - 1] == founds[..i];
    }
    assert signatures[..|signatures|] == signatures;
    r := Success(registry);
  }

  /** Once a prefix of the signatures fails, the whole discovery fails with
      the same error. */
  lemma {:induction false} DiscoverPrefixFails(signatures: seq<string>, search: string -> seq<string>,
                                               stat: string -> Metadata, n: nat)
    requires n <= |signatures|
    requires Discover(signatures[..n], search, stat).Failure?
    ensures Discover(signatures, search, stat) == Discover(signatures[..n], search, stat)
    decreases |signatures| - n
  {
    if n < |signatures| {
      assert signatures[..n + 1][..n] == signatures[..n];
      DiscoverPrefixFails(signatures, search, stat, n + 1);
    } else {
      assert signatures[..n] == signatures;
    }
  }
}

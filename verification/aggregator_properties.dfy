/** What the merge loop of src/main.rs:74-87 guarantees about the registry
    it builds. */
module AggregatorProperties {
  import opened Wrappers
  import opened Paths
  import opened PathIndex
  import opened Aggregator

  /** Directory `d` is a key of the `locate` result of round `i`. */
  ghost predicate FoundIn(founds: seq<Groups>, i: int, d: string)
  {
    0 <= i < |founds| && d in founds[i]
  }

  /** The registry has a key for a directory exactly when some signature's
      `locate` result has it. */
  lemma {:induction false} AggregateKeys(founds: seq<Groups>, du: (nat, string) -> nat, d: string)
    ensures d in Aggregate(founds, du) <==> exists i :: FoundIn(founds, i, d)
  {
    if founds != [] {
      var n := |founds| - 1;
      var prefix := founds[..n];
      AggregateKeys(prefix, du, d);
      assert Aggregate(founds, du).Keys == Aggregate(prefix, du).Keys + founds[n].Keys;
      if d in founds[n] {
        assert FoundIn(founds, n, d);
      } else if d in Aggregate(founds, du) {
        var i :| FoundIn(prefix, i, d);
        assert FoundIn(founds, i, d);
      }
      if i :| FoundIn(founds, i, d) {
        if i < n {
          assert FoundIn(prefix, i, d);
        }
      }
    }
  }

  /** Every installation is keyed by its own `path`. */
  lemma {:induction false} AggregatePath(founds: seq<Groups>, du: (nat, string) -> nat, d: string)
    requires d in Aggregate(founds, du)
    ensures Aggregate(founds, du)[d].path == d
  {
    var n := |founds| - 1;
    if d in Aggregate(founds[..n], du) {
      AggregatePath(founds[..n], du, d);
    }
  }

  /** An installation's `cef_files` is the union, over all signatures, of the
      files `locate` found in its directory. */
  lemma {:induction false} AggregateFiles(founds: seq<Groups>, du: (nat, string) -> nat, d: string, p: string)
    requires d in Aggregate(founds, du)
    ensures p in Aggregate(founds, du)[d].cefFiles <==> exists i :: FoundIn(founds, i, d) && p in founds[i][d]
  {
    var n := |founds| - 1;
    var prefix := founds[..n];
    var before := Aggregate(prefix, du);
    if d in before {
      AggregateFiles(prefix, du, d, p);
      if p in before[d].cefFiles {
        var i :| FoundIn(prefix, i, d) && p in prefix[i][d];
        assert FoundIn(founds, i, d) && p in founds[i][d];
      }
    } else {
      AggregateKeys(prefix, du, d);
    }
    if i :| FoundIn(founds, i, d) && p in founds[i][d] {
      if i < n {
        assert FoundIn(prefix, i, d) && p in prefix[i][d];
        AggregateKeys(prefix, du, d);
      }
    }
  }

  /** An installation's `size` is the one measured while the first signature
      that found its directory was processed: later measurements of the same
      directory are computed and dropped by `or_insert`. */
  lemma {:induction false} AggregateFirstSizeSticks(founds: seq<Groups>, du: (nat, string) -> nat, d: string, i: nat)
    requires FoundIn(founds, i, d)
    requires forall j :: 0 <= j < i ==> d !in founds[j]
    ensures d in Aggregate(founds, du)
    ensures Aggregate(founds, du)[d].size == du(i, d)
  {
    var n := |founds| - 1;
    var prefix := founds[..n];
    if i == n {
      AggregateKeys(prefix, du, d);
    } else {
      AggregateFirstSizeSticks(prefix, du, d, i);
    }
  }

  /** Merging the same pair twice is merging it once, whatever the second
      measurement says. */
  lemma MergeEntryIdempotent(reg: Registry, d: string, files: set<string>, first: nat, second: nat)
    ensures MergeEntry(MergeEntry(reg, d, files, first), d, files, second) == MergeEntry(reg, d, files, first)
  {
  }

  /** A merge touches only its own directory's entry, and there it only
      grows `cef_files`: the size and path of an existing entry stay. */
  lemma MergeEntryFrame(reg: Registry, d: string, files: set<string>, measured: nat)
    ensures var r := MergeEntry(reg, d, files, measured);
            && r.Keys == reg.Keys + {d}
            && (forall k :: k in reg && k != d ==> r[k] == reg[k])
            && (d in reg ==> r[d] == reg[d].(cefFiles := reg[d].cefFiles + files))
            && (d !in reg ==> r[d] == App(d, measured, files))
  {
  }

  /** The rounds whose `locate` result has directory `d`. */
  ghost function RoundsWith(founds: seq<Groups>, d: string): set<nat>
  {
    set i: nat | i < |founds| && d in founds[i]
  }

  /** `disk_usage` is called on a directory once per signature that found it,
      not once per installation. */
  lemma {:induction false} DiscoveriesCount(founds: seq<Groups>, d: string)
    ensures Discoveries(founds)[d] == |RoundsWith(founds, d)|
  {
    if founds != [] {
      var n := |founds| - 1;
      var prefix := founds[..n];
      DiscoveriesCount(prefix, d);
      var before := RoundsWith(prefix, d);
      assert n !in before;
      assert Discoveries(founds)[d] == Discoveries(prefix)[d] + multiset(founds[n].Keys)[d];
      if d in founds[n] {
        assert RoundsWith(founds, d) == before + {n};
      } else {
        assert RoundsWith(founds, d) == before;
      }
    }
  }

  /** The discovery succeeds exactly when every signature's `locate`
      succeeds, and then it holds their results in signature order. */
  lemma {:induction false} DiscoverResults(signatures: seq<string>, search: string -> seq<string>,
                                           stat: string -> Metadata)
    ensures Discover(signatures, search, stat).Success? <==>
              forall i :: 0 <= i < |signatures| ==> LocateSpec(search(Pattern(signatures[i])), stat).Success?
    ensures Discover(signatures, search, stat).Success? ==>
              var founds := Discover(signatures, search, stat).value;
              |founds| == |signatures| &&
              forall i :: 0 <= i < |signatures| ==> LocateSpec(search(Pattern(signatures[i])), stat) == Success(founds[i])
  {
    if signatures != [] {
      var n := |signatures| - 1;
      var prefix := signatures[..n];
      DiscoverResults(prefix, search, stat);
      assert forall i :: 0 <= i < n ==> prefix[i] == signatures[i];
    }
  }

  /** Every member file of every installation was printed by `locate` for
      some signature, is a regular file, and lies directly in the
      installation's directory. */
  lemma ScanFilesAreRegularUnderParent(signatures: seq<string>, search: string -> seq<string>,
                                       stat: string -> Metadata, du: (nat, string) -> nat, d: string, p: string)
    requires ScanSpec(signatures, search, stat, du).Success?
    requires var reg := ScanSpec(signatures, search, stat, du).value;
             d in reg && p in reg[d].cefFiles
    ensures Parent(p) == d && stat(p) == Found(true)
    ensures exists i :: 0 <= i < |signatures| && p in search(Pattern(signatures[i]))
  {
    var founds := Discover(signatures, search, stat).value;
    DiscoverResults(signatures, search, stat);
    AggregateFiles(founds, du, d, p);
    var i :| FoundIn(founds, i, d) && p in founds[i][d];
    LocateOnlyRegularFiles(search(Pattern(signatures[i])), stat, d, p);
  }

  /** No file belongs to two installations. */
  lemma ScanPartition(signatures: seq<string>, search: string -> seq<string>,
                      stat: string -> Metadata, du: (nat, string) -> nat, d1: string, d2: string, p: string)
    requires ScanSpec(signatures, search, stat, du).Success?
    requires var reg := ScanSpec(signatures, search, stat, du).value;
             d1 in reg && d2 in reg && p in reg[d1].cefFiles && p in reg[d2].cefFiles
    ensures d1 == d2
  {
    ScanFilesAreRegularUnderParent(signatures, search, stat, du, d1, p);
    ScanFilesAreRegularUnderParent(signatures, search, stat, du, d2, p);
  }
}

/** A worked run of the whole pipeline: two signatures whose files sit in
    one directory become one installation. */
module Scenario {
  import opened Wrappers
  import opened Paths
  import opened PathIndex
  import opened Aggregator
  import opened Summary
  import opened FormatSize

  const Dir: string := "/opt/app1"
  const FileA: string := "/opt/app1/a.bin"
  const FileB: string := "/opt/app1/b.pak"

  /** The search service: one hit per signature. */
  function Search(pattern: string): seq<string>
  {
    if pattern == Pattern("a.bin") then [FileA]
    else if pattern == Pattern("b.pak") then [FileB]
    else []
  }

  /** The filesystem: both hits are regular files. */
  function Stat(p: string): Metadata
  {
    if p == FileA || p == FileB then Found(true) else Unavailable
  }

  /** `du` reports 2048 KiB for the directory whenever it is asked. */
  function Du(round: nat, d: string): nat
  {
    if d == Dir then 2048 else 0
  }

  /** Both files lie directly in /opt/app1. */
  lemma ParentOfFiles()
    ensures Parent(FileA) == Dir && Parent(FileB) == Dir
  {
    assert FileA[9] == '/' && forall j :: 9 < j < |FileA| ==> FileA[j] != '/';
    assert FileB[9] == '/' && forall j :: 9 < j < |FileB| ==> FileB[j] != '/';
    assert LastSlash(FileA) == 9 && LastSlash(FileB) == 9;
  }

  /** Each signature's `locate` finds its one file under /opt/app1. */
  lemma ScenarioDiscover()
    ensures Discover(["a.bin", "b.pak"], Search, Stat)
            == Success([map[Dir := {FileA}], map[Dir := {FileB}]])
  {
    ParentOfFiles();
    assert Pattern("a.bin") != Pattern("b.pak") by {
      assert Pattern("a.bin")[2] != Pattern("b.pak")[2];
    }
    var gA := map[Dir := {FileA}];
    var gB := map[Dir := {FileB}];
    ScenarioLocate(FileA);
    ScenarioLocate(FileB);
    var sigs := ["a.bin", "b.pak"];
    var first: seq<string> := ["a.bin"];
    assert first[..0] == [] && first[|first| - 1] == "a.bin";
    assert Discover([], Search, Stat) == Success([]);
    assert LocateSpec(Search(Pattern(first[|first| - 1])), Stat) == Success(gA);
    assert [] + [gA] == [gA];
    assert Discover(first, Search, Stat) == Success([gA]);
    assert sigs[..|sigs| - 1] == first && sigs[|sigs| - 1] == "b.pak";
    assert LocateSpec(Search(Pattern(sigs[|sigs| - 1])), Stat) == Success(gB);
    assert [gA] + [gB] == [gA, gB];
  }

  /** `locate` on a one-line result holding a regular file. */
  lemma ScenarioLocate(f: string)
    requires f == FileA || f == FileB
    ensures LocateSpec([f], Stat) == Success(map[Dir := {f}])
  {
    ParentOfFiles();
    assert [f][1..] == [];
    assert FirstUnavailable([f], Stat) == 1;
    assert Accepted([f], Stat) == {f};
    assert Parents({f}) == {Dir};
    assert FilesUnder({f}, Dir) == {f};
    assert Grouping({f}) == map[Dir := {f}];
  }

  /** Merging the two results gives one installation: the second signature
      extends the first one's entry. */
  lemma ScenarioAggregate()
    ensures Aggregate([map[Dir := {FileA}], map[Dir := {FileB}]], Du)
            == map[Dir := App(Dir, 2048, {FileA, FileB})]
  {
    var gA := map[Dir := {FileA}];
    var gB := map[Dir := {FileB}];
    assert [gA, gB][..1] == [gA] && [gA][..0] == [];
    assert Aggregate([], Du) == map[];
    var r1 := map[Dir := App(Dir, 2048, {FileA})];
    assert MergeRound(map[], 0, gA, Du) == r1;
    assert Aggregate([gA], Du) == r1;
    var r2 := MergeRound(r1, 1, gB, Du);
    assert r2.Keys == {Dir};
    assert r2[Dir] == App(Dir, 2048, {FileA} + {FileB});
    assert {FileA} + {FileB} == {FileA, FileB};
    assert r2 == map[Dir := App(Dir, 2048, {FileA, FileB})];
  }

  /** One installation at /opt/app1 holding both files, with size 2048; the
      summary counts one installation, 2048 KiB in total, shown in MB. */
  lemma ScenarioOneInstallation()
    ensures ScanSpec(["a.bin", "b.pak"], Search, Stat, Du) == Success(map[Dir := App(Dir, 2048, {FileA, FileB})])
    ensures TotalSize(map[Dir := App(Dir, 2048, {FileA, FileB})]) == 2048
    ensures forall k: nat :: IsUnitIndex(2048, k) ==> Units[k] == "MB"
  {
    ScenarioDiscover();
    ScenarioAggregate();
    var reg := map[Dir := App(Dir, 2048, {FileA, FileB})];
    TotalSizeRemove(reg, Dir);
    assert reg - {Dir} == map[];
    forall k: nat | IsUnitIndex(2048, k) ensures Units[k] == "MB" {
      FormatSizeBoundaries(k);
    }
  }
}

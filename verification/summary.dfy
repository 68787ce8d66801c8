/** The closing summary of `main` (src/main.rs:89-105): how many
    installations were found and their total size. */
module Summary {
  import opened Aggregator

  /** Sum of the `size` fields of all installations. */
  ghost function TotalSize(registry: Registry): nat
    decreases |registry|
  {
    if registry == map[] then 0
    else
      var d :| d in registry;
      registry[d].size + TotalSize(registry - {d})
  }

  /** The sum does not depend on which installation is taken first. */
  lemma {:induction false} TotalSizeRemove(registry: Registry, d: string)
    requires d in registry
    ensures TotalSize(registry) == registry[d].size + TotalSize(registry - {d})
    decreases |registry|
  {
    var e :| e in registry && TotalSize(registry) == registry[e].size + TotalSize(registry - {e});
    if e != d {
      TotalSizeRemove(registry - {e}, d);
      TotalSizeRemove(registry - {d}, e);
      assert registry - {e} - {d} == registry - {d} - {e};
    }
  }

  /** Each installation's size is part of the total. */
  lemma {:induction false} TotalSizeCovers(registry: Registry, d: string)
    requires d in registry
    ensures registry[d].size <= TotalSize(registry)
  {
    TotalSizeRemove(registry, d);
  }

  /** src/main.rs:89-105 without the printing: `count` is `map.len()` and
      `total` is `total_size` after adding every installation's size.  The
      values are visited in key order there; the sum does not depend on it,
      so the loop takes them in any order. */
  method Summarize(registry: Registry) returns (count: nat, total: nat)
    ensures count == |registry.Keys|
    ensures total == TotalSize(registry)
  {
    total := 0;
    var rest := registry;
    while rest != map[]
      invariant total + TotalSize(rest) == TotalSize(registry)
      decreases |rest|
    {
      var app :| app in rest;
      TotalSizeRemove(rest, app);
      total := total + rest[app].size;
      rest := rest - {app};
    }
    count := |registry|;
  }
}

/** The unit choice of `format_size` (src/main.rs:58-67), on exact numbers. */
module FormatSize {

  /** The unit table of src/main.rs:59.  `du -s` counts KiB blocks, so the
      raw count is already in KB. */
  const Units: seq<string> := ["KB", "MB", "GB", "TB", "PB", "EB", "ZB", "YB"]

  /** 1024 to the power k. */
  function Pow1024(k: nat): (r: nat)
    ensures 1 <= r
  {
    if k == 0 then 1 else 1024 * Pow1024(k - 1)
  }

  /** Unit k fits `size`: the scaled value is at least 1 unit unless k is the
      first unit, and below 1024 units unless k is the last one. */
  ghost predicate IsUnitIndex(size: nat, k: nat)
  {
    && k < |Units|
    && (k == 0 || Pow1024(k) <= size)
    && (k == |Units| - 1 || size < Pow1024(k + 1))
  }

  /** Larger exponents give larger powers. */
  lemma {:induction false} Pow1024Monotone(i: nat, j: nat)
    requires i <= j
    ensures Pow1024(i) <= Pow1024(j)
    decreases j
  {
    if i < j {
      Pow1024Monotone(i, j - 1);
    }
  }

  /** At most one unit fits a size. */
  lemma UnitIndexUnique(size: nat, k1: nat, k2: nat)
    requires IsUnitIndex(size, k1) && IsUnitIndex(size, k2)
    ensures k1 == k2
  {
    if k1 < k2 {
      Pow1024Monotone(k1 + 1, k2);
    } else if k2 < k1 {
      Pow1024Monotone(k2 + 1, k1);
    }
  }

  /** The loop of src/main.rs:60-65: divide by 1024 while the value is at
      least 1024 and a larger unit exists.  `unitIndex` always indexes the
      unit table and names the one unit that fits; `whole` is the size in
      that unit, rounded down. */
  method FormatSize(size: nat) returns (whole: nat, unitIndex: nat)
    ensures IsUnitIndex(size, unitIndex)
    ensures Pow1024(unitIndex) * whole <= size < Pow1024(unitIndex) * (whole + 1)
  {
    whole := size;
    unitIndex := 0;
    while whole >= 1024 && unitIndex < |Units| - 1
      invariant unitIndex < |Units|
      invariant Pow1024(unitIndex) * whole <= size < Pow1024(unitIndex) * (whole + 1)
      invariant unitIndex == 0 || Pow1024(unitIndex) <= size
    {
      ScaleDown(Pow1024(unitIndex), whole, size);
      whole := whole / 1024;
      unitIndex := unitIndex + 1;
    }
    if unitIndex < |Units| - 1 {
      BelowNextUnit(Pow1024(unitIndex), whole, size);
    }
  }

  /** Dividing the scaled value by 1024 keeps it the rounded-down size in the
      next unit, and a scaled value of at least 1024 means the next unit
      fits. */
  lemma ScaleDown(p: nat, whole: nat, size: nat)
    requires 1 <= p && p * whole <= size < p * (whole + 1)
    ensures (1024 * p) * (whole / 1024) <= size < (1024 * p) * (whole / 1024 + 1)
    ensures whole >= 1024 ==> 1024 * p <= size
  {
    var q, r := whole / 1024, whole % 1024;
    assert whole == 1024 * q + r && r < 1024;
    Distribute(p, 1024 * q, r);
    Distribute(p, 1024 * q, r + 1);
    Reassociate(p, q);
    MulMonotone(p, r + 1, 1024);
    MulMonotone(p, 0, r);
    if whole >= 1024 {
      MulMonotone(p, 1024, whole);
    }
  }

  /** p * (a + b) == p * a + p * b. */
  lemma Distribute(p: nat, a: nat, b: nat)
    ensures p * (a + b) == p * a + p * b
  {
  }

  /** p * (1024 * q) == (1024 * p) * q. */
  lemma Reassociate(p: nat, q: nat)
    ensures p * (1024 * q) == (1024 * p) * q
    ensures (1024 * p) * q + p * 1024 == (1024 * p) * (q + 1)
  {
  }

  /** Multiplying by p keeps `<=`. */
  lemma MulMonotone(p: nat, a: nat, b: nat)
    requires a <= b
    ensures p * a <= p * b
  {
  }

  /** A scaled value below 1024 means the size is below the next unit. */
  lemma BelowNextUnit(p: nat, whole: nat, size: nat)
    requires size < p * (whole + 1) && whole < 1024
    ensures size < 1024 * p
  {
    MulMonotone(p, whole + 1, 1024);
  }

  /** The boundary cases: 0 and 1023 stay in KB, 1024 is 1 MB, 2048 is 2 MB,
      and a size of 1024^9 still uses the last unit, YB. */
  lemma FormatSizeBoundaries(k: nat)
    ensures IsUnitIndex(0, k) ==> Units[k] == "KB"
    ensures IsUnitIndex(1023, k) ==> Units[k] == "KB"
    ensures IsUnitIndex(1024, k) ==> Units[k] == "MB"
    ensures IsUnitIndex(2048, k) ==> Units[k] == "MB" && 2048 == 2 * Pow1024(k)
    ensures IsUnitIndex(Pow1024(9), k) ==> Units[k] == "YB"
  {
    if IsUnitIndex(0, k) {
      UnitIndexUnique(0, k, 0);
    }
    if IsUnitIndex(1023, k) {
      UnitIndexUnique(1023, k, 0);
    }
    if IsUnitIndex(1024, k) {
      UnitIndexUnique(1024, k, 1);
    }
    if IsUnitIndex(2048, k) {
      UnitIndexUnique(2048, k, 1);
    }
    if IsUnitIndex(Pow1024(9), k) {
      Pow1024Monotone(7, 9);
      UnitIndexUnique(Pow1024(9), k, 7);
    }
  }
}

/**
 * The visiting order of the greedy placement search: rows `y = 0, 50, ...`
 * in the outer loop and columns `x = 0, 50, ...` in the inner loop, each
 * ranging over `range(0, limit + 50, 50)`. Points are named by their grid
 * indices `(i, j)`, that is `(50 i, 50 j)` in millimetres.
 */
module GridScan {
  import opened Wrappers

  /** Search step in millimetres. */
  const Step: int := 50

  /** Index `k` is produced by `range(0, limit + Step, Step)`. Note that the
      last index can lie up to one step beyond `limit`. */
  predicate OnScan(limit: int, k: int)
  {
    0 <= k && Step * k < limit + Step
  }

  /** Row-major visiting order: `(i1, j1)` is visited before `(i2, j2)`. */
  predicate Before(i1: int, j1: int, i2: int, j2: int)
  {
    j1 < j2 || (j1 == j2 && i1 < i2)
  }

  /** The last index the range produces. */
  function LastOnScan(limit: int): (k: int)
    requires limit >= 0
    ensures OnScan(limit, k) && !OnScan(limit, k + 1)
    ensures forall m :: OnScan(limit, m) ==> m <= k
  {
    (limit + Step - 1) / Step
  }

  /** The first point at or after `(i, j)` in visiting order at which `fits`
      holds; `None` when the scan is exhausted. */
  function Scan(fits: (int, int) -> bool, maxX: int, maxY: int, i: int, j: int): (r: Option<(int, int)>)
    requires 0 <= i && 0 <= j
    ensures r.Some? ==>
      && OnScan(maxX, r.value.0) && OnScan(maxY, r.value.1)
      && fits(r.value.0, r.value.1)
      && !Before(r.value.0, r.value.1, i, j)
    ensures r.Some? ==>
      forall ii, jj ::
        OnScan(maxX, ii) && OnScan(maxY, jj) && !Before(ii, jj, i, j) && Before(ii, jj, r.value.0, r.value.1)
        ==> !fits(ii, jj)
    ensures r.None? ==>
      forall ii, jj :: OnScan(maxX, ii) && OnScan(maxY, jj) && !Before(ii, jj, i, j) ==> !fits(ii, jj)
    decreases maxY + Step - Step * j, maxX + Step - Step * i
  {
    if !OnScan(maxY, j) then None
    else if !OnScan(maxX, i) then Scan(fits, maxX, maxY, 0, j + 1)
    else if fits(i, j) then Some((i, j))
    else Scan(fits, maxX, maxY, i + 1, j)
  }

  /** The scan depends on the values of the fit test only. */
  lemma {:induction false} ScanRespectsEqualTests(f: (int, int) -> bool, g: (int, int) -> bool,
                                                  maxX: int, maxY: int, i: int, j: int)
    requires 0 <= i && 0 <= j
    requires forall ii, jj :: f(ii, jj) == g(ii, jj)
    ensures Scan(f, maxX, maxY, i, j) == Scan(g, maxX, maxY, i, j)
    decreases maxY + Step - Step * j, maxX + Step - Step * i
  {
    if !OnScan(maxY, j) {
    } else if !OnScan(maxX, i) {
      ScanRespectsEqualTests(f, g, maxX, maxY, 0, j + 1);
    } else if f(i, j) {
    } else {
      ScanRespectsEqualTests(f, g, maxX, maxY, i + 1, j);
    }
  }
}

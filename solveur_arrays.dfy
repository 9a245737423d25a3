/** The array-shaping loops of the posting procedures: the transpositions into
    nouveauX / nouveauY and the cpt-indexed gathers into per-staff rows. Each loop is
    proved to lay out exactly the view of the grid that the matching rule predicate
    of SolveurPlanning reads. Cells the source never writes (null references there)
    stay 0 here. */
module SolveurArrays {
  import opened Grids
  import opened SolveurPlanning

  // ---------------------------------------------------------------------------
  // Transpositions.

  /** The innermost row a[i, t, ..] of a three-dimensional array. */
  function Fibre(a: array3<int>, i: nat, t: nat): seq<int>
    reads a
    requires i < a.Length0 && t < a.Length1
  {
    seq(a.Length2, k requires 0 <= k < a.Length2 reads a => a[i, t, k])
  }

  /** The per-staff transposition: nouveauX[i][t][k] := g[k][i][t] for every service
      (or standby duty) k, staff member i and day t, in the order k, i, t. The row
      nouveauX[i][t] the rules sum is exactly Across(g, i, t). */
  method TransposeParInterne(g: Grid, n1: nat, n2: nat, n3: nat) returns (nx: array3<int>)
    requires IsCube(g, n1, n2, n3)
    ensures nx.Length0 == n2 && nx.Length1 == n3 && nx.Length2 == n1
    ensures forall i, t, k :: 0 <= i < n2 && 0 <= t < n3 && 0 <= k < n1 ==> nx[i, t, k] == g[k][i][t]
    ensures forall i, t :: 0 <= i < n2 && 0 <= t < n3 ==> Fibre(nx, i, t) == Across(g, i, t)
  {
    nx := new int[n2, n3, n1]((_, _, _) => 0);
    var k := 0;
    while k < n1
      invariant 0 <= k <= n1
      invariant forall i, t, k' :: 0 <= i < n2 && 0 <= t < n3 && 0 <= k' < k ==> nx[i, t, k'] == g[k'][i][t]
    {
      var i := 0;
      while i < n2
        invariant 0 <= i <= n2
        invariant forall i', t, k' :: 0 <= i' < n2 && 0 <= t < n3 && 0 <= k' < k ==> nx[i', t, k'] == g[k'][i'][t]
        invariant forall i', t :: 0 <= i' < i && 0 <= t < n3 ==> nx[i', t, k] == g[k][i'][t]
      {
        var t := 0;
        while t < n3
          invariant 0 <= t <= n3
          invariant forall i', t', k' :: 0 <= i' < n2 && 0 <= t' < n3 && 0 <= k' < k ==> nx[i', t', k'] == g[k'][i'][t']
          invariant forall i', t' :: 0 <= i' < i && 0 <= t' < n3 ==> nx[i', t', k] == g[k][i'][t']
          invariant forall t' :: 0 <= t' < t ==> nx[i, t', k] == g[k][i][t']
        {
          nx[i, t, k] := g[k][i][t];
          t := t + 1;
        }
        i := i + 1;
      }
      k := k + 1;
    }
    forall i, t | 0 <= i < n2 && 0 <= t < n3 ensures Fibre(nx, i, t) == Across(g, i, t) {
      assert forall k :: 0 <= k < n1 ==> Fibre(nx, i, t)[k] == Across(g, i, t)[k];
    }
  }

  /** The per-service transposition: nouveau[k][t][i] := g[k][i][t], into an array
      allocated with `rows` planes. The write to plane k happens once there is a staff
      member and a day, so every plane written must exist. Planes k >= n1 are never
      written. The row nouveau[k][t] the rules sum is exactly Column(g[k], t). */
  method TransposeParService(g: Grid, rows: nat, n1: nat, n2: nat, n3: nat) returns (nx: array3<int>)
    requires IsCube(g, n1, n2, n3)
    requires n1 <= rows || n2 == 0 || n3 == 0
    ensures nx.Length0 == rows && nx.Length1 == n3 && nx.Length2 == n2
    ensures forall k, t, i :: 0 <= t < n3 && 0 <= i < n2 && 0 <= k < n1 ==> nx[k, t, i] == g[k][i][t]
    ensures forall k, t, i :: n1 <= k < rows && 0 <= t < n3 && 0 <= i < n2 ==> nx[k, t, i] == 0
    ensures forall k, t :: 0 <= k < n1 && 0 <= k < rows && 0 <= t < n3 ==> Fibre(nx, k, t) == Column(g[k], t)
  {
    nx := new int[rows, n3, n2]((_, _, _) => 0);
    var k := 0;
    while k < n1
      invariant 0 <= k <= n1
      invariant forall k', t, i :: 0 <= t < n3 && 0 <= i < n2 && 0 <= k' < k ==> nx[k', t, i] == g[k'][i][t]
      invariant forall k', t, i :: k <= k' < rows && 0 <= t < n3 && 0 <= i < n2 ==> nx[k', t, i] == 0
    {
      var i := 0;
      while i < n2
        invariant 0 <= i <= n2
        invariant forall k', t, i' :: 0 <= t < n3 && 0 <= i' < n2 && 0 <= k' < k ==> nx[k', t, i'] == g[k'][i'][t]
        invariant forall k', t, i' :: k < k' < rows && 0 <= t < n3 && 0 <= i' < n2 ==> nx[k', t, i'] == 0
        invariant k < rows || n3 == 0 || i == 0
        invariant k < rows ==> forall t, i' :: 0 <= t < n3 && 0 <= i' < n2 ==>
          nx[k, t, i'] == if i' < i then g[k][i'][t] else 0
      {
        var t := 0;
        while t < n3
          invariant 0 <= t <= n3
          invariant forall k', t', i' :: 0 <= t' < n3 && 0 <= i' < n2 && 0 <= k' < k ==> nx[k', t', i'] == g[k'][i'][t']
          invariant forall k', t', i' :: k < k' < rows && 0 <= t' < n3 && 0 <= i' < n2 ==> nx[k', t', i'] == 0
          invariant k < rows || t == 0
          invariant k < rows ==> forall t', i' :: 0 <= t' < n3 && 0 <= i' < n2 ==>
            nx[k, t', i'] == if i' < i || (i' == i && t' < t) then g[k][i'][t'] else 0
        {
          nx[k, t, i] := g[k][i][t];
          t := t + 1;
        }
        i := i + 1;
      }
      k := k + 1;
    }
    forall k, t | 0 <= k < n1 && 0 <= k < rows && 0 <= t < n3 ensures Fibre(nx, k, t) == Column(g[k], t) {
      assert forall i :: 0 <= i < n2 ==> Fibre(nx, k, t)[i] == Column(g[k], t)[i];
    }
  }

  // ---------------------------------------------------------------------------
  // The cpt-indexed gathers: for each staff member i, walk the services (or duties)
  // k and the days t in that order, and append g[k][i][t] at position cpt when the
  // mask keeps (k, t); cpt restarts at 0 for every staff member.

  /** The cells row[t], t < n, whose mask entry is set, in day order. */
  function Filter(row: seq<int>, mask: seq<bool>, n: nat): seq<int>
    requires n <= |row| && n <= |mask|
  {
    if n == 0 then [] else Filter(row, mask, n - 1) + (if mask[n - 1] then [row[n - 1]] else [])
  }

  /** The number of set entries among the first n of a mask. */
  function CountTrue(mask: seq<bool>, n: nat): nat
    requires n <= |mask|
  {
    if n == 0 then 0 else CountTrue(mask, n - 1) + (if mask[n - 1] then 1 else 0)
  }

  /** The number of set entries in the first s rows of a mask of width n3. */
  function KeptCount(keep: seq<seq<bool>>, n3: nat, s: nat): nat
    requires IsMatrix(keep, |keep|, n3) && s <= |keep|
  {
    if s == 0 then 0 else KeptCount(keep, n3, s - 1) + CountTrue(keep[s - 1], n3)
  }

  /** The row gathered for staff member i over the first s services: the kept cells
      of g[0][i], then those of g[1][i], and so on. */
  function Kept(g: Grid, n1: nat, n2: nat, n3: nat, keep: seq<seq<bool>>, i: nat, s: nat): seq<int>
    requires IsCube(g, n1, n2, n3) && IsMatrix(keep, n1, n3) && i < n2 && s <= n1
  {
    if s == 0 then [] else Kept(g, n1, n2, n3, keep, i, s - 1) + Filter(g[s - 1][i], keep[s - 1], n3)
  }

  /** Cell c of a row of which only the prefix q was written. */
  function Padded(q: seq<int>, c: nat): int {
    if c < |q| then q[c] else 0
  }

  lemma {:induction false} FilterLength(row: seq<int>, mask: seq<bool>, n: nat)
    requires n <= |row| && n <= |mask|
    ensures |Filter(row, mask, n)| == CountTrue(mask, n)
  {
    if n > 0 {
      FilterLength(row, mask, n - 1);
    }
  }

  lemma {:induction false} CountTrueMono(mask: seq<bool>, n: nat, m: nat)
    requires n <= m <= |mask|
    ensures CountTrue(mask, n) <= CountTrue(mask, m)
    decreases m - n
  {
    if n < m {
      CountTrueMono(mask, n + 1, m);
    }
  }

  lemma {:induction false} KeptCountMono(keep: seq<seq<bool>>, n3: nat, s: nat, m: nat)
    requires IsMatrix(keep, |keep|, n3) && s <= m <= |keep|
    ensures KeptCount(keep, n3, s) <= KeptCount(keep, n3, m)
    decreases m - s
  {
    if s < m {
      KeptCountMono(keep, n3, s + 1, m);
    }
  }

  /** The gathered row of any staff member holds as many cells as the mask keeps. */
  lemma {:induction false} KeptLength(g: Grid, n1: nat, n2: nat, n3: nat, keep: seq<seq<bool>>, i: nat, s: nat)
    requires IsCube(g, n1, n2, n3) && IsMatrix(keep, n1, n3) && i < n2 && s <= n1
    ensures |Kept(g, n1, n2, n3, keep, i, s)| == KeptCount(keep, n3, s)
  {
    if s > 0 {
      KeptLength(g, n1, n2, n3, keep, i, s - 1);
      FilterLength(g[s - 1][i], keep[s - 1], n3);
    }
  }

  /** While service s is being walked, the next kept cell still fits in the whole count. */
  lemma GatherRoom(keep: seq<seq<bool>>, n1: nat, n3: nat, s: nat, t: nat)
    requires IsMatrix(keep, n1, n3) && s < n1 && t < n3 && keep[s][t]
    ensures KeptCount(keep, n3, s) + CountTrue(keep[s], t) < KeptCount(keep, n3, n1)
  {
    CountTrueMono(keep[s], t + 1, n3);
    KeptCountMono(keep, n3, s + 1, n1);
  }

  /** The body of a gather loop for staff member i: the kept cells of row i, service by
      service and day by day, written from column 0; the other rows are left alone. */
  method GatherRow(rows: array2<int>, g: Grid, n1: nat, n2: nat, n3: nat, keep: seq<seq<bool>>, i: nat)
    requires IsCube(g, n1, n2, n3) && IsMatrix(keep, n1, n3) && i < n2
    requires rows.Length0 == n2 && KeptCount(keep, n3, n1) <= rows.Length1
    requires forall c :: 0 <= c < rows.Length1 ==> rows[i, c] == 0
    modifies rows
    ensures forall c :: 0 <= c < rows.Length1 ==> rows[i, c] == Padded(Kept(g, n1, n2, n3, keep, i, n1), c)
    ensures forall i', c :: 0 <= i' < n2 && i' != i && 0 <= c < rows.Length1 ==> rows[i', c] == old(rows[i', c])
  {
    var width := rows.Length1;
    var cpt := 0;
    var s := 0;
    while s < n1
      invariant 0 <= s <= n1
      invariant cpt == KeptCount(keep, n3, s)
      invariant forall i', c :: 0 <= i' < n2 && i' != i && 0 <= c < width ==> rows[i', c] == old(rows[i', c])
      invariant forall c :: 0 <= c < width ==> rows[i, c] == Padded(Kept(g, n1, n2, n3, keep, i, s), c)
    {
      KeptLength(g, n1, n2, n3, keep, i, s);
      cpt := GatherService(rows, g, n1, n2, n3, keep, i, s, cpt);
      s := s + 1;
    }
  }

  /** The day loop of a gather for service s of staff member i: its kept days appended
      to row i at cpt. */
  method GatherService(rows: array2<int>, g: Grid, n1: nat, n2: nat, n3: nat, keep: seq<seq<bool>>,
                       i: nat, s: nat, cpt: nat) returns (next: nat)
    requires IsCube(g, n1, n2, n3) && IsMatrix(keep, n1, n3) && i < n2 && s < n1
    requires rows.Length0 == n2 && KeptCount(keep, n3, n1) <= rows.Length1
    requires cpt == KeptCount(keep, n3, s) == |Kept(g, n1, n2, n3, keep, i, s)|
    requires forall c :: 0 <= c < rows.Length1 ==> rows[i, c] == Padded(Kept(g, n1, n2, n3, keep, i, s), c)
    modifies rows
    ensures next == KeptCount(keep, n3, s + 1)
    ensures forall c :: 0 <= c < rows.Length1 ==> rows[i, c] == Padded(Kept(g, n1, n2, n3, keep, i, s + 1), c)
    ensures forall i', c :: 0 <= i' < n2 && i' != i && 0 <= c < rows.Length1 ==> rows[i', c] == old(rows[i', c])
  {
    ghost var before := Kept(g, n1, n2, n3, keep, i, s);
    next := cpt;
    var t := 0;
    while t < n3
      invariant 0 <= t <= n3
      invariant next == KeptCount(keep, n3, s) + CountTrue(keep[s], t)
      invariant forall i', c :: 0 <= i' < n2 && i' != i && 0 <= c < rows.Length1 ==> rows[i', c] == old(rows[i', c])
      invariant forall c :: 0 <= c < rows.Length1 ==> rows[i, c] == Padded(before + Filter(g[s][i], keep[s], t), c)
    {
      FilterLength(g[s][i], keep[s], t);
      if keep[s][t] {
        GatherRoom(keep, n1, n3, s, t);
        rows[i, next] := g[s][i][t];
        next := next + 1;
      }
      t := t + 1;
    }
  }

  /** One gather loop of the source (equilibreGarde, equilibreSamu, equilibreJSD,
      equilibreAstreinte), with the condition of its body as the mask. The rows are
      allocated width cells wide; the loop overflows them exactly when there is a
      staff member and the mask keeps more than width cells. */
  method GatherParInterne(g: Grid, n1: nat, n2: nat, n3: nat, keep: seq<seq<bool>>, width: nat)
    returns (rows: array2<int>)
    requires IsCube(g, n1, n2, n3) && IsMatrix(keep, n1, n3)
    requires n2 == 0 || KeptCount(keep, n3, n1) <= width
    ensures rows.Length0 == n2 && rows.Length1 == width
    ensures forall i, c :: 0 <= i < n2 && 0 <= c < width ==>
      rows[i, c] == Padded(Kept(g, n1, n2, n3, keep, i, n1), c)
  {
    rows := new int[n2, width]((_, _) => 0);
    for i := 0 to n2
      invariant forall i', c :: 0 <= i' < n2 && 0 <= c < width ==>
        rows[i', c] == if i' < i then Padded(Kept(g, n1, n2, n3, keep, i', n1), c) else 0
    {
      GatherRow(rows, g, n1, n2, n3, keep, i);
    }
  }

  /** The row a[i, ..] of a two-dimensional array. */
  function Row(a: array2<int>, i: nat): seq<int>
    reads a
    requires i < a.Length0
  {
    seq(a.Length1, c requires 0 <= c < a.Length1 reads a => a[i, c])
  }

  /** A row whose first |q| cells hold q and whose other cells were never written sums to Sum(q). */
  lemma {:induction false} PaddedSum(q: seq<int>, w: nat)
    requires |q| <= w
    ensures Sum(seq(w, c requires 0 <= c < w => Padded(q, c))) == Sum(q)
  {
    var r := seq(w, c requires 0 <= c < w => Padded(q, c));
    if w == |q| {
      assert r == q;
    } else {
      PaddedSum(q, w - 1);
      assert r[..w - 1] == seq(w - 1, c requires 0 <= c < w - 1 => Padded(q, c));
    }
  }

  lemma RowSum(a: array2<int>, i: nat, q: seq<int>)
    requires i < a.Length0 && |q| <= a.Length1
    requires forall c :: 0 <= c < a.Length1 ==> a[i, c] == Padded(q, c)
    ensures Sum(Row(a, i)) == Sum(q)
  {
    assert Row(a, i) == seq(a.Length1, c requires 0 <= c < a.Length1 => Padded(q, c));
    PaddedSum(q, a.Length1);
  }

  // Masks of the four gathers, and what their gathered rows are.

  /** equilibreGarde and equilibreAstreinte keep every cell. */
  function AllKept(n1: nat, n3: nat): (keep: seq<seq<bool>>)
    ensures IsMatrix(keep, n1, n3)
    ensures forall k, t :: 0 <= k < n1 && 0 <= t < n3 ==> keep[k][t]
  {
    seq(n1, _ => seq(n3, _ => true))
  }

  /** equilibreJSD keeps, in every service, the literal day d and nothing else. */
  function DayKept(n1: nat, n3: nat, d: nat): (keep: seq<seq<bool>>)
    ensures IsMatrix(keep, n1, n3)
    ensures forall k, t :: 0 <= k < n1 && 0 <= t < n3 ==> (keep[k][t] <==> t == d)
  {
    seq(n1, _ => seq(n3, t => t == d))
  }

  lemma {:induction false} FilterAll(row: seq<int>, mask: seq<bool>, n: nat)
    requires n <= |row| && n <= |mask| && forall t :: 0 <= t < n ==> mask[t]
    ensures Filter(row, mask, n) == row[..n]
  {
    if n > 0 {
      FilterAll(row, mask, n - 1);
      assert row[..n] == row[..n - 1] + [row[n - 1]];
    }
  }

  lemma {:induction false} FilterNone(row: seq<int>, mask: seq<bool>, n: nat)
    requires n <= |row| && n <= |mask| && forall t :: 0 <= t < n ==> !mask[t]
    ensures Filter(row, mask, n) == []
  {
    if n > 0 {
      FilterNone(row, mask, n - 1);
    }
  }

  lemma {:induction false} FilterDay(row: seq<int>, mask: seq<bool>, n: nat, d: nat)
    requires n <= |row| && n <= |mask| && forall t :: 0 <= t < n ==> (mask[t] <==> t == d)
    ensures Filter(row, mask, n) == if d < n then [row[d]] else []
  {
    if n > 0 {
      FilterDay(row, mask, n - 1, d);
    }
  }

  /** With every cell kept, the gathered row of staff member i is Flatten(StaffRows(g, i)). */
  lemma {:induction false} KeptAll(g: Grid, n1: nat, n2: nat, n3: nat, i: nat, s: nat)
    requires IsCube(g, n1, n2, n3) && i < n2 && s <= n1
    ensures Kept(g, n1, n2, n3, AllKept(n1, n3), i, s) == Flatten(StaffRows(g, i)[..s])
  {
    if s > 0 {
      KeptAll(g, n1, n2, n3, i, s - 1);
      FilterAll(g[s - 1][i], AllKept(n1, n3)[s - 1], n3);
      assert g[s - 1][i][..n3] == g[s - 1][i];
      FlattenPrefixStep(StaffRows(g, i), s - 1);
    }
  }

  /** With day d kept, the gathered row of staff member i is the first s cells of
      Across(g, i, d), or nothing when day d lies beyond the horizon. */
  lemma {:induction false} KeptDay(g: Grid, n1: nat, n2: nat, n3: nat, d: nat, i: nat, s: nat)
    requires IsCube(g, n1, n2, n3) && i < n2 && s <= n1
    ensures Kept(g, n1, n2, n3, DayKept(n1, n3, d), i, s) == if d < n3 then Across(g, i, d)[..s] else []
  {
    if s > 0 {
      KeptDay(g, n1, n2, n3, d, i, s - 1);
      FilterDay(g[s - 1][i], DayKept(n1, n3, d)[s - 1], n3, d);
      if d < n3 {
        assert Across(g, i, d)[..s] == Across(g, i, d)[..s - 1] + [g[s - 1][i][d]];
      }
    }
  }

  /** The rows of nbGardesInterne (equilibreGarde): row i holds the shifts of staff member
      i service by service, all nbServices * nbJours cells written; its sum is the count
      EquilibreGarde bounds. */
  method NbGardesInterne(p: Planning, x: Grid) returns (rows: array2<int>)
    requires p.Valid() && p.ShiftGrid(x)
    ensures rows.Length0 == p.nbInternes && rows.Length1 == p.nbServices * p.nbJours
    ensures forall i :: 0 <= i < p.nbInternes ==> |Flatten(StaffRows(x, i))| == rows.Length1
    ensures forall i, c :: 0 <= i < p.nbInternes && 0 <= c < rows.Length1 ==>
      rows[i, c] == Flatten(StaffRows(x, i))[c]
    ensures forall i :: 0 <= i < p.nbInternes ==> Sum(Row(rows, i)) == Sum(Flatten(StaffRows(x, i)))
  {
    var keep := AllKept(p.nbServices, p.nbJours);
    forall i | 0 <= i < p.nbInternes
      ensures Kept(x, p.nbServices, p.nbInternes, p.nbJours, keep, i, p.nbServices) == Flatten(StaffRows(x, i))
      ensures |Flatten(StaffRows(x, i))| == p.nbServices * p.nbJours
    {
      KeptAll(x, p.nbServices, p.nbInternes, p.nbJours, i, p.nbServices);
      assert StaffRows(x, i)[..p.nbServices] == StaffRows(x, i);
      FlattenAt(StaffRows(x, i), p.nbServices, p.nbJours);
    }
    KeptLength(x, p.nbServices, p.nbInternes, p.nbJours, keep, 0, p.nbServices);
    rows := GatherParInterne(x, p.nbServices, p.nbInternes, p.nbJours, keep, p.nbServices * p.nbJours);
    forall i | 0 <= i < p.nbInternes ensures Sum(Row(rows, i)) == Sum(Flatten(StaffRows(x, i))) {
      RowSum(rows, i, Flatten(StaffRows(x, i)));
    }
  }

  /** The rows of nbAstreinteInterne (equilibreAstreinte): allocated nbJours wide, row i
      receives the standby days of staff member i duty by duty. */
  method NbAstreinteInterne(p: Planning, y: Grid) returns (rows: array2<int>)
    requires p.Valid() && p.StandbyGrid(y) && p.AstreinteIndexable()
    ensures rows.Length0 == p.nbInternes && rows.Length1 == p.nbJours
    ensures forall i, c :: 0 <= i < p.nbInternes && 0 <= c < p.nbJours ==>
      rows[i, c] == Padded(Flatten(StaffRows(y, i)), c)
    ensures forall i :: 0 <= i < p.nbInternes ==> Sum(Row(rows, i)) == Sum(Flatten(StaffRows(y, i)))
  {
    var keep := AllKept(p.nbAstreintes, p.nbJours);
    forall i | 0 <= i < p.nbInternes
      ensures Kept(y, p.nbAstreintes, p.nbInternes, p.nbJours, keep, i, p.nbAstreintes) == Flatten(StaffRows(y, i))
      ensures |Flatten(StaffRows(y, i))| == p.nbAstreintes * p.nbJours
    {
      KeptAll(y, p.nbAstreintes, p.nbInternes, p.nbJours, i, p.nbAstreintes);
      assert StaffRows(y, i)[..p.nbAstreintes] == StaffRows(y, i);
      FlattenAt(StaffRows(y, i), p.nbAstreintes, p.nbJours);
    }
    KeptLength(y, p.nbAstreintes, p.nbInternes, p.nbJours, keep, 0, p.nbAstreintes);
    if p.nbAstreintes <= 1 {
      MulMono(p.nbAstreintes, 1, p.nbJours);
    }
    rows := GatherParInterne(y, p.nbAstreintes, p.nbInternes, p.nbJours, keep, p.nbJours);
    forall i | 0 <= i < p.nbInternes ensures Sum(Row(rows, i)) == Sum(Flatten(StaffRows(y, i))) {
      RowSum(rows, i, Flatten(StaffRows(y, i)));
    }
  }

  /** equilibreSamu keeps every day of the services named SAMU and nothing of the others. */
  function SamuKept(p: Planning): (keep: seq<seq<bool>>)
    requires p.Valid()
    ensures IsMatrix(keep, p.nbServices, p.nbJours)
    ensures forall k, t :: 0 <= k < p.nbServices && 0 <= t < p.nbJours ==>
      (keep[k][t] <==> p.nomServices[k] == SAMU)
  {
    seq(p.nbServices, k requires 0 <= k < p.nbServices => seq(p.nbJours, _ => p.nomServices[k] == SAMU))
  }

  /** With the SAMU mask, the gathered row of staff member i is Flatten(SamuRows(x, i)). */
  lemma {:induction false} KeptSamu(p: Planning, x: Grid, i: nat, s: nat)
    requires p.Valid() && p.ShiftGrid(x) && i < p.nbInternes && s <= p.nbServices
    ensures Kept(x, p.nbServices, p.nbInternes, p.nbJours, SamuKept(p), i, s) == Flatten(p.SamuRows(x, i)[..s])
  {
    if s > 0 {
      KeptSamu(p, x, i, s - 1);
      var rows := p.SamuRows(x, i);
      var row := x[s - 1][i];
      var mask := SamuKept(p)[s - 1];
      if p.nomServices[s - 1] == SAMU {
        FilterAll(row, mask, p.nbJours);
        assert row[..p.nbJours] == row;
      } else {
        FilterNone(row, mask, p.nbJours);
      }
      KeptStep(x, p.nbServices, p.nbInternes, p.nbJours, SamuKept(p), i, s, rows);
    }
  }

  /** One service more in a gather that matches a list of rows, row by row. */
  lemma KeptStep(g: Grid, n1: nat, n2: nat, n3: nat, keep: seq<seq<bool>>, i: nat, s: nat, rows: seq<seq<int>>)
    requires IsCube(g, n1, n2, n3) && IsMatrix(keep, n1, n3) && i < n2 && 0 < s <= n1 && s <= |rows|
    requires Kept(g, n1, n2, n3, keep, i, s - 1) == Flatten(rows[..s - 1])
    requires Filter(g[s - 1][i], keep[s - 1], n3) == rows[s - 1]
    ensures Kept(g, n1, n2, n3, keep, i, s) == Flatten(rows[..s])
  {
    FlattenPrefixStep(rows, s - 1);
  }

  /** The SAMU row of a staff member holds nbJours cells per service named SAMU. */
  lemma {:induction false} SamuLength(p: Planning, x: Grid, i: nat, s: nat)
    requires p.Valid() && p.ShiftGrid(x) && i < p.nbInternes && s <= p.nbServices
    ensures |Flatten(p.SamuRows(x, i)[..s])| == SamuCount(p.nomServices, s) * p.nbJours
  {
    if s > 0 {
      SamuLength(p, x, i, s - 1);
      var rs := p.SamuRows(x, i);
      FlattenPrefixStep(rs, s - 1);
      var c := SamuCount(p.nomServices, s - 1);
      var d := p.nbJours;
      assert |Flatten(rs[..s])| == c * d + |rs[s - 1]|;
      if p.nomServices[s - 1] == SAMU {
        assert |rs[s - 1]| == d;
        assert SamuCount(p.nomServices, s) == c + 1;
        Distrib(c, 1, d);
      } else {
        assert |rs[s - 1]| == 0;
      }
    }
  }

  /** The rows of nbGardesInterne in equilibreSamu: allocated nbJours wide, row i receives
      the SAMU shifts of staff member i; its sum is the count EquilibreSamu bounds. */
  method SamuParInterne(p: Planning, x: Grid) returns (rows: array2<int>)
    requires p.Valid() && p.ShiftGrid(x) && p.SamuIndexable()
    ensures rows.Length0 == p.nbInternes && rows.Length1 == p.nbJours
    ensures forall i, c :: 0 <= i < p.nbInternes && 0 <= c < p.nbJours ==>
      rows[i, c] == Padded(Flatten(p.SamuRows(x, i)), c)
    ensures forall i :: 0 <= i < p.nbInternes ==> Sum(Row(rows, i)) == Sum(Flatten(p.SamuRows(x, i)))
  {
    var keep := SamuKept(p);
    var n := SamuCount(p.nomServices, p.nbServices);
    forall i | 0 <= i < p.nbInternes
      ensures Kept(x, p.nbServices, p.nbInternes, p.nbJours, keep, i, p.nbServices) == Flatten(p.SamuRows(x, i))
      ensures |Flatten(p.SamuRows(x, i))| == n * p.nbJours
    {
      KeptSamu(p, x, i, p.nbServices);
      SamuLength(p, x, i, p.nbServices);
      assert p.SamuRows(x, i)[..p.nbServices] == p.SamuRows(x, i);
    }
    KeptLength(x, p.nbServices, p.nbInternes, p.nbJours, keep, 0, p.nbServices);
    if n <= 1 {
      MulMono(n, 1, p.nbJours);
    }
    rows := GatherParInterne(x, p.nbServices, p.nbInternes, p.nbJours, keep, p.nbJours);
    forall i | 0 <= i < p.nbInternes ensures Sum(Row(rows, i)) == Sum(Flatten(p.SamuRows(x, i))) {
      RowSum(rows, i, Flatten(p.SamuRows(x, i)));
    }
  }

  /** One of the equilibreJSD rows for the literal day d, nbJours / 7 + 1 cells wide: row i
      receives x[s][i][d] for every service s when day d is inside the horizon. */
  method JourParInterne(p: Planning, x: Grid, d: nat) returns (rows: array2<int>)
    requires p.Valid() && p.ShiftGrid(x)
    requires p.nbJours <= d || p.nbServices <= p.nbJours / NB_JOURS_SEMAINE + 1
    ensures rows.Length0 == p.nbInternes && rows.Length1 == p.nbJours / NB_JOURS_SEMAINE + 1
    ensures forall i, c :: 0 <= i < p.nbInternes && 0 <= c < rows.Length1 ==>
      rows[i, c] == Padded(p.JourLitteral(x, i, d), c)
    ensures forall i :: 0 <= i < p.nbInternes ==> Sum(Row(rows, i)) == Sum(p.JourLitteral(x, i, d))
  {
    var keep := DayKept(p.nbServices, p.nbJours, d);
    var width := p.nbJours / NB_JOURS_SEMAINE + 1;
    forall i | 0 <= i < p.nbInternes
      ensures Kept(x, p.nbServices, p.nbInternes, p.nbJours, keep, i, p.nbServices) == p.JourLitteral(x, i, d)
    {
      KeptDay(x, p.nbServices, p.nbInternes, p.nbJours, d, i, p.nbServices);
      if d < p.nbJours {
        assert Across(x, i, d)[..p.nbServices] == Across(x, i, d);
      }
    }
    KeptLength(x, p.nbServices, p.nbInternes, p.nbJours, keep, 0, p.nbServices);
    rows := GatherParInterne(x, p.nbServices, p.nbInternes, p.nbJours, keep, width);
    forall i | 0 <= i < p.nbInternes ensures Sum(Row(rows, i)) == Sum(p.JourLitteral(x, i, d)) {
      RowSum(rows, i, p.JourLitteral(x, i, d));
    }
  }

  /** The jeudis, samedis and dimanches rows of equilibreJSD (literal days 3, 5 and 6). */
  method JsdParInterne(p: Planning, x: Grid) returns (jeudis: array2<int>, samedis: array2<int>, dimanches: array2<int>)
    requires p.Valid() && p.ShiftGrid(x) && p.JSDIndexable()
    ensures forall i :: 0 <= i < p.nbInternes ==>
      && i < jeudis.Length0 && Sum(Row(jeudis, i)) == Sum(p.JourLitteral(x, i, JEUDI))
      && i < samedis.Length0 && Sum(Row(samedis, i)) == Sum(p.JourLitteral(x, i, SAMEDI))
      && i < dimanches.Length0 && Sum(Row(dimanches, i)) == Sum(p.JourLitteral(x, i, DIMANCHE))
  {
    jeudis := JourParInterne(p, x, JEUDI);
    samedis := JourParInterne(p, x, SAMEDI);
    dimanches := JourParInterne(p, x, DIMANCHE);
  }

  // ---------------------------------------------------------------------------
  // The index conditions of the gathers: each Indexable predicate of the planning holds
  // exactly when the cells a gather writes into every row fit the row's allocated width
  // (the precondition of GatherParInterne, there being at least one staff member).

  lemma {:induction false} CountTrueConst(mask: seq<bool>, n: nat, b: bool)
    requires n <= |mask| && forall t :: 0 <= t < n ==> mask[t] == b
    ensures CountTrue(mask, n) == if b then n else 0
  {
    if n > 0 {
      CountTrueConst(mask, n - 1, b);
    }
  }

  lemma {:induction false} CountTrueDay(mask: seq<bool>, n: nat, d: nat)
    requires n <= |mask| && forall t :: 0 <= t < n ==> (mask[t] <==> t == d)
    ensures CountTrue(mask, n) == if d < n then 1 else 0
  {
    if n > 0 {
      CountTrueDay(mask, n - 1, d);
    }
  }

  /** equilibreGarde and equilibreAstreinte write nbJours cells per service (or duty). */
  lemma {:induction false} KeptCountAll(n1: nat, n3: nat, s: nat)
    requires s <= n1
    ensures KeptCount(AllKept(n1, n3), n3, s) == s * n3
  {
    if s > 0 {
      KeptCountAll(n1, n3, s - 1);
      CountTrueConst(AllKept(n1, n3)[s - 1], n3, true);
      Distrib(s - 1, 1, n3);
    }
  }

  /** equilibreSamu writes nbJours cells per service named SAMU. */
  lemma {:induction false} KeptCountSamu(p: Planning, s: nat)
    requires p.Valid() && s <= p.nbServices
    ensures KeptCount(SamuKept(p), p.nbJours, s) == SamuCount(p.nomServices, s) * p.nbJours
  {
    if s > 0 {
      KeptCountSamu(p, s - 1);
      CountTrueConst(SamuKept(p)[s - 1], p.nbJours, p.nomServices[s - 1] == SAMU);
      Distrib(SamuCount(p.nomServices, s - 1), 1, p.nbJours);
    }
  }

  /** equilibreJSD writes one cell per service for a literal day inside the horizon. */
  lemma {:induction false} KeptCountDay(n1: nat, n3: nat, d: nat, s: nat)
    requires s <= n1
    ensures KeptCount(DayKept(n1, n3, d), n3, s) == if d < n3 then s else 0
  {
    if s > 0 {
      KeptCountDay(n1, n3, d, s - 1);
      CountTrueDay(DayKept(n1, n3, d)[s - 1], n3, d);
    }
  }

  /** k rows of n cells fit in n cells exactly when k <= 1 or n == 0. */
  lemma TimesFits(k: nat, n: nat)
    ensures k * n <= n <==> k <= 1 || n == 0
  {
    if k >= 2 && n > 0 {
      MulMono(2, k, n);
    }
    if k <= 1 {
      MulMono(k, 1, n);
    }
  }

  lemma AstreinteIndexableIsFit(p: Planning)
    requires p.Valid()
    ensures p.AstreinteIndexable() <==> KeptCount(AllKept(p.nbAstreintes, p.nbJours), p.nbJours, p.nbAstreintes) <= p.nbJours
  {
    KeptCountAll(p.nbAstreintes, p.nbJours, p.nbAstreintes);
    TimesFits(p.nbAstreintes, p.nbJours);
  }

  lemma SamuIndexableIsFit(p: Planning)
    requires p.Valid()
    ensures p.SamuIndexable() <==> KeptCount(SamuKept(p), p.nbJours, p.nbServices) <= p.nbJours
  {
    KeptCountSamu(p, p.nbServices);
    TimesFits(SamuCount(p.nomServices, p.nbServices), p.nbJours);
  }

  lemma JSDIndexableIsFit(p: Planning)
    requires p.Valid()
    ensures p.JSDIndexable() <==>
      && KeptCount(DayKept(p.nbServices, p.nbJours, JEUDI), p.nbJours, p.nbServices) <= p.nbJours / NB_JOURS_SEMAINE + 1
      && KeptCount(DayKept(p.nbServices, p.nbJours, SAMEDI), p.nbJours, p.nbServices) <= p.nbJours / NB_JOURS_SEMAINE + 1
      && KeptCount(DayKept(p.nbServices, p.nbJours, DIMANCHE), p.nbJours, p.nbServices) <= p.nbJours / NB_JOURS_SEMAINE + 1
  {
    KeptCountDay(p.nbServices, p.nbJours, JEUDI, p.nbServices);
    KeptCountDay(p.nbServices, p.nbJours, SAMEDI, p.nbServices);
    KeptCountDay(p.nbServices, p.nbJours, DIMANCHE, p.nbServices);
  }

  // ---------------------------------------------------------------------------
  // indisponibiliteSouple: every service of every soft-unavailable (staff, day), in
  // staff, day, service order, into one array sized by first counting the flags.

  /** The soft-unavailable days of staff member i among the first t. */
  function SoftFlagsRow(p: Planning, i: nat, t: nat): nat
    requires p.Valid() && i < p.nbInternes && t <= p.nbJours
  {
    if t == 0 then 0 else SoftFlagsRow(p, i, t - 1) + (if p.indispoSouple[i][t - 1] then 1 else 0)
  }

  /** The soft-unavailable (staff, day) pairs of the first n staff members. */
  function SoftFlags(p: Planning, n: nat): nat
    requires p.Valid() && n <= p.nbInternes
  {
    if n == 0 then 0 else SoftFlags(p, n - 1) + SoftFlagsRow(p, n - 1, p.nbJours)
  }

  /** The number of cells gathered for staff member i over the first t days. */
  function SoftCellsRow(p: Planning, i: nat, t: nat): nat
    requires p.Valid() && i < p.nbInternes && t <= p.nbJours
  {
    if t == 0 then 0 else SoftCellsRow(p, i, t - 1) + (if p.indispoSouple[i][t - 1] then p.nbServices else 0)
  }

  /** The number of cells gathered for the first n staff members. */
  function SoftCells(p: Planning, n: nat): nat
    requires p.Valid() && n <= p.nbInternes
  {
    if n == 0 then 0 else SoftCells(p, n - 1) + SoftCellsRow(p, n - 1, p.nbJours)
  }

  /** The cells gathered for staff member i over the first t days. */
  function SoftRow(p: Planning, x: Grid, i: nat, t: nat): (r: seq<int>)
    requires p.Valid() && p.ShiftGrid(x) && i < p.nbInternes && t <= p.nbJours
    ensures |r| == SoftCellsRow(p, i, t)
  {
    if t == 0 then []
    else SoftRow(p, x, i, t - 1) + (if p.indispoSouple[i][t - 1] then Across(x, i, t - 1) else [])
  }

  /** The cells gathered for the first n staff members. */
  function SoftGather(p: Planning, x: Grid, n: nat): (r: seq<int>)
    requires p.Valid() && p.ShiftGrid(x) && n <= p.nbInternes
    ensures |r| == SoftCells(p, n)
  {
    if n == 0 then [] else SoftGather(p, x, n - 1) + SoftRow(p, x, n - 1, p.nbJours)
  }

  /** nbServices cells are gathered per soft-unavailable day. */
  lemma {:induction false} SoftCellsRowIsFlags(p: Planning, i: nat, t: nat)
    requires p.Valid() && i < p.nbInternes && t <= p.nbJours
    ensures SoftCellsRow(p, i, t) == SoftFlagsRow(p, i, t) * p.nbServices
  {
    if t > 0 {
      SoftCellsRowIsFlags(p, i, t - 1);
      Distrib(SoftFlagsRow(p, i, t - 1), if p.indispoSouple[i][t - 1] then 1 else 0, p.nbServices);
    }
  }

  /** The array length the source computes, flags times nbServices, is the number of
      cells gathered. */
  lemma {:induction false} SoftCellsIsFlags(p: Planning, n: nat)
    requires p.Valid() && n <= p.nbInternes
    ensures SoftCells(p, n) == SoftFlags(p, n) * p.nbServices
  {
    if n > 0 {
      SoftCellsIsFlags(p, n - 1);
      SoftCellsRowIsFlags(p, n - 1, p.nbJours);
      Distrib(SoftFlags(p, n - 1), SoftFlagsRow(p, n - 1, p.nbJours), p.nbServices);
    }
  }

  lemma {:induction false} SoftCellsRowMono(p: Planning, i: nat, t: nat, u: nat)
    requires p.Valid() && i < p.nbInternes && t <= u <= p.nbJours
    ensures SoftCellsRow(p, i, t) <= SoftCellsRow(p, i, u)
    decreases u - t
  {
    if t < u {
      SoftCellsRowMono(p, i, t + 1, u);
    }
  }

  lemma {:induction false} SoftCellsMono(p: Planning, n: nat, m: nat)
    requires p.Valid() && n <= m <= p.nbInternes
    ensures SoftCells(p, n) <= SoftCells(p, m)
    decreases m - n
  {
    if n < m {
      SoftCellsMono(p, n + 1, m);
    }
  }

  /** The first loop of indisponibiliteSouple: the number of soft-unavailable
      (staff, day) pairs. */
  method CompteIndispos(p: Planning) returns (nbIndisposTotal: nat)
    requires p.Valid()
    ensures nbIndisposTotal == SoftFlags(p, p.nbInternes)
  {
    nbIndisposTotal := 0;
    var j := 0;
    while j < p.nbInternes
      invariant 0 <= j <= p.nbInternes
      invariant nbIndisposTotal == SoftFlags(p, j)
    {
      var k := 0;
      while k < p.nbJours
        invariant 0 <= k <= p.nbJours
        invariant nbIndisposTotal == SoftFlags(p, j) + SoftFlagsRow(p, j, k)
      {
        if p.indispoSouple[j][k] {
          nbIndisposTotal := nbIndisposTotal + 1;
        }
        k := k + 1;
      }
      j := j + 1;
    }
  }

  /** The innermost loop of indisponibiliteSouple on a flagged (i, t): every service of
      day t of staff member i, appended at cpt. */
  method AppendAcross(vars: array<int>, cpt: nat, x: Grid, n1: nat, i: nat, t: nat)
    requires |x| == n1 && forall k :: 0 <= k < n1 ==> i < |x[k]| && t < |x[k][i]|
    requires cpt + n1 <= vars.Length
    modifies vars
    ensures vars[..cpt + n1] == old(vars[..cpt]) + Across(x, i, t)
  {
    var iService := 0;
    while iService < n1
      invariant 0 <= iService <= n1
      invariant vars[..cpt + iService] == old(vars[..cpt]) + Across(x, i, t)[..iService]
    {
      ghost var pre := vars[..cpt + iService];
      vars[cpt + iService] := x[iService][i][t];
      assert vars[..cpt + iService + 1] == pre + [x[iService][i][t]];
      assert Across(x, i, t)[..iService + 1] == Across(x, i, t)[..iService] + [x[iService][i][t]];
      iService := iService + 1;
    }
    assert Across(x, i, t)[..n1] == Across(x, i, t);
  }

  /** One day of the day loop of indisponibiliteSouple: on a soft-unavailable day t,
      every service of day t of staff member i appended at cpt. */
  method AppendSoftDay(p: Planning, x: Grid, vars: array<int>, cpt: nat, i: nat, t: nat, ghost front: seq<int>)
    returns (next: nat)
    requires p.Valid() && p.ShiftGrid(x) && i < p.nbInternes && t < p.nbJours
    requires cpt + SoftCellsRow(p, i, t + 1) - SoftCellsRow(p, i, t) <= vars.Length
    requires vars[..cpt] == front + SoftRow(p, x, i, t)
    modifies vars
    ensures next == cpt + SoftCellsRow(p, i, t + 1) - SoftCellsRow(p, i, t)
    ensures vars[..next] == front + SoftRow(p, x, i, t + 1)
  {
    next := cpt;
    ghost var before := SoftRow(p, x, i, t);
    if p.indispoSouple[i][t] {
      ghost var cells := Across(x, i, t);
      assert SoftRow(p, x, i, t + 1) == before + cells;
      assert SoftCellsRow(p, i, t + 1) == SoftCellsRow(p, i, t) + p.nbServices;
      AppendAcross(vars, cpt, x, p.nbServices, i, t);
      next := cpt + p.nbServices;
      AppendAssoc(front, before, cells);
    } else {
      assert SoftRow(p, x, i, t + 1) == before + [];
      assert SoftCellsRow(p, i, t + 1) == SoftCellsRow(p, i, t);
    }
  }

  lemma AppendAssoc(u: seq<int>, v: seq<int>, w: seq<int>)
    ensures (u + v) + w == u + (v + w)
  {
  }

  /** The day loop of indisponibiliteSouple for staff member i: the cells of its
      soft-unavailable days appended at cpt. */
  method AppendSoftRow(p: Planning, x: Grid, vars: array<int>, cpt: nat, i: nat) returns (next: nat)
    requires p.Valid() && p.ShiftGrid(x) && i < p.nbInternes
    requires cpt + SoftCellsRow(p, i, p.nbJours) <= vars.Length
    modifies vars
    ensures next == cpt + SoftCellsRow(p, i, p.nbJours)
    ensures vars[..next] == old(vars[..cpt]) + SoftRow(p, x, i, p.nbJours)
  {
    ghost var front := vars[..cpt];
    next := cpt;
    var t := 0;
    while t < p.nbJours
      invariant 0 <= t <= p.nbJours
      invariant next == cpt + SoftCellsRow(p, i, t) && next <= vars.Length
      invariant vars[..next] == front + SoftRow(p, x, i, t)
    {
      SoftCellsRowMono(p, i, t + 1, p.nbJours);
      next := AppendSoftDay(p, x, vars, next, i, t, front);
      t := t + 1;
    }
  }

  /** The staff loop of indisponibiliteSouple over an array of the gathered size. */
  method RemplirSouple(p: Planning, x: Grid, vars: array<int>)
    requires p.Valid() && p.ShiftGrid(x) && vars.Length == SoftCells(p, p.nbInternes)
    modifies vars
    ensures vars[..] == SoftGather(p, x, p.nbInternes)
  {
    var cpt := 0;
    var i := 0;
    while i < p.nbInternes
      invariant 0 <= i <= p.nbInternes
      invariant cpt == SoftCells(p, i) <= vars.Length
      invariant vars[..cpt] == SoftGather(p, x, i)
    {
      SoftCellsMono(p, i + 1, p.nbInternes);
      ghost var done := SoftGather(p, x, i);
      ghost var row := SoftRow(p, x, i, p.nbJours);
      assert SoftGather(p, x, i + 1) == done + row;
      cpt := AppendSoftRow(p, x, vars, cpt, i);
      assert vars[..cpt] == done + row;
      i := i + 1;
    }
    assert cpt == vars.Length;
    assert vars[..] == vars[..cpt];
  }

  /** indisponibiliteSouple: the array holds nbServices cells per soft-unavailable
      (staff, day) pair, and it is SoftGather: staff by staff, day by day, service by
      service. The counter ends exactly at the array's length. */
  method IndisponibiliteSouple(p: Planning, x: Grid) returns (vars: array<int>)
    requires p.Valid() && p.ShiftGrid(x)
    ensures vars.Length == SoftFlags(p, p.nbInternes) * p.nbServices
    ensures vars[..] == SoftGather(p, x, p.nbInternes)
  {
    var nbIndisposTotal := CompteIndispos(p);
    nbIndisposTotal := nbIndisposTotal * p.nbServices;
    SoftCellsIsFlags(p, p.nbInternes);
    vars := new int[nbIndisposTotal](_ => 0);
    RemplirSouple(p, x, vars);
  }

  // ---------------------------------------------------------------------------
  // solve: every decision variable in one array, the shift grid first, then the
  // standby grid, each service by service, staff by staff, day by day.

  lemma {:induction false} FlattenPrefixMono(rows: seq<seq<int>>, k: nat, m: nat)
    requires k <= m <= |rows|
    ensures |Flatten(rows[..k])| <= |Flatten(rows[..m])|
    decreases m - k
  {
    if k < m {
      FlattenPrefixStep(rows, k);
      FlattenPrefixMono(rows, k + 1, m);
    }
  }

  /** The innermost loop of solve: the days of one row appended at cpt. */
  method AppendRow(v: array<int>, cpt: nat, row: seq<int>)
    requires cpt + |row| <= v.Length
    modifies v
    ensures v[..cpt + |row|] == old(v[..cpt]) + row
  {
    var t := 0;
    while t < |row|
      invariant 0 <= t <= |row|
      invariant v[..cpt + t] == old(v[..cpt]) + row[..t]
    {
      ghost var pre := v[..cpt + t];
      v[cpt + t] := row[t];
      assert v[..cpt + t + 1] == pre + [row[t]];
      assert row[..t + 1] == row[..t] + [row[t]];
      t := t + 1;
    }
    assert row[..|row|] == row;
  }

  /** The two inner loops of solve for one plane: its rows appended at cpt. */
  method AppendPlane(v: array<int>, cpt: nat, rows: seq<seq<int>>) returns (next: nat)
    requires cpt + |Flatten(rows)| <= v.Length
    modifies v
    ensures next == cpt + |Flatten(rows)|
    ensures v[..next] == old(v[..cpt]) + Flatten(rows)
  {
    next := cpt;
    var i := 0;
    while i < |rows|
      invariant 0 <= i <= |rows|
      invariant next == cpt + |Flatten(rows[..i])| && next <= v.Length
      invariant v[..next] == old(v[..cpt]) + Flatten(rows[..i])
    {
      FlattenPrefixStep(rows, i);
      FlattenPrefixMono(rows, i + 1, |rows|);
      assert rows[..|rows|] == rows;
      AppendRow(v, next, rows[i]);
      next := next + |rows[i]|;
      i := i + 1;
    }
    assert rows[..|rows|] == rows;
  }

  /** One of the two triple loops of solve: grid g appended at cpt, plane by plane,
      row by row; the counter ends |Flatten3(g)| further on. */
  method AppendGrid(v: array<int>, cpt: nat, g: Grid) returns (next: nat)
    requires cpt + |Flatten3(g)| <= v.Length
    modifies v
    ensures next == cpt + |Flatten3(g)|
    ensures v[..next] == old(v[..cpt]) + Flatten3(g)
  {
    var planes := Planes(g);
    next := cpt;
    var k := 0;
    while k < |g|
      invariant 0 <= k <= |g|
      invariant next == cpt + |Flatten(planes[..k])| && next <= v.Length
      invariant v[..next] == old(v[..cpt]) + Flatten(planes[..k])
    {
      FlattenPrefixStep(planes, k);
      FlattenPrefixMono(planes, k + 1, |g|);
      assert planes[..|g|] == planes;
      next := AppendPlane(v, next, g[k]);
      k := k + 1;
    }
    assert planes[..|g|] == planes;
  }

  /** The flatten of solve: toutesLesGardes holds the shift grid then the standby grid,
      (nbServices + nbAstreintes) * nbInternes * nbJours cells in all. */
  method Solve(p: Planning, x: Grid, y: Grid) returns (toutesLesGardes: array<int>)
    requires p.Valid() && p.ShiftGrid(x) && p.StandbyGrid(y)
    ensures toutesLesGardes.Length == p.nbServices * p.nbInternes * p.nbJours + p.nbAstreintes * p.nbInternes * p.nbJours
    ensures toutesLesGardes[..] == Flatten3(x) + Flatten3(y)
  {
    PlanesShape(x, p.nbServices, p.nbInternes, p.nbJours);
    PlanesShape(y, p.nbAstreintes, p.nbInternes, p.nbJours);
    toutesLesGardes := new int[p.nbServices * p.nbInternes * p.nbJours + p.nbAstreintes * p.nbInternes * p.nbJours](_ => 0);
    var cpt := 0;
    cpt := AppendGrid(toutesLesGardes, cpt, x);
    cpt := AppendGrid(toutesLesGardes, cpt, y);
    assert toutesLesGardes[..] == toutesLesGardes[..cpt];
  }

  /** Where solve puts a shift variable: x[s][i][t] at (s * nbInternes + i) * nbJours + t. */
  lemma SolvePositionGarde(p: Planning, x: Grid, y: Grid, s: nat, i: nat, t: nat)
    requires p.Valid() && p.ShiftGrid(x) && s < p.nbServices && i < p.nbInternes && t < p.nbJours
    ensures 0 <= (s * p.nbInternes + i) * p.nbJours + t < |Flatten3(x)|
    ensures (Flatten3(x) + Flatten3(y))[(s * p.nbInternes + i) * p.nbJours + t] == x[s][i][t]
  {
    Flatten3Cell(x, p.nbServices, p.nbInternes, p.nbJours, s, i, t);
  }

  /** Where solve puts a standby variable: y[a][i][t] at the same offset as a shift
      variable, after the nbServices * nbInternes * nbJours shift cells. */
  lemma SolvePositionAstreinte(p: Planning, x: Grid, y: Grid, a: nat, i: nat, t: nat)
    requires p.Valid() && p.ShiftGrid(x) && p.StandbyGrid(y) && a < p.nbAstreintes && i < p.nbInternes && t < p.nbJours
    ensures |Flatten3(x)| == p.nbServices * p.nbInternes * p.nbJours
    ensures 0 <= (a * p.nbInternes + i) * p.nbJours + t < |Flatten3(y)|
    ensures (Flatten3(x) + Flatten3(y))[|Flatten3(x)| + (a * p.nbInternes + i) * p.nbJours + t] == y[a][i][t]
  {
    PlanesShape(x, p.nbServices, p.nbInternes, p.nbJours);
    Flatten3Cell(y, p.nbAstreintes, p.nbInternes, p.nbJours, a, i, t);
    ConcatIndex(Flatten3(x), Flatten3(y), (a * p.nbInternes + i) * p.nbJours + t);
  }

  lemma ConcatIndex(u: seq<int>, w: seq<int>, pos: nat)
    requires pos < |w|
    ensures (u + w)[|u| + pos] == w[pos]
  {
  }

  // ---------------------------------------------------------------------------
  // displayResult: the tallies it prints.

  lemma SumRowsPrefixStep(m: seq<seq<int>>, k: nat)
    requires k < |m|
    ensures SumRows(m[..k + 1]) == SumRows(m[..k]) + Sum(m[k])
  {
    assert m[..k + 1][..k] == m[..k];
  }

  /** The day loop of displayResult for staff member i: nb[j, i] accumulates g[j][i][t]
      day by day for every j; no other column changes. */
  method AccumulateStaff(nb: array2<int>, g: Grid, n1: nat, n2: nat, n3: nat, i: nat)
    requires IsCube(g, n1, n2, n3) && i < n2 && nb.Length0 == n1 && nb.Length1 == n2
    requires forall j :: 0 <= j < n1 ==> nb[j, i] == 0
    modifies nb
    ensures forall j :: 0 <= j < n1 ==> nb[j, i] == Sum(g[j][i])
    ensures forall j, i' :: 0 <= j < n1 && 0 <= i' < n2 && i' != i ==> nb[j, i'] == old(nb[j, i'])
  {
    var t := 0;
    while t < n3
      invariant 0 <= t <= n3
      invariant forall j, i' :: 0 <= j < n1 && 0 <= i' < n2 && i' != i ==> nb[j, i'] == old(nb[j, i'])
      invariant forall j :: 0 <= j < n1 ==> nb[j, i] == Sum(g[j][i][..t])
    {
      var j := 0;
      while j < n1
        invariant 0 <= j <= n1
        invariant forall j', i' :: 0 <= j' < n1 && 0 <= i' < n2 && i' != i ==> nb[j', i'] == old(nb[j', i'])
        invariant forall j' :: 0 <= j' < n1 ==> nb[j', i] == if j' < j then Sum(g[j'][i][..t + 1]) else Sum(g[j'][i][..t])
      {
        SumPrefixStep(g[j][i], t);
        nb[j, i] := nb[j, i] + g[j][i][t];
        j := j + 1;
      }
      t := t + 1;
    }
    assert forall j :: 0 <= j < n1 ==> g[j][i][..n3] == g[j][i];
  }

  /** The total loop of displayResult for staff member i: the sum of nb[k, i] over k. */
  method SommeStaff(nb: array2<int>, g: Grid, n1: nat, n2: nat, n3: nat, i: nat) returns (somme: int)
    requires IsCube(g, n1, n2, n3) && i < n2 && nb.Length0 == n1 && nb.Length1 == n2
    requires forall j :: 0 <= j < n1 ==> nb[j, i] == Sum(g[j][i])
    ensures somme == SumRows(StaffRows(g, i))
  {
    somme := 0;
    var k := 0;
    while k < n1
      invariant 0 <= k <= n1
      invariant somme == SumRows(StaffRows(g, i)[..k])
    {
      SumRowsPrefixStep(StaffRows(g, i), k);
      somme := somme + nb[k, i];
      k := k + 1;
    }
    assert StaffRows(g, i)[..n1] == StaffRows(g, i);
  }

  /** One half of displayResult over grid g: the count nb[j, i] of every (j, i), and the
      printed Total of every staff member. */
  method Tally(g: Grid, n1: nat, n2: nat, n3: nat) returns (nb: array2<int>, sommes: array<int>)
    requires IsCube(g, n1, n2, n3)
    ensures nb.Length0 == n1 && nb.Length1 == n2 && sommes.Length == n2
    ensures forall j, i :: 0 <= j < n1 && 0 <= i < n2 ==> nb[j, i] == Sum(g[j][i])
    ensures forall i :: 0 <= i < n2 ==> sommes[i] == SumRows(StaffRows(g, i))
  {
    nb := new int[n1, n2]((_, _) => 0);
    sommes := new int[n2](_ => 0);
    var i := 0;
    while i < n2
      invariant 0 <= i <= n2
      invariant forall j, i' :: 0 <= j < n1 && 0 <= i' < n2 ==> nb[j, i'] == if i' < i then Sum(g[j][i']) else 0
      invariant forall i' :: 0 <= i' < i ==> sommes[i'] == SumRows(StaffRows(g, i'))
    {
      AccumulateStaff(nb, g, n1, n2, n3, i);
      var somme := SommeStaff(nb, g, n1, n2, n3, i);
      sommes[i] := somme;
      i := i + 1;
    }
  }

  /** displayResult without the printing: the per-service and per-duty counts of every
      staff member and their totals. On 0/1 grids a count is the number of days with a
      1, and a total is the count EquilibreGarde (EquilibreAstreinte) bounds. The grids
      are only read. */
  method DisplayResult(p: Planning, x: Grid, y: Grid)
    returns (nbGardes: array2<int>, sommesGardes: array<int>, nbAstr: array2<int>, sommesAstreintes: array<int>)
    requires p.Valid() && p.ShiftGrid(x) && p.StandbyGrid(y)
    ensures nbGardes.Length0 == p.nbServices && nbGardes.Length1 == p.nbInternes && sommesGardes.Length == p.nbInternes
    ensures nbAstr.Length0 == p.nbAstreintes && nbAstr.Length1 == p.nbInternes && sommesAstreintes.Length == p.nbInternes
    ensures forall j, i :: 0 <= j < p.nbServices && 0 <= i < p.nbInternes ==>
      nbGardes[j, i] == Sum(x[j][i]) && (Binary(x) ==> nbGardes[j, i] == CountOnes(x[j][i]))
    ensures forall j, i :: 0 <= j < p.nbAstreintes && 0 <= i < p.nbInternes ==>
      nbAstr[j, i] == Sum(y[j][i]) && (Binary(y) ==> nbAstr[j, i] == CountOnes(y[j][i]))
    ensures forall i :: 0 <= i < p.nbInternes ==>
      sommesGardes[i] == Sum(Flatten(StaffRows(x, i))) && sommesAstreintes[i] == Sum(Flatten(StaffRows(y, i)))
  {
    nbGardes, sommesGardes := Tally(x, p.nbServices, p.nbInternes, p.nbJours);
    nbAstr, sommesAstreintes := Tally(y, p.nbAstreintes, p.nbInternes, p.nbJours);
    forall i | 0 <= i < p.nbInternes
      ensures sommesGardes[i] == Sum(Flatten(StaffRows(x, i))) && sommesAstreintes[i] == Sum(Flatten(StaffRows(y, i)))
    {
      SumFlatten(StaffRows(x, i));
      SumFlatten(StaffRows(y, i));
    }
    forall j, i | 0 <= j < p.nbServices && 0 <= i < p.nbInternes && Binary(x)
      ensures nbGardes[j, i] == CountOnes(x[j][i])
    {
      SumOfBinaryIsCount(x[j][i]);
    }
    forall j, i | 0 <= j < p.nbAstreintes && 0 <= i < p.nbInternes && Binary(y)
      ensures nbAstr[j, i] == CountOnes(y[j][i])
    {
      SumOfBinaryIsCount(y[j][i]);
    }
  }
}

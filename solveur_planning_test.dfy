/** The checkers of the test class over a solved roster. Each checker walks the grids
    in the test's own loop order and answers false where the test's first assertion
    would fail (or where it would read a cell outside the grid); each is proved equal to
    a predicate stating what the test asserts. */
module SolveurPlanningTest {
  import opened Grids
  import opened SolveurPlanning
  import SolveurArrays

  // ---------------------------------------------------------------------------
  // auPlus1GardeJourTest, tjrs1PersonneDeGardeTest, tjrsUneAstreinteTest.

  /** The innermost loop of these tests: the cells at 1 among the cells of one view. */
  method CompteUns(q: seq<int>) returns (nb: nat)
    ensures nb == CountOnes(q)
  {
    nb := 0;
    for k := 0 to |q|
      invariant nb == CountOnes(q[..k])
    {
      SumPrefixStep(q, k);
      if q[k] == 1 {
        nb := nb + 1;
      }
    }
    assert q[..|q|] == q;
  }

  /** Every (staff, day) has at most one service at 1. */
  predicate AuPlus1GardeJourTestPasses(p: Planning, x: Grid)
    requires p.Valid() && p.ShiftGrid(x)
  {
    forall t, i :: 0 <= t < p.nbJours && 0 <= i < p.nbInternes ==> CountOnes(Across(x, i, t)) <= 1
  }

  method AuPlus1GardeJourTest(p: Planning, x: Grid) returns (ok: bool)
    requires p.Valid() && p.ShiftGrid(x)
    ensures ok <==> AuPlus1GardeJourTestPasses(p, x)
  {
    var t := 0;
    while t < p.nbJours
      invariant 0 <= t <= p.nbJours
      invariant forall t', i :: 0 <= t' < t && 0 <= i < p.nbInternes ==> CountOnes(Across(x, i, t')) <= 1
    {
      var iInterne := 0;
      while iInterne < p.nbInternes
        invariant 0 <= iInterne <= p.nbInternes
        invariant forall t', i :: 0 <= t' < t && 0 <= i < p.nbInternes ==> CountOnes(Across(x, i, t')) <= 1
        invariant forall i :: 0 <= i < iInterne ==> CountOnes(Across(x, i, t)) <= 1
      {
        var nbGardes := CompteUns(Across(x, iInterne, t));
        if !(nbGardes <= 1) {
          return false;
        }
        iInterne := iInterne + 1;
      }
      t := t + 1;
    }
    return true;
  }

  /** Every (plane, day) of g has exactly one staff member at 1. */
  predicate OneStaffPerDay(g: Grid, n1: nat, n2: nat, n3: nat)
    requires IsCube(g, n1, n2, n3)
  {
    forall t, k :: 0 <= t < n3 && 0 <= k < n1 ==> CountOnes(Column(g[k], t)) == 1
  }

  /** The loops shared by tjrs1PersonneDeGardeTest (over services) and
      tjrsUneAstreinteTest (over standby duties). */
  method OneStaffPerDayTest(g: Grid, n1: nat, n2: nat, n3: nat) returns (ok: bool)
    requires IsCube(g, n1, n2, n3)
    ensures ok <==> OneStaffPerDay(g, n1, n2, n3)
  {
    var t := 0;
    while t < n3
      invariant 0 <= t <= n3
      invariant forall t', k :: 0 <= t' < t && 0 <= k < n1 ==> CountOnes(Column(g[k], t')) == 1
    {
      var k := 0;
      while k < n1
        invariant 0 <= k <= n1
        invariant forall t', k' :: 0 <= t' < t && 0 <= k' < n1 ==> CountOnes(Column(g[k'], t')) == 1
        invariant forall k' :: 0 <= k' < k ==> CountOnes(Column(g[k'], t)) == 1
      {
        var nb := CompteUns(Column(g[k], t));
        if nb != 1 {
          return false;
        }
        k := k + 1;
      }
      t := t + 1;
    }
    return true;
  }

  method Tjrs1PersonneDeGardeTest(p: Planning, x: Grid) returns (ok: bool)
    requires p.Valid() && p.ShiftGrid(x)
    ensures ok <==> OneStaffPerDay(x, p.nbServices, p.nbInternes, p.nbJours)
  {
    ok := OneStaffPerDayTest(x, p.nbServices, p.nbInternes, p.nbJours);
  }

  method TjrsUneAstreinteTest(p: Planning, y: Grid) returns (ok: bool)
    requires p.Valid() && p.StandbyGrid(y)
    ensures ok <==> OneStaffPerDay(y, p.nbAstreintes, p.nbInternes, p.nbJours)
  {
    ok := OneStaffPerDayTest(y, p.nbAstreintes, p.nbInternes, p.nbJours);
  }

  // ---------------------------------------------------------------------------
  // equilibreGardeTest, equilibreAstreinteTest: per-staff counts, day by day.

  /** Every staff member's number of cells at 1, counted day by day over every plane of
      g, lies within slack of theorique. */
  predicate BalancedStaff(g: Grid, n1: nat, n2: nat, n3: nat, theorique: int, ecart: int)
    requires IsCube(g, n1, n2, n3)
  {
    forall i :: 0 <= i < n2 ==> Within(CountCols(StaffRows(g, i), n3, n3), theorique, ecart)
  }

  /** The loops shared by equilibreGardeTest and equilibreAstreinteTest. */
  method BalancedStaffTest(g: Grid, n1: nat, n2: nat, n3: nat, theorique: int, ecart: int) returns (ok: bool)
    requires IsCube(g, n1, n2, n3)
    ensures ok <==> BalancedStaff(g, n1, n2, n3, theorique, ecart)
  {
    var i := 0;
    while i < n2
      invariant 0 <= i <= n2
      invariant forall i' :: 0 <= i' < i ==> Within(CountCols(StaffRows(g, i'), n3, n3), theorique, ecart)
    {
      var m := StaffRows(g, i);
      var nb := 0;
      var t := 0;
      while t < n3
        invariant 0 <= t <= n3
        invariant nb == CountCols(m, n3, t)
      {
        var jour := CompteUns(Column(m, t));
        nb := nb + jour;
        t := t + 1;
      }
      if !(nb <= theorique + ecart) {
        return false;
      }
      if !(nb >= theorique - ecart) {
        return false;
      }
      i := i + 1;
    }
    return true;
  }

  method EquilibreGardeTest(p: Planning, x: Grid) returns (ok: bool)
    requires p.Valid() && p.ShiftGrid(x)
    ensures ok <==> BalancedStaff(x, p.nbServices, p.nbInternes, p.nbJours, p.nbGardesTheorique, p.nbGardeEcart)
  {
    ok := BalancedStaffTest(x, p.nbServices, p.nbInternes, p.nbJours, p.nbGardesTheorique, p.nbGardeEcart);
  }

  /** The accessor the test calls for the theoretical standby count is not defined by the
      planning class; its value is taken as nbJours / nbInternes, the count the posted rule uses. */
  method EquilibreAstreinteTest(p: Planning, y: Grid) returns (ok: bool)
    requires p.Valid() && p.StandbyGrid(y)
    ensures ok <==> BalancedStaff(y, p.nbAstreintes, p.nbInternes, p.nbJours, p.nbJours / p.nbInternes, p.nbAstreintesEcart)
  {
    ok := BalancedStaffTest(y, p.nbAstreintes, p.nbInternes, p.nbJours, p.nbJours / p.nbInternes, p.nbAstreintesEcart);
  }

  // ---------------------------------------------------------------------------
  // ReposLendemainTest, enchainementVDTest, indisponibiliteForteTest, estCapableTest.

  /** A shift on day t (t below the last day) is followed by no shift in the same service. */
  predicate ReposLendemainTestPasses(p: Planning, x: Grid)
    requires p.Valid() && p.ShiftGrid(x)
  {
    forall s, i, t :: 0 <= s < p.nbServices && 0 <= i < p.nbInternes && 0 <= t && t + 1 < p.nbJours ==>
      x[s][i][t] == 1 ==> x[s][i][t + 1] == 0
  }

  method ReposLendemainTest(p: Planning, x: Grid) returns (ok: bool)
    requires p.Valid() && p.ShiftGrid(x)
    ensures ok <==> ReposLendemainTestPasses(p, x)
  {
    for iService := 0 to p.nbServices
      invariant forall s, i, t :: 0 <= s < iService && 0 <= i < p.nbInternes && 0 <= t && t + 1 < p.nbJours ==>
        x[s][i][t] == 1 ==> x[s][i][t + 1] == 0
    {
      for iInterne := 0 to p.nbInternes
        invariant forall s, i, t :: 0 <= s < iService && 0 <= i < p.nbInternes && 0 <= t && t + 1 < p.nbJours ==>
          x[s][i][t] == 1 ==> x[s][i][t + 1] == 0
        invariant forall i, t :: 0 <= i < iInterne && 0 <= t && t + 1 < p.nbJours ==>
          x[iService][i][t] == 1 ==> x[iService][i][t + 1] == 0
      {
        var t := 0;
        while t + 1 < p.nbJours
          invariant 0 <= t && (t <= p.nbJours - 1 || p.nbJours == 0)
          invariant forall t' :: 0 <= t' < t && t' + 1 < p.nbJours ==>
            x[iService][iInterne][t'] == 1 ==> x[iService][iInterne][t' + 1] == 0
        {
          if x[iService][iInterne][t] == 1 && x[iService][iInterne][t + 1] != 0 {
            return false;
          }
          t := t + 1;
        }
      }
    }
    return true;
  }

  /** For a staff member who accepts the rule, a shift on a Friday t below the last day
      is matched by exactly one shift (the values summed) on day t + 2; the test reads
      day t + 2 there, so that day must exist. */
  predicate EnchainementVDTestPasses(p: Planning, x: Grid)
    requires p.Valid() && p.ShiftGrid(x)
  {
    forall s, i, t :: 0 <= s < p.nbServices && 0 <= i < p.nbInternes && p.vd[i] && 0 <= t && t + 1 < p.nbJours ==>
      t % NB_JOURS_SEMAINE == VENDREDI && x[s][i][t] == 1 ==>
        t + 2 < p.nbJours && Sum(Across(x, i, t + 2)) == 1
  }

  /** The day loop of enchainementVDTest for service s and staff member i. */
  method VendrediTest(p: Planning, x: Grid, s: nat, i: nat) returns (ok: bool)
    requires p.Valid() && p.ShiftGrid(x) && s < p.nbServices && i < p.nbInternes
    ensures ok <==> forall t :: 0 <= t && t + 1 < p.nbJours ==>
      t % NB_JOURS_SEMAINE == VENDREDI && x[s][i][t] == 1 ==>
        t + 2 < p.nbJours && Sum(Across(x, i, t + 2)) == 1
  {
    var t := 0;
    while t + 1 < p.nbJours
      invariant 0 <= t && (t <= p.nbJours - 1 || p.nbJours == 0)
      invariant forall t' :: 0 <= t' < t && t' + 1 < p.nbJours ==>
        t' % NB_JOURS_SEMAINE == VENDREDI && x[s][i][t'] == 1 ==>
          t' + 2 < p.nbJours && Sum(Across(x, i, t' + 2)) == 1
    {
      if t % NB_JOURS_SEMAINE == VENDREDI && x[s][i][t] == 1 {
        if t + 2 >= p.nbJours {
          return false;
        }
        var cpt := SommeServices(p, x, i, t + 2);
        if cpt != 1 {
          return false;
        }
      }
      t := t + 1;
    }
    return true;
  }

  method EnchainementVDTest(p: Planning, x: Grid) returns (ok: bool)
    requires p.Valid() && p.ShiftGrid(x)
    ensures ok <==> EnchainementVDTestPasses(p, x)
  {
    for iService := 0 to p.nbServices
      invariant forall s, i, t :: 0 <= s < iService && 0 <= i < p.nbInternes && p.vd[i] && 0 <= t && t + 1 < p.nbJours ==>
        t % NB_JOURS_SEMAINE == VENDREDI && x[s][i][t] == 1 ==> t + 2 < p.nbJours && Sum(Across(x, i, t + 2)) == 1
    {
      for iInterne := 0 to p.nbInternes
        invariant forall s, i, t :: 0 <= s < iService && 0 <= i < p.nbInternes && p.vd[i] && 0 <= t && t + 1 < p.nbJours ==>
          t % NB_JOURS_SEMAINE == VENDREDI && x[s][i][t] == 1 ==> t + 2 < p.nbJours && Sum(Across(x, i, t + 2)) == 1
        invariant forall i, t :: 0 <= i < iInterne && p.vd[i] && 0 <= t && t + 1 < p.nbJours ==>
          t % NB_JOURS_SEMAINE == VENDREDI && x[iService][i][t] == 1 ==> t + 2 < p.nbJours && Sum(Across(x, i, t + 2)) == 1
      {
        if p.vd[iInterne] {
          ok := VendrediTest(p, x, iService, iInterne);
          if !ok {
            return false;
          }
        }
      }
    }
    return true;
  }

  /** indisponibiliteForteTest asserts exactly the posted rule. */
  method IndisponibiliteForteTest(p: Planning, x: Grid) returns (ok: bool)
    requires p.Valid() && p.ShiftGrid(x)
    ensures ok <==> p.IndisponibiliteForte(x)
  {
    for iInterne := 0 to p.nbInternes
      invariant forall i, t, s :: 0 <= i < iInterne && 0 <= t < p.nbJours && p.indispoForte[i][t] && 0 <= s < p.nbServices ==>
        x[s][i][t] == 0
    {
      for t := 0 to p.nbJours
        invariant forall i, t', s :: 0 <= i < iInterne && 0 <= t' < p.nbJours && p.indispoForte[i][t'] && 0 <= s < p.nbServices ==>
          x[s][i][t'] == 0
        invariant forall t', s :: 0 <= t' < t && p.indispoForte[iInterne][t'] && 0 <= s < p.nbServices ==>
          x[s][iInterne][t'] == 0
      {
        if p.indispoForte[iInterne][t] {
          for iService := 0 to p.nbServices
            invariant forall s :: 0 <= s < iService ==> x[s][iInterne][t] == 0
          {
            if x[iService][iInterne][t] != 0 {
              return false;
            }
          }
        }
      }
    }
    return true;
  }

  /** estCapableTest asserts exactly the posted rule. */
  method EstCapableTest(p: Planning, x: Grid) returns (ok: bool)
    requires p.Valid() && p.ShiftGrid(x)
    ensures ok <==> p.EstCapable(x)
  {
    for iService := 0 to p.nbServices
      invariant forall s, i, t :: 0 <= s < iService && 0 <= i < p.nbInternes && 0 <= t < p.nbJours && !p.aptitude[s][i][t] ==>
        x[s][i][t] == 0
    {
      for iInterne := 0 to p.nbInternes
        invariant forall s, i, t :: 0 <= s < iService && 0 <= i < p.nbInternes && 0 <= t < p.nbJours && !p.aptitude[s][i][t] ==>
          x[s][i][t] == 0
        invariant forall i, t :: 0 <= i < iInterne && 0 <= t < p.nbJours && !p.aptitude[iService][i][t] ==>
          x[iService][i][t] == 0
      {
        for t := 0 to p.nbJours
          invariant forall t' :: 0 <= t' < t && !p.aptitude[iService][iInterne][t'] ==> x[iService][iInterne][t'] == 0
        {
          if !p.aptitude[iService][iInterne][t] && x[iService][iInterne][t] != 0 {
            return false;
          }
        }
      }
    }
    return true;
  }

  // ---------------------------------------------------------------------------
  // gardeEnsembleTest, groupementAstreintesTest, incompatibleGardeAstreinteTest.

  /** On no day does a shift of staff member i meet any shift of staff member j. */
  predicate Apart(p: Planning, x: Grid, i: nat, j: nat)
    requires p.Valid() && p.ShiftGrid(x) && i < p.nbInternes && j < p.nbInternes
  {
    forall t, s, s' :: 0 <= t < p.nbJours && 0 <= s < p.nbServices && 0 <= s' < p.nbServices ==>
      x[s][i][t] == 1 ==> x[s'][j][t] == 0
  }

  /** Every ordered pair of distinct staff members whose entry [i][j] forbids working
      together is apart: both orders are read, so both entries matter. */
  predicate GardeEnsembleTestPasses(p: Planning, x: Grid)
    requires p.Valid() && p.ShiftGrid(x)
  {
    forall i, j :: 0 <= i < p.nbInternes && 0 <= j < p.nbInternes && !p.peutTravailEnsemble[i][j] && i != j ==>
      Apart(p, x, i, j)
  }

  method ApartTest(p: Planning, x: Grid, i: nat, j: nat) returns (ok: bool)
    requires p.Valid() && p.ShiftGrid(x) && i < p.nbInternes && j < p.nbInternes
    ensures ok <==> Apart(p, x, i, j)
  {
    for t := 0 to p.nbJours
      invariant forall t', s, s' :: 0 <= t' < t && 0 <= s < p.nbServices && 0 <= s' < p.nbServices ==>
        x[s][i][t'] == 1 ==> x[s'][j][t'] == 0
    {
      for iService := 0 to p.nbServices
        invariant forall t', s, s' :: 0 <= t' < t && 0 <= s < p.nbServices && 0 <= s' < p.nbServices ==>
          x[s][i][t'] == 1 ==> x[s'][j][t'] == 0
        invariant forall s, s' :: 0 <= s < iService && 0 <= s' < p.nbServices ==>
          x[s][i][t] == 1 ==> x[s'][j][t] == 0
      {
        if x[iService][i][t] == 1 {
          for jService := 0 to p.nbServices
            invariant forall s' :: 0 <= s' < jService ==> x[s'][j][t] == 0
          {
            if x[jService][j][t] != 0 {
              return false;
            }
          }
        }
      }
    }
    return true;
  }

  method GardeEnsembleTest(p: Planning, x: Grid) returns (ok: bool)
    requires p.Valid() && p.ShiftGrid(x)
    ensures ok <==> GardeEnsembleTestPasses(p, x)
  {
    for iInterne := 0 to p.nbInternes
      invariant forall i, j :: 0 <= i < iInterne && 0 <= j < p.nbInternes && !p.peutTravailEnsemble[i][j] && i != j ==>
        Apart(p, x, i, j)
    {
      for jInterne := 0 to p.nbInternes
        invariant forall i, j :: 0 <= i < iInterne && 0 <= j < p.nbInternes && !p.peutTravailEnsemble[i][j] && i != j ==>
          Apart(p, x, i, j)
        invariant forall j :: 0 <= j < jInterne && !p.peutTravailEnsemble[iInterne][j] && iInterne != j ==>
          Apart(p, x, iInterne, j)
      {
        if !p.peutTravailEnsemble[iInterne][jInterne] && iInterne != jInterne {
          ok := ApartTest(p, x, iInterne, jInterne);
          if !ok {
            return false;
          }
        }
      }
    }
    return true;
  }

  /** What the test asserts of a standby on day t (t + 2 inside the row): Monday and
      Wednesday need the next day, Tuesday and Thursday the day before, Friday the next
      two days, Saturday both neighbours, Sunday the two days before. */
  predicate Grouped(row: seq<int>, t: nat)
    requires t + 2 < |row|
  {
    var w := t % NB_JOURS_SEMAINE;
    if w == LUNDI || w == MERCREDI then row[t + 1] == 1
    else if w == MARDI || w == JEUDI then row[t - 1] == 1
    else if w == VENDREDI then row[t + 1] == 1 && row[t + 2] == 1
    else if w == SAMEDI then row[t + 1] == 1 && row[t - 1] == 1
    else row[t - 1] == 1 && row[t - 2] == 1
  }

  predicate GroupementAstreintesTestPasses(p: Planning, y: Grid)
    requires p.Valid() && p.StandbyGrid(y)
  {
    forall a, i, t :: 0 <= a < p.nbAstreintes && 0 <= i < p.nbInternes && 0 <= t && t + 2 < p.nbJours ==>
      y[a][i][t] == 1 ==> Grouped(y[a][i], t)
  }

  method GroupementAstreintesTest(p: Planning, y: Grid) returns (ok: bool)
    requires p.Valid() && p.StandbyGrid(y)
    ensures ok <==> GroupementAstreintesTestPasses(p, y)
  {
    for iAstreinte := 0 to p.nbAstreintes
      invariant forall a, i, t :: 0 <= a < iAstreinte && 0 <= i < p.nbInternes && 0 <= t && t + 2 < p.nbJours ==>
        y[a][i][t] == 1 ==> Grouped(y[a][i], t)
    {
      for iInterne := 0 to p.nbInternes
        invariant forall a, i, t :: 0 <= a < iAstreinte && 0 <= i < p.nbInternes && 0 <= t && t + 2 < p.nbJours ==>
          y[a][i][t] == 1 ==> Grouped(y[a][i], t)
        invariant forall i, t :: 0 <= i < iInterne && 0 <= t && t + 2 < p.nbJours ==>
          y[iAstreinte][i][t] == 1 ==> Grouped(y[iAstreinte][i], t)
      {
        var row := y[iAstreinte][iInterne];
        var t := 0;
        while t + 2 < p.nbJours
          invariant 0 <= t
          invariant forall t' :: 0 <= t' < t && t' + 2 < p.nbJours ==> row[t'] == 1 ==> Grouped(row, t')
        {
          if row[t] == 1 && !Grouped(row, t) {
            return false;
          }
          t := t + 1;
        }
      }
    }
    return true;
  }

  predicate IncompatibleGardeAstreinteTestPasses(p: Planning, x: Grid, y: Grid)
    requires p.Valid() && p.ShiftGrid(x) && p.StandbyGrid(y)
  {
    forall s, i, t, a :: 0 <= s < p.nbServices && 0 <= i < p.nbInternes && 0 <= t < p.nbJours && 0 <= a < p.nbAstreintes ==>
      x[s][i][t] == 1 ==> y[a][i][t] == 0
  }

  method IncompatibleGardeAstreinteTest(p: Planning, x: Grid, y: Grid) returns (ok: bool)
    requires p.Valid() && p.ShiftGrid(x) && p.StandbyGrid(y)
    ensures ok <==> IncompatibleGardeAstreinteTestPasses(p, x, y)
  {
    for iService := 0 to p.nbServices
      invariant forall s, i, t, a :: 0 <= s < iService && 0 <= i < p.nbInternes && 0 <= t < p.nbJours && 0 <= a < p.nbAstreintes ==>
        x[s][i][t] == 1 ==> y[a][i][t] == 0
    {
      for iInterne := 0 to p.nbInternes
        invariant forall s, i, t, a :: 0 <= s < iService && 0 <= i < p.nbInternes && 0 <= t < p.nbJours && 0 <= a < p.nbAstreintes ==>
          x[s][i][t] == 1 ==> y[a][i][t] == 0
        invariant forall i, t, a :: 0 <= i < iInterne && 0 <= t < p.nbJours && 0 <= a < p.nbAstreintes ==>
          x[iService][i][t] == 1 ==> y[a][i][t] == 0
      {
        for t := 0 to p.nbJours
          invariant forall t', a :: 0 <= t' < t && 0 <= a < p.nbAstreintes ==>
            x[iService][iInterne][t'] == 1 ==> y[a][iInterne][t'] == 0
        {
          if x[iService][iInterne][t] == 1 {
            for iAstreinte := 0 to p.nbAstreintes
              invariant forall a :: 0 <= a < iAstreinte ==> y[a][iInterne][t] == 0
            {
              if y[iAstreinte][iInterne][t] != 0 {
                return false;
              }
            }
          }
        }
      }
    }
    return true;
  }

  // ---------------------------------------------------------------------------
  // equilibreSamuTest: the SAMU shifts of each staff member, day by day.

  /** The matrix of staff member i with the rows of the services not named SAMU zeroed:
      the cells the test counts. */
  function SamuMasked(p: Planning, x: Grid, i: nat): (m: seq<seq<int>>)
    requires p.Valid() && p.ShiftGrid(x) && i < p.nbInternes
    ensures IsMatrix(m, p.nbServices, p.nbJours)
    ensures forall s :: 0 <= s < p.nbServices && p.nomServices[s] == SAMU ==> m[s] == x[s][i]
    ensures forall s, t :: 0 <= s < p.nbServices && p.nomServices[s] != SAMU && 0 <= t < p.nbJours ==> m[s][t] == 0
  {
    seq(p.nbServices, s requires 0 <= s < p.nbServices =>
      if p.nomServices[s] == SAMU then x[s][i] else seq(p.nbJours, _ => 0))
  }

  predicate EquilibreSamuTestPasses(p: Planning, x: Grid)
    requires p.Valid() && p.ShiftGrid(x)
  {
    forall i :: 0 <= i < p.nbInternes ==>
      Within(CountCols(SamuMasked(p, x, i), p.nbJours, p.nbJours), p.nbJours / p.nbInternes, p.nbGardeEcart)
  }

  /** The SAMU shifts of staff member i, counted day by day as the test does. */
  method CompteSamu(p: Planning, x: Grid, i: nat) returns (nbGardes: nat)
    requires p.Valid() && p.ShiftGrid(x) && i < p.nbInternes
    ensures nbGardes == CountCols(SamuMasked(p, x, i), p.nbJours, p.nbJours)
  {
    var m := SamuMasked(p, x, i);
    nbGardes := 0;
    var t := 0;
    while t < p.nbJours
      invariant 0 <= t <= p.nbJours
      invariant nbGardes == CountCols(m, p.nbJours, t)
    {
      var iService := 0;
      while iService < p.nbServices
        invariant 0 <= iService <= p.nbServices
        invariant nbGardes == CountCols(m, p.nbJours, t) + CountOnes(Column(m, t)[..iService])
      {
        SumPrefixStep(Column(m, t), iService);
        assert Column(m, t)[iService] == m[iService][t];
        if p.nomServices[iService] == SAMU {
          if x[iService][i][t] == 1 {
            nbGardes := nbGardes + 1;
          }
        }
        iService := iService + 1;
      }
      assert Column(m, t)[..p.nbServices] == Column(m, t);
      t := t + 1;
    }
  }

  method EquilibreSamuTest(p: Planning, x: Grid) returns (ok: bool)
    requires p.Valid() && p.ShiftGrid(x)
    ensures ok <==> EquilibreSamuTestPasses(p, x)
  {
    var nbGardesTheorique := p.nbJours / p.nbInternes;
    for iInterne := 0 to p.nbInternes
      invariant forall i :: 0 <= i < iInterne ==>
        Within(CountCols(SamuMasked(p, x, i), p.nbJours, p.nbJours), nbGardesTheorique, p.nbGardeEcart)
    {
      var nbGardes := CompteSamu(p, x, iInterne);
      if !(nbGardes <= nbGardesTheorique + p.nbGardeEcart) {
        return false;
      }
      if !(nbGardes >= nbGardesTheorique - p.nbGardeEcart) {
        return false;
      }
    }
    return true;
  }

  // ---------------------------------------------------------------------------
  // enchainementDesagreableTest: a rule the planning never posts.

  /** The shifts of staff member i on day t, summed over the services. */
  function GardeJour(p: Planning, x: Grid, i: nat, t: nat): int
    requires p.Valid() && p.ShiftGrid(x) && i < p.nbInternes && t < p.nbJours
  {
    Sum(Across(x, i, t))
  }

  method SommeServices(p: Planning, x: Grid, i: nat, t: nat) returns (cellule: int)
    requires p.Valid() && p.ShiftGrid(x) && i < p.nbInternes && t < p.nbJours
    ensures cellule == GardeJour(p, x, i, t)
  {
    cellule := 0;
    for iService := 0 to p.nbServices
      invariant cellule == Sum(Across(x, i, t)[..iService])
    {
      SumPrefixStep(Across(x, i, t), iService);
      cellule := cellule + x[iService][i][t];
    }
    assert Across(x, i, t)[..p.nbServices] == Across(x, i, t);
  }

  method GardeParJour(p: Planning, x: Grid) returns (garde: array2<int>)
    requires p.Valid() && p.ShiftGrid(x)
    ensures garde.Length0 == p.nbInternes && garde.Length1 == p.nbJours
    ensures forall i, t :: 0 <= i < p.nbInternes && 0 <= t < p.nbJours ==> garde[i, t] == GardeJour(p, x, i, t)
  {
    garde := new int[p.nbInternes, p.nbJours]((_, _) => 0);
    for iInterne := 0 to p.nbInternes
      invariant forall i, t :: 0 <= i < iInterne && 0 <= t < p.nbJours ==> garde[i, t] == GardeJour(p, x, i, t)
    {
      for t := 0 to p.nbJours
        invariant forall i, t' :: 0 <= i < iInterne && 0 <= t' < p.nbJours ==> garde[i, t'] == GardeJour(p, x, i, t')
        invariant forall t' :: 0 <= t' < t ==> garde[iInterne, t'] == GardeJour(p, x, iInterne, t')
      {
        garde[iInterne, t] := SommeServices(p, x, iInterne, t);
      }
    }
  }

  /** Working on day t and on day t + 2 leaves day t + 4 free (t + 4 inside the horizon). */
  predicate SansEnchainement(p: Planning, x: Grid, i: nat, t: nat)
    requires p.Valid() && p.ShiftGrid(x) && i < p.nbInternes && t + 4 < p.nbJours
  {
    GardeJour(p, x, i, t) == 1 && GardeJour(p, x, i, t + 2) == 1 ==> GardeJour(p, x, i, t + 4) == 0
  }

  predicate EnchainementDesagreableTestPasses(p: Planning, x: Grid)
    requires p.Valid() && p.ShiftGrid(x)
  {
    forall i, t :: 0 <= i < p.nbInternes && 0 <= t && t + 4 < p.nbJours ==> SansEnchainement(p, x, i, t)
  }

  /** The inner loop of the test over one staff member's row of garde. */
  method SansEnchainementTest(p: Planning, x: Grid, garde: array2<int>, i: nat) returns (ok: bool)
    requires p.Valid() && p.ShiftGrid(x) && i < p.nbInternes
    requires garde.Length0 == p.nbInternes && garde.Length1 == p.nbJours
    requires forall t :: 0 <= t < p.nbJours ==> garde[i, t] == GardeJour(p, x, i, t)
    ensures ok <==> forall t :: 0 <= t && t + 4 < p.nbJours ==> SansEnchainement(p, x, i, t)
  {
    var t := 0;
    while t + 4 < p.nbJours
      invariant 0 <= t
      invariant forall t' :: 0 <= t' < t && t' + 4 < p.nbJours ==> SansEnchainement(p, x, i, t')
    {
      if garde[i, t] == 1 && garde[i, t + 2] == 1 && garde[i, t + 4] != 0 {
        assert !SansEnchainement(p, x, i, t);
        return false;
      }
      t := t + 1;
    }
    return true;
  }

  method EnchainementDesagreableTest(p: Planning, x: Grid) returns (ok: bool)
    requires p.Valid() && p.ShiftGrid(x)
    ensures ok <==> EnchainementDesagreableTestPasses(p, x)
  {
    var garde := GardeParJour(p, x);
    for iInterne := 0 to p.nbInternes
      invariant forall i, t :: 0 <= i < p.nbInternes && 0 <= t < p.nbJours ==> garde[i, t] == GardeJour(p, x, i, t)
      invariant forall i, t :: 0 <= i < iInterne && 0 <= t && t + 4 < p.nbJours ==> SansEnchainement(p, x, i, t)
    {
      ok := SansEnchainementTest(p, x, garde, iInterne);
      if !ok {
        return false;
      }
    }
    return true;
  }

  // ---------------------------------------------------------------------------
  // equilibreJSDTest: Thursdays, Saturdays and Sundays bucketed by t % 7.

  /** The shifts of staff member i on the days t with t % 7 == w, over every service. */
  function JourSemaine(p: Planning, x: Grid, i: nat, w: nat): int
    requires p.Valid() && p.ShiftGrid(x) && i < p.nbInternes
  {
    WeekdayRows(StaffRows(x, i), p.nbJours, w, p.nbServices)
  }

  /** The three buckets the test fills, staff member by staff member. */
  method JsdParJour(p: Planning, x: Grid) returns (jeudis: array<int>, samedis: array<int>, dimanches: array<int>)
    requires p.Valid() && p.ShiftGrid(x)
    ensures jeudis.Length == p.nbInternes && samedis.Length == p.nbInternes && dimanches.Length == p.nbInternes
    ensures forall i :: 0 <= i < p.nbInternes ==>
      jeudis[i] == JourSemaine(p, x, i, JEUDI) && samedis[i] == JourSemaine(p, x, i, SAMEDI) &&
      dimanches[i] == JourSemaine(p, x, i, DIMANCHE)
  {
    jeudis := new int[p.nbInternes](_ => 0);
    samedis := new int[p.nbInternes](_ => 0);
    dimanches := new int[p.nbInternes](_ => 0);
    for iInterne := 0 to p.nbInternes
      invariant forall i :: 0 <= i < iInterne ==>
        jeudis[i] == JourSemaine(p, x, i, JEUDI) && samedis[i] == JourSemaine(p, x, i, SAMEDI) &&
        dimanches[i] == JourSemaine(p, x, i, DIMANCHE)
    {
      var m := StaffRows(x, iInterne);
      var jeudi, samedi, dimanche := 0, 0, 0;
      for iService := 0 to p.nbServices
        invariant jeudi == WeekdayRows(m, p.nbJours, JEUDI, iService)
        invariant samedi == WeekdayRows(m, p.nbJours, SAMEDI, iService)
        invariant dimanche == WeekdayRows(m, p.nbJours, DIMANCHE, iService)
      {
        var row := x[iService][iInterne];
        assert row == m[iService];
        var j, sa, d := 0, 0, 0;
        for t := 0 to p.nbJours
          invariant j == WeekdaySum(row, JEUDI, t)
          invariant sa == WeekdaySum(row, SAMEDI, t)
          invariant d == WeekdaySum(row, DIMANCHE, t)
        {
          var w := t % NB_JOURS_SEMAINE;
          if w == JEUDI {
            j := j + row[t];
          } else if w == SAMEDI {
            sa := sa + row[t];
          } else if w == DIMANCHE {
            d := d + row[t];
          }
        }
        jeudi, samedi, dimanche := jeudi + j, samedi + sa, dimanche + d;
      }
      jeudis[iInterne], samedis[iInterne], dimanches[iInterne] := jeudi, samedi, dimanche;
    }
  }

  predicate EquilibreJSDTestPasses(p: Planning, x: Grid)
    requires p.Valid() && p.ShiftGrid(x)
  {
    forall i :: 0 <= i < p.nbInternes ==>
      && Within(JourSemaine(p, x, i, JEUDI), p.NbJourTheorique(), p.nbGardeEcart)
      && Within(JourSemaine(p, x, i, SAMEDI), p.NbJourTheorique(), p.nbGardeEcart)
      && Within(JourSemaine(p, x, i, DIMANCHE), p.NbJourTheorique(), p.nbGardeEcart)
  }

  method EquilibreJSDTest(p: Planning, x: Grid) returns (ok: bool)
    requires p.Valid() && p.ShiftGrid(x)
    ensures ok <==> EquilibreJSDTestPasses(p, x)
  {
    var nbJourTheorique := (p.nbJours * p.nbServices / NB_JOURS_SEMAINE) / p.nbInternes;
    var jeudis, samedis, dimanches := JsdParJour(p, x);
    for iInterne := 0 to p.nbInternes
      invariant forall i :: 0 <= i < iInterne ==>
        && Within(JourSemaine(p, x, i, JEUDI), nbJourTheorique, p.nbGardeEcart)
        && Within(JourSemaine(p, x, i, SAMEDI), nbJourTheorique, p.nbGardeEcart)
        && Within(JourSemaine(p, x, i, DIMANCHE), nbJourTheorique, p.nbGardeEcart)
    {
      if !(jeudis[iInterne] <= nbJourTheorique + p.nbGardeEcart) || !(jeudis[iInterne] >= nbJourTheorique - p.nbGardeEcart) {
        return false;
      }
      if !(samedis[iInterne] <= nbJourTheorique + p.nbGardeEcart) || !(samedis[iInterne] >= nbJourTheorique - p.nbGardeEcart) {
        return false;
      }
      if !(dimanches[iInterne] <= nbJourTheorique + p.nbGardeEcart) || !(dimanches[iInterne] >= nbJourTheorique - p.nbGardeEcart) {
        return false;
      }
    }
    return true;
  }

  // ---------------------------------------------------------------------------
  // indisponibiliteSoupleTest: at least half of each staff member's soft flags kept.

  /** A soft-unavailable day is respected when no service of that day is at 1. */
  predicate Respecte(x: Grid, i: nat, t: nat)
    requires forall k :: 0 <= k < |x| ==> i < |x[k]| && t < |x[k][i]|
  {
    CountOnes(Across(x, i, t)) == 0
  }

  /** The respected soft-unavailable days of staff member i among the first t days. */
  function RespecteesRow(p: Planning, x: Grid, i: nat, t: nat): nat
    requires p.Valid() && p.ShiftGrid(x) && i < p.nbInternes && t <= p.nbJours
  {
    if t == 0 then 0
    else RespecteesRow(p, x, i, t - 1) + (if p.indispoSouple[i][t - 1] && Respecte(x, i, t - 1) then 1 else 0)
  }

  predicate IndisponibiliteSoupleTestPasses(p: Planning, x: Grid)
    requires p.Valid() && p.ShiftGrid(x)
  {
    forall i :: 0 <= i < p.nbInternes ==>
      RespecteesRow(p, x, i, p.nbJours) >= SolveurArrays.SoftFlagsRow(p, i, p.nbJours) / 2
  }

  /** The soft flags of staff member i and the respected ones, counted day by day. */
  method CompteSouple(p: Planning, x: Grid, i: nat) returns (nbIndispo: nat, nbRespectees: nat)
    requires p.Valid() && p.ShiftGrid(x) && i < p.nbInternes
    ensures nbIndispo == SolveurArrays.SoftFlagsRow(p, i, p.nbJours)
    ensures nbRespectees == RespecteesRow(p, x, i, p.nbJours)
  {
    nbIndispo, nbRespectees := 0, 0;
    for t := 0 to p.nbJours
      invariant nbIndispo == SolveurArrays.SoftFlagsRow(p, i, t)
      invariant nbRespectees == RespecteesRow(p, x, i, t)
    {
      if p.indispoSouple[i][t] {
        nbIndispo := nbIndispo + 1;
        var respecte := true;
        for iService := 0 to p.nbServices
          invariant respecte <==> CountOnes(Across(x, i, t)[..iService]) == 0
        {
          SumPrefixStep(Across(x, i, t), iService);
          if x[iService][i][t] == 1 {
            respecte := false;
          }
        }
        assert Across(x, i, t)[..p.nbServices] == Across(x, i, t);
        if respecte {
          nbRespectees := nbRespectees + 1;
        }
      }
    }
  }

  method IndisponibiliteSoupleTest(p: Planning, x: Grid) returns (ok: bool)
    requires p.Valid() && p.ShiftGrid(x)
    ensures ok <==> IndisponibiliteSoupleTestPasses(p, x)
  {
    var nbIndispo := new int[p.nbInternes](_ => 0);
    var nbIndispoRespectees := new int[p.nbInternes](_ => 0);
    for iInterne := 0 to p.nbInternes
      invariant forall i :: 0 <= i < iInterne ==>
        nbIndispo[i] == SolveurArrays.SoftFlagsRow(p, i, p.nbJours) && nbIndispoRespectees[i] == RespecteesRow(p, x, i, p.nbJours)
    {
      nbIndispo[iInterne], nbIndispoRespectees[iInterne] := CompteSouple(p, x, iInterne);
    }
    for iInterne := 0 to p.nbInternes
      invariant forall i :: 0 <= i < iInterne ==>
        RespecteesRow(p, x, i, p.nbJours) >= SolveurArrays.SoftFlagsRow(p, i, p.nbJours) / 2
    {
      if !(nbIndispoRespectees[iInterne] >= nbIndispo[iInterne] / 2) {
        return false;
      }
    }
    return true;
  }

  // ---------------------------------------------------------------------------
  // setUpClass: the planning the tests are run against (the solve itself is not modelled).

  /** Three services (MAT, SAMU, BLOC), one standby duty, ten staff members, fifteen
      days, shift slack 1 and standby slack 2; everyone accepts the Friday/Sunday rule,
      nobody is hard-unavailable, staff 0 is soft-unavailable on days 0-8 and staff 1 on
      days 7-14, staff 0 cannot work with staff 1 or 2 (both entries set), and everyone
      is able everywhere. */
  function Fixture(): (p: Planning)
    ensures p.Valid()
  {
    NewPlanning(3, 1, 10, 15, 1, 2, ["MAT", "SAMU", "BLOC"], ["AST"], seq(10, _ => true),
      seq(10, _ => seq(15, _ => false)),
      seq(10, i => seq(15, t => (i == 0 && t <= 8) || (i == 1 && 7 <= t))),
      seq(10, i => seq(10, j => !((i == 0 && (j == 1 || j == 2)) || (j == 0 && (i == 1 || i == 2))))),
      seq(3, _ => seq(10, _ => seq(15, _ => true))))
  }

  /** The fixture can be posted without an index out of range, its compatibility table is
      symmetric, and its theoretical counts are: 4 shifts, 0 Thursdays (Saturdays,
      Sundays) and 1 SAMU shift or standby per staff member. */
  lemma FixtureFacts()
    ensures Fixture().Postable()
    ensures Fixture().PeutSymetrique()
    ensures Fixture().nbGardesTheorique == 4
    ensures Fixture().NbJourTheorique() == 0
    ensures Fixture().nbJours / Fixture().nbInternes == 1
    ensures SamuCount(Fixture().nomServices, Fixture().nbServices) == 1
  {
    var p := Fixture();
    assert p.nomServices[0] != SAMU && p.nomServices[1] == SAMU && p.nomServices[2] != SAMU;
  }
}

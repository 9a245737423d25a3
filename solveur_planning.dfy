/** The roster model: its configuration, and the meaning over a solved pair of grids of
    every rule the posting procedures hand to the solver. A solved assignment is a
    shift grid x[s][i][t] (service s, staff member i, day t) and a standby grid
    y[a][i][t] (standby duty a), every cell 0 or 1. */
module SolveurPlanning {
  import opened Grids
  import Semaine

  // Weekday codes of day t, read as t % NB_JOURS_SEMAINE (day 0 is a Monday).
  const LUNDI: nat := 0
  const MARDI: nat := 1
  const MERCREDI: nat := 2
  const JEUDI: nat := 3
  const VENDREDI: nat := 4
  const SAMEDI: nat := 5
  const DIMANCHE: nat := 6
  const NB_JOURS_SEMAINE: nat := 7

  /** The name the per-service balance rule looks for. */
  const SAMU: string := "SAMU"

  /** The integer constants agree with the codes of the weekday enum. */
  lemma CodesMatchSemaine()
    ensures Semaine.Semaine.Lundi.ToInt() == LUNDI && Semaine.Semaine.Mardi.ToInt() == MARDI
    ensures Semaine.Semaine.Mercredi.ToInt() == MERCREDI && Semaine.Semaine.Jeudi.ToInt() == JEUDI
    ensures Semaine.Semaine.Vendredi.ToInt() == VENDREDI && Semaine.Semaine.Samedi.ToInt() == SAMEDI
    ensures Semaine.Semaine.Dimanche.ToInt() == DIMANCHE
    ensures Semaine.Semaine.NbJoursSemaine.ToInt() == NB_JOURS_SEMAINE
  {
  }

  /** v lies within slack of the theoretical count. */
  predicate Within(v: int, theorique: int, ecart: int) {
    theorique - ecart <= v <= theorique + ecart
  }

  /** The number of services named SAMU among the first k names. */
  function SamuCount(noms: seq<string>, k: nat): nat
    requires k <= |noms|
  {
    if k == 0 then 0 else SamuCount(noms, k - 1) + (if noms[k - 1] == SAMU then 1 else 0)
  }

  /** The counts and tables of one planning problem. Every field is fixed at construction. */
  datatype Planning = Planning(
    nbServices: nat,
    nbAstreintes: nat,
    nbInternes: nat,
    nbJours: nat,
    nbGardeEcart: int,
    nbAstreintesEcart: int,
    nomServices: seq<string>,
    nomAstreintes: seq<string>,
    vd: seq<bool>,                           // vd[i]: staff member i accepts the Friday/Sunday rule
    indispoForte: seq<seq<bool>>,            // [staff][day]
    indispoSouple: seq<seq<bool>>,           // [staff][day]
    peutTravailEnsemble: seq<seq<bool>>,     // [staff][staff]
    aptitude: seq<seq<seq<bool>>>,           // [service][staff][day]
    nbGardesTheorique: int)
  {
    /** The tables have the dimensions the counts announce. */
    predicate TablesFit() {
      && |nomServices| == nbServices
      && |nomAstreintes| == nbAstreintes
      && |vd| == nbInternes
      && IsMatrix(indispoForte, nbInternes, nbJours)
      && IsMatrix(indispoSouple, nbInternes, nbJours)
      && IsMatrix(peutTravailEnsemble, nbInternes, nbInternes)
      && IsCube(aptitude, nbServices, nbInternes, nbJours)
    }

    /** What the rules read: some staff members and tables of the announced sizes. */
    predicate Valid() {
      && nbInternes > 0
      && TablesFit()
    }

    predicate ShiftGrid(x: Grid) {
      IsCube(x, nbServices, nbInternes, nbJours)
    }

    predicate StandbyGrid(y: Grid) {
      IsCube(y, nbAstreintes, nbInternes, nbJours)
    }

    // -------------------------------------------------------------------------
    // The posted rules, one predicate per posting procedure.

    /** At most one service per staff member and day. */
    predicate AuPlus1GardeJour(x: Grid)
      requires Valid() && ShiftGrid(x)
    {
      forall i, t :: 0 <= i < nbInternes && 0 <= t < nbJours ==> Sum(Across(x, i, t)) <= 1
    }

    /** Exactly one staff member on each service every day. */
    predicate Tjrs1PersonneDeGarde(x: Grid)
      requires Valid() && ShiftGrid(x)
    {
      forall s, t :: 0 <= s < nbServices && 0 <= t < nbJours ==> Sum(Column(x[s], t)) == 1
    }

    /** Each staff member's shifts, gathered service by service, stay within slack of
        the theoretical count. */
    predicate EquilibreGarde(x: Grid)
      requires Valid() && ShiftGrid(x)
    {
      forall i :: 0 <= i < nbInternes ==>
        Within(Sum(Flatten(StaffRows(x, i))), nbGardesTheorique, nbGardeEcart)
    }

    /** A shift on day t (t below the last day) leaves every service of day t + 1 empty
        for that staff member. */
    predicate ReposLendemain(x: Grid)
      requires Valid() && ShiftGrid(x)
    {
      forall s, i, t :: 0 <= s < nbServices && 0 <= i < nbInternes && 0 <= t && t + 1 < nbJours ==>
        x[s][i][t] == 1 ==> Sum(Across(x, i, t + 1)) == 0
    }

    /** The Friday/Sunday rule reads day t + 2 for every Friday t below the last day;
        that day exists unless the day before the last is a Friday. The procedure
        reaches that read only when some service exists and some staff member opts in. */
    predicate EnchainementVDIndexable()
      requires Valid()
    {
      nbServices == 0 ||
      forall i :: 0 <= i < nbInternes && vd[i] ==>
        !(nbJours >= 2 && (nbJours - 2) % NB_JOURS_SEMAINE == VENDREDI)
    }

    /** For a staff member who accepts the rule and a day t below the last day: a shift
        on a Friday t means exactly one shift on t + 2, a shift on a Sunday t means
        exactly one shift on t - 2. */
    predicate EnchainementVD(x: Grid)
      requires Valid() && ShiftGrid(x) && EnchainementVDIndexable()
    {
      forall s, i, t :: 0 <= s < nbServices && 0 <= i < nbInternes && vd[i] && 0 <= t && t + 1 < nbJours ==>
        && (t % NB_JOURS_SEMAINE == VENDREDI && x[s][i][t] == 1 ==> Sum(Across(x, i, t + 2)) == 1)
        && (t % NB_JOURS_SEMAINE == DIMANCHE && x[s][i][t] == 1 ==> Sum(Across(x, i, t - 2)) == 1)
    }

    /** No service on a day a staff member is hard-unavailable. */
    predicate IndisponibiliteForte(x: Grid)
      requires Valid() && ShiftGrid(x)
    {
      forall i, t, s :: 0 <= i < nbInternes && 0 <= t < nbJours && indispoForte[i][t] && 0 <= s < nbServices ==>
        x[s][i][t] == 0
    }

    /** No shift where the staff member lacks the aptitude. */
    predicate EstCapable(x: Grid)
      requires Valid() && ShiftGrid(x)
    {
      forall s, i, t :: 0 <= s < nbServices && 0 <= i < nbInternes && 0 <= t < nbJours && !aptitude[s][i][t] ==>
        x[s][i][t] == 0
    }

    /** For i < j with !peutTravailEnsemble[i][j] (the entry [j][i] is never read): a shift
        of either on day t leaves the other without any shift that day. */
    predicate GardeEnsemble(x: Grid)
      requires Valid() && ShiftGrid(x)
    {
      forall i, j, s, t :: 0 <= i < j < nbInternes && !peutTravailEnsemble[i][j] && 0 <= s < nbServices && 0 <= t < nbJours ==>
        && (x[s][i][t] == 1 ==> Sum(Across(x, j, t)) == 0)
        && (x[s][j][t] == 1 ==> Sum(Across(x, i, t)) == 0)
    }

    /** The compatibility table reads the same in both directions. */
    predicate PeutSymetrique()
      requires Valid()
    {
      forall i, j :: 0 <= i < nbInternes && 0 <= j < nbInternes ==> peutTravailEnsemble[i][j] == peutTravailEnsemble[j][i]
    }

    /** For days t with t + 2 inside the horizon: a Monday or a Wednesday carries the
        same standby value as the next day, a Friday the same as the next two days; the
        other weekdays are not constrained. */
    predicate GroupementAstreintes(y: Grid)
      requires Valid() && StandbyGrid(y)
    {
      forall a, i, t :: 0 <= a < nbAstreintes && 0 <= i < nbInternes && 0 <= t && t + 2 < nbJours ==>
        && (t % NB_JOURS_SEMAINE == LUNDI ==> y[a][i][t] == y[a][i][t + 1])
        && (t % NB_JOURS_SEMAINE == MERCREDI ==> y[a][i][t] == y[a][i][t + 1])
        && (t % NB_JOURS_SEMAINE == VENDREDI ==> y[a][i][t] == y[a][i][t + 1])
        && (t % NB_JOURS_SEMAINE == VENDREDI ==> y[a][i][t] == y[a][i][t + 2])
    }

    /** The transposed standby array is allocated with nbServices rows, one per standby
        duty is written into it, and a write happens once there is a staff member and a day. */
    predicate TjrsUneAstreinteIndexable() {
      nbAstreintes <= nbServices || nbInternes == 0 || nbJours == 0
    }

    /** Exactly one staff member on each standby duty every day. */
    predicate TjrsUneAstreinte(y: Grid)
      requires Valid() && StandbyGrid(y) && TjrsUneAstreinteIndexable()
    {
      forall a, t :: 0 <= a < nbAstreintes && 0 <= t < nbJours ==> Sum(Column(y[a], t)) == 1
    }

    /** A shift on day t excludes every standby duty that day. */
    predicate IncompatibleGardeAstreinte(x: Grid, y: Grid)
      requires Valid() && ShiftGrid(x) && StandbyGrid(y)
    {
      forall s, i, t :: 0 <= s < nbServices && 0 <= i < nbInternes && 0 <= t < nbJours ==>
        x[s][i][t] == 1 ==> Sum(Across(y, i, t)) == 0
    }

    /** Each staff member's row holds nbJours cells and receives one per day of every
        service named SAMU: more than one such service overflows it once there is a day. */
    predicate SamuIndexable()
      requires Valid()
    {
      nbJours == 0 || SamuCount(nomServices, nbServices) <= 1
    }

    /** The day-rows of staff member i in the services named SAMU, in service order. */
    function SamuRows(x: Grid, i: nat): seq<seq<int>>
      requires Valid() && ShiftGrid(x) && i < nbInternes
    {
      seq(nbServices, s requires 0 <= s < nbServices => if nomServices[s] == SAMU then x[s][i] else [])
    }

    /** The SAMU shifts of each staff member stay within slack of nbJours / nbInternes. */
    predicate EquilibreSamu(x: Grid)
      requires Valid() && ShiftGrid(x) && SamuIndexable()
    {
      forall i :: 0 <= i < nbInternes ==>
        Within(Sum(Flatten(SamuRows(x, i))), nbJours / nbInternes, nbGardeEcart)
    }

    /** Theoretical count of Thursdays (and of Saturdays, and of Sundays) per staff member. */
    function NbJourTheorique(): int
      requires Valid()
    {
      (nbJours * nbServices / NB_JOURS_SEMAINE) / nbInternes
    }

    /** The Thursday, Saturday and Sunday rows hold nbJours / 7 + 1 cells and receive one
        cell per service when the literal day 3 (5, 6) is inside the horizon. */
    predicate JSDIndexable() {
      nbJours <= JEUDI || nbServices <= nbJours / NB_JOURS_SEMAINE + 1
    }

    /** The cells gathered for literal day d: every service of staff member i on day d,
        or nothing when day d lies beyond the horizon. */
    function JourLitteral(x: Grid, i: nat, d: nat): seq<int>
      requires Valid() && ShiftGrid(x) && i < nbInternes
    {
      if d < nbJours then Across(x, i, d) else []
    }

    /** The literal days 3, 5 and 6 (not every Thursday, Saturday and Sunday) of each
        staff member stay within slack of the theoretical count. */
    predicate EquilibreJSD(x: Grid)
      requires Valid() && ShiftGrid(x) && JSDIndexable()
    {
      forall i :: 0 <= i < nbInternes ==>
        && Within(Sum(JourLitteral(x, i, JEUDI)), NbJourTheorique(), nbGardeEcart)
        && Within(Sum(JourLitteral(x, i, SAMEDI)), NbJourTheorique(), nbGardeEcart)
        && Within(Sum(JourLitteral(x, i, DIMANCHE)), NbJourTheorique(), nbGardeEcart)
    }

    /** Each staff member's standby row holds nbJours cells and receives one per day of
        every standby duty. */
    predicate AstreinteIndexable() {
      nbAstreintes <= 1 || nbJours == 0
    }

    /** The standby days of each staff member stay within the standby slack of
        nbJours / nbInternes. */
    predicate EquilibreAstreinte(y: Grid)
      requires Valid() && StandbyGrid(y) && AstreinteIndexable()
    {
      forall i :: 0 <= i < nbInternes ==>
        Within(Sum(Flatten(StaffRows(y, i))), nbJours / nbInternes, nbAstreintesEcart)
    }

    /** Every array the posting procedures fill is large enough for what they write into
        it. This is not all it takes to post the rules: rows only partly written (no
        service named SAMU, no standby duty, or Thursday/Saturday/Sunday rows wider than
        the services that fill them) keep null cells, which the model reads as 0. */
    predicate Postable()
      requires Valid()
    {
      && EnchainementVDIndexable()
      && TjrsUneAstreinteIndexable()
      && SamuIndexable()
      && JSDIndexable()
      && AstreinteIndexable()
    }

    /** The grids are a solution of the model that initialisation builds: 0/1 cells and
        every rule it posts. */
    predicate Initialisation(x: Grid, y: Grid)
      requires Valid() && ShiftGrid(x) && StandbyGrid(y) && Postable()
    {
      && Binary(x) && Binary(y)
      && AuPlus1GardeJour(x)
      && Tjrs1PersonneDeGarde(x)
      && EquilibreGarde(x)
      && ReposLendemain(x)
      && EnchainementVD(x)
      && IndisponibiliteForte(x)
      && EstCapable(x)
      && GardeEnsemble(x)
      && GroupementAstreintes(y)
      && TjrsUneAstreinte(y)
      && IncompatibleGardeAstreinte(x, y)
      && EquilibreSamu(x)
      && EquilibreJSD(x)
      && EquilibreAstreinte(y)
    }
  }

  /** The constructor: it stores its arguments and the theoretical shift count, the
      floor of nbJours * nbServices / nbInternes. It checks none of the table dimensions. */
  function NewPlanning(
    services: nat, astreintes: nat, internes: nat, jours: nat, diffGardes: int, diffAstreinte: int,
    nomService: seq<string>, nomAstreinte: seq<string>, respectVD: seq<bool>,
    indispoForte: seq<seq<bool>>, indispoSouple: seq<seq<bool>>,
    peutTravaillerEnsemble: seq<seq<bool>>, aptitude: seq<seq<seq<bool>>>): (p: Planning)
    requires internes > 0
    ensures p.nbServices == services && p.nbAstreintes == astreintes
    ensures p.nbInternes == internes && p.nbJours == jours
    ensures p.nbGardeEcart == diffGardes && p.nbAstreintesEcart == diffAstreinte
    ensures p.nomServices == nomService && p.nomAstreintes == nomAstreinte && p.vd == respectVD
    ensures p.indispoForte == indispoForte && p.indispoSouple == indispoSouple
    ensures p.peutTravailEnsemble == peutTravaillerEnsemble && p.aptitude == aptitude
    ensures p.nbGardesTheorique * internes <= jours * services < (p.nbGardesTheorique + 1) * internes
    ensures p.TablesFit() ==> p.Valid()
  {
    Planning(services, astreintes, internes, jours, diffGardes, diffAstreinte,
             nomService, nomAstreinte, respectVD, indispoForte, indispoSouple,
             peutTravaillerEnsemble, aptitude, (jours * services) / internes)
  }
}

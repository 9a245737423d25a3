# ChocoPlanning, modelled in Dafny

ChocoPlanning builds an on-call planning for hospital interns ("internes") as
a Choco constraint model. There are two kinds of duties:

- shift variables `x[s][i][t]` say whether intern `i` works service `s` on day `t`;
- standby variables `y[a][i][t]` say whether intern `i` is on standby ("astreinte") `a` on day `t`.

`SolveurPlanning` posts a fixed list of rules over these 0/1 variables:

- at most one shift a day;
- exactly one intern per service and day;
- balanced totals;
- rest after a shift;
- for interns who ask for it, a Friday shift is followed by a Sunday shift, and a Sunday
  shift by a preceding Friday shift;
- hard unavailability and aptitude;
- pairs who may not work together;
- grouped standby blocks;
- exactly one intern per standby and day;
- no shift while on standby;
- balanced SAMU shifts;
- balanced Thursday, Saturday and Sunday shifts;
- balanced standbys.

`solve` flattens every variable into one array for the search, and `displayResult` tallies
the outcome. `SolveurPlanningTest` checks a solution against each rule with a loop per
`@Test`.

The model works on values, not on solver variables:

- An assignment of the variables is a grid `seq<seq<seq<int>>>`.
- A planning is the datatype `Planning`, which holds the constructor's arguments.
- Every posted rule is a predicate on the grids, and `Initialisation` is their conjunction.
- The loops that the Java code runs while posting a rule become Dafny methods over
  arrays, each proved against a function that specifies it. Those loops transpose the
  grids into `[interne][jour][service]` arrays and gather filtered cells into padded rows.
- Each `@Test` becomes a method that returns `false` where the first `assertTrue`
  would fail. Each of these methods is proved equal to a predicate.

The predicates are then related to the rules. Some tests accept exactly the rule's
solutions. Others are only implied by the rule. Where neither holds, a lemma gives a
concrete counterexample. The main theorem is `ReglesEtTests.SolutionPassesTests`: every
solution of the posted model passes every test that the rules imply.

Modules:

- `Grids`: sums, columns, flattenings and weekday sums over grids.
- `Semaine`: the weekday enum.
- `SolveurPlanning`: the planning and its rules.
- `SolveurArrays`: the array loops of `SolveurPlanning.java`.
- `SolveurPlanningTest`: the test checkers and their fixture.
- `ReglesEtTests`: rules against tests.

Where the code and its tests disagree, the model follows the code:

- The constructor (`SolveurPlanning.java:69-87`) checks nothing about the sizes of the
  tables it receives; it only stores them and divides by the intern count. `NewPlanning`
  therefore requires only a non-zero intern count, and it yields a valid planning only
  when the tables fit.
- `gardeEnsemble` reads `peutTravailEnsemble[i][j]` only for `i < j`
  (`SolveurPlanning.java:487`), and `GardeEnsemble` does the same. `gardeEnsembleTest`
  reads every ordered pair (`SolveurPlanningTest.java:279-303`). The two agree only on a
  symmetric table: `GardeEnsembleImpliesTest` proves agreement under symmetry, and
  `GardeEnsembleNeedsSymmetry` gives a counterexample without it.
- `equilibreJSD` matches the literal day numbers `JEUDI`, `SAMEDI` and `DIMANCHE` (3, 5
  and 6) in a `switch` on `t` (`SolveurPlanning.java:700-715`), so it counts only the
  first week. `equilibreJSDTest` buckets the days by `t % 7`
  (`SolveurPlanningTest.java:501-560`), so it counts every week.
  - `EquilibreJSDTestNotImplied` and `EquilibreJSDRuleNotImplied` show that neither
    implies the other.
  - `EquilibreJSDAgreesOnShortHorizon` shows that they agree on horizons of 7 to 10 days.
- The comments of `indisponibiliteSouple` say that the shifts on soft-unavailable days are
  to be minimised (`SolveurPlanning.java:776` and `792`). The code builds the
  soft-unavailability gather, but the sum that would tie the objective to it is commented
  out (`SolveurPlanning.java:872`). The model proves what the gather would give:
  `SoftGatherRespected`.

## Model

| member | source | states |
|---|---|---|
| Semaine.Semaine.ToInt | src/main/java/fr/brandon/planning/Semaine.java:4-21 | the code of a weekday is at most 7, it is 7 exactly for NB_JOURS_SEMAINE, and decoding it gives the weekday back |
| Semaine.ToIntInjective | src/main/java/fr/brandon/planning/Semaine.java:4-11 | two weekdays with the same code are the same weekday |
| Semaine.NbJoursSemaineFollowsDimanche | src/main/java/fr/brandon/planning/Semaine.java:10-11 | the week length is the code after Sunday's |
| SolveurPlanning.CodesMatchSemaine | src/main/java/fr/brandon/planning/SolveurPlanning.java:19-26 | the integer day constants of the solver equal the codes of the Semaine enum |
| SolveurPlanning.NewPlanning | src/main/java/fr/brandon/planning/SolveurPlanning.java:69-87 | the constructor stores every argument unchanged; nbGardesTheorique is the floor of nbJours*nbServices/nbInternes; tables of the announced sizes give a valid planning |
| SolveurPlanning.Planning.AuPlus1GardeJour | src/main/java/fr/brandon/planning/SolveurPlanning.java:278-296 | every intern works at most one service a day |
| SolveurPlanning.Planning.Tjrs1PersonneDeGarde | src/main/java/fr/brandon/planning/SolveurPlanning.java:303-321 | every service has exactly one intern each day |
| SolveurPlanning.Planning.EquilibreGarde | src/main/java/fr/brandon/planning/SolveurPlanning.java:326-348 | every intern's total shift count is within nbGardeEcart of nbGardesTheorique |
| SolveurPlanning.Planning.ReposLendemain | src/main/java/fr/brandon/planning/SolveurPlanning.java:372-403 | a shift on a day before the last leaves every service of the next day empty for that intern |
| SolveurPlanning.Planning.EnchainementVD | src/main/java/fr/brandon/planning/SolveurPlanning.java:409-442 | for an intern who accepts the rule and a day before the last: a Friday shift means exactly one shift two days later, a Sunday shift exactly one shift two days earlier |
| SolveurPlanning.Planning.IndisponibiliteForte | src/main/java/fr/brandon/planning/SolveurPlanning.java:447-456 | no shift on a hard-unavailable day |
| SolveurPlanning.Planning.EstCapable | src/main/java/fr/brandon/planning/SolveurPlanning.java:461-470 | no shift in a service the intern is not apt for on that day |
| SolveurPlanning.Planning.GardeEnsemble | src/main/java/fr/brandon/planning/SolveurPlanning.java:475-521 | for i < j not allowed together, at most one of i and j works on any day |
| SolveurPlanning.Planning.GroupementAstreintes | src/main/java/fr/brandon/planning/SolveurPlanning.java:526-565 | standbys come in blocks: Monday with Tuesday, Wednesday with Thursday, Friday with Saturday and Sunday |
| SolveurPlanning.Planning.TjrsUneAstreinte | src/main/java/fr/brandon/planning/SolveurPlanning.java:570-588 | every standby has exactly one intern each day |
| SolveurPlanning.Planning.IncompatibleGardeAstreinte | src/main/java/fr/brandon/planning/SolveurPlanning.java:593-615 | an intern on standby works no service that day |
| SolveurPlanning.Planning.EquilibreSamu | src/main/java/fr/brandon/planning/SolveurPlanning.java:620-647 | every intern's SAMU shift count is within nbGardeEcart of nbJours/nbInternes |
| SolveurPlanning.Planning.EquilibreJSD | src/main/java/fr/brandon/planning/SolveurPlanning.java:685-732 | every intern's shifts on the literal days 3, 5 and 6 are each within nbGardeEcart of nbJours*nbServices/7/nbInternes |
| SolveurPlanning.Planning.EquilibreAstreinte | src/main/java/fr/brandon/planning/SolveurPlanning.java:737-766 | every intern's standby count is within nbAstreintesEcart of nbJours/nbInternes |
| SolveurPlanning.Planning.EnchainementVDIndexable | src/main/java/fr/brandon/planning/SolveurPlanning.java:420-441 | the rule reads day t+2 after a Friday t < nbJours-1 only when some service exists: it stays in range unless an intern asking for the rule has a Friday on the last day but one |
| SolveurPlanning.Planning.TjrsUneAstreinteIndexable | src/main/java/fr/brandon/planning/SolveurPlanning.java:572-587 | the standby transpose is allocated with nbServices rows and writes nbAstreintes of them: it fits when nbAstreintes <= nbServices or nothing is written |
| SolveurPlanning.Planning.SamuIndexable | src/main/java/fr/brandon/planning/SolveurPlanning.java:626-638 | each row of nbJours cells receives nbJours cells per service named SAMU: it fits with at most one such service or no days |
| SolveurPlanning.Planning.JSDIndexable | src/main/java/fr/brandon/planning/SolveurPlanning.java:691-719 | each row of nbJours/7+1 cells receives one cell per service for day 3 (and 5, 6) when that day exists: it fits on horizons up to day 3 or with at most nbJours/7+1 services |
| SolveurPlanning.Planning.AstreinteIndexable | src/main/java/fr/brandon/planning/SolveurPlanning.java:744-756 | each row of nbJours cells receives nbJours cells per standby: it fits with at most one standby or no days |
| SolveurPlanning.Planning.Postable | src/main/java/fr/brandon/planning/SolveurPlanning.java:236-275 | every array that the rules posted by initialisation fill is large enough for what they write into it |
| SolveurPlanning.Planning.Initialisation | src/main/java/fr/brandon/planning/SolveurPlanning.java:236-275 | a solution has 0/1 cells and satisfies every rule initialisation posts |
| SolveurArrays.TransposeParInterne | src/main/java/fr/brandon/planning/SolveurPlanning.java:281-289 | the [interne][jour][service] array holds x[s][i][t] at [i,t,s], so its fibre at (i,t) is the intern's day across services |
| SolveurArrays.TransposeParService | src/main/java/fr/brandon/planning/SolveurPlanning.java:306-314 | the [service][jour][interne] array holds g[k][i][t] at [k,t,i], zero in extra rows, so its fibre at (k,t) is the day column of service k |
| SolveurArrays.GatherParInterne | src/main/java/fr/brandon/planning/SolveurPlanning.java:331-341 | row i holds, in service-then-day order, exactly the kept cells of intern i, padded with 0 |
| SolveurArrays.NbGardesInterne | src/main/java/fr/brandon/planning/SolveurPlanning.java:331-341 | row i is the flattening of intern i's shifts, of length nbServices*nbJours, with the same sum |
| SolveurArrays.NbAstreinteInterne | src/main/java/fr/brandon/planning/SolveurPlanning.java:744-756 | row i is intern i's flattened standbys padded to nbJours, with the same sum |
| SolveurArrays.SamuLength | src/main/java/fr/brandon/planning/SolveurPlanning.java:626-638 | the SAMU cells of an intern number nbJours per service named SAMU |
| SolveurArrays.SamuParInterne | src/main/java/fr/brandon/planning/SolveurPlanning.java:626-638 | row i holds intern i's SAMU-service cells padded to nbJours, with the same sum |
| SolveurArrays.JourParInterne | src/main/java/fr/brandon/planning/SolveurPlanning.java:691-719 | row i holds intern i's shifts on the literal day d across services, padded, with the same sum |
| SolveurArrays.JsdParInterne | src/main/java/fr/brandon/planning/SolveurPlanning.java:691-719 | the Thursday, Saturday and Sunday rows of intern i sum to its shifts on days 3, 5 and 6 |
| SolveurArrays.SoftCellsIsFlags | src/main/java/fr/brandon/planning/SolveurPlanning.java:795-817 | the gather has nbServices cells per soft-unavailable day |
| SolveurArrays.CompteIndispos | src/main/java/fr/brandon/planning/SolveurPlanning.java:795-803 | the counted total is the number of soft-unavailable (intern, day) pairs |
| SolveurArrays.KeptCountAll | src/main/java/fr/brandon/planning/SolveurPlanning.java:744-756 | the gather of every cell of s services (or standbys) writes s*nbJours cells into each row |
| SolveurArrays.KeptCountSamu | src/main/java/fr/brandon/planning/SolveurPlanning.java:626-638 | the SAMU gather writes nbJours cells per service named SAMU into each row |
| SolveurArrays.KeptCountDay | src/main/java/fr/brandon/planning/SolveurPlanning.java:697-719 | the gather of one literal day writes one cell per service into each row when the day is inside the horizon, none otherwise |
| SolveurArrays.AstreinteIndexableIsFit | src/main/java/fr/brandon/planning/SolveurPlanning.java:744-756 | AstreinteIndexable holds exactly when the standby gather fits its rows of nbJours cells |
| SolveurArrays.SamuIndexableIsFit | src/main/java/fr/brandon/planning/SolveurPlanning.java:626-638 | SamuIndexable holds exactly when the SAMU gather fits its rows of nbJours cells |
| SolveurArrays.JSDIndexableIsFit | src/main/java/fr/brandon/planning/SolveurPlanning.java:691-719 | JSDIndexable holds exactly when the Thursday, Saturday and Sunday gathers each fit their rows of nbJours/7+1 cells |
| SolveurArrays.IndisponibiliteSouple | src/main/java/fr/brandon/planning/SolveurPlanning.java:773-822 | the array has nbServices cells per soft-unavailable day and holds, intern by intern and day by day, the shift cells of those days |
| SolveurArrays.Solve | src/main/java/fr/brandon/planning/SolveurPlanning.java:829-849 | the search array is every x cell in [s][i][t] order followed by every y cell, of length (S+A)*N*D |
| SolveurArrays.SolvePositionGarde | src/main/java/fr/brandon/planning/SolveurPlanning.java:833-840 | x[s][i][t] sits at position (s*N+i)*D+t of the search array |
| SolveurArrays.SolvePositionAstreinte | src/main/java/fr/brandon/planning/SolveurPlanning.java:842-849 | y[a][i][t] sits at position S*N*D+(a*N+i)*D+t of the search array |
| SolveurArrays.Tally | src/main/java/fr/brandon/planning/SolveurPlanning.java:884-936 | one count per (duty, intern) equals the sum of that intern's row, and one total per intern equals the sum over all its rows |
| SolveurArrays.DisplayResult | src/main/java/fr/brandon/planning/SolveurPlanning.java:884-936 | on a 0/1 solution the displayed counts are the numbers of ones and the displayed totals are the intern's total shifts and standbys |
| SolveurPlanningTest.AuPlus1GardeJourTest | src/test/java/fr/brandon/planning/SolveurPlanningTest.java:127-141 | passes exactly when every intern's day sums to at most 1 |
| SolveurPlanningTest.OneStaffPerDayTest | src/test/java/fr/brandon/planning/SolveurPlanningTest.java:147-160 | passes exactly when every duty has exactly one cell equal to 1 each day |
| SolveurPlanningTest.Tjrs1PersonneDeGardeTest | src/test/java/fr/brandon/planning/SolveurPlanningTest.java:147-160 | passes exactly when every service has one intern each day |
| SolveurPlanningTest.TjrsUneAstreinteTest | src/test/java/fr/brandon/planning/SolveurPlanningTest.java:394-408 | passes exactly when every standby has one intern each day |
| SolveurPlanningTest.BalancedStaffTest | src/test/java/fr/brandon/planning/SolveurPlanningTest.java:166-186 | passes exactly when every intern's count of ones is within the gap of the theoretical count |
| SolveurPlanningTest.EquilibreGardeTest | src/test/java/fr/brandon/planning/SolveurPlanningTest.java:166-186 | passes exactly when every intern's shift count is within nbGardeEcart of nbGardesTheorique |
| SolveurPlanningTest.EquilibreAstreinteTest | src/test/java/fr/brandon/planning/SolveurPlanningTest.java:566-588 | passes exactly when every intern's standby count is within nbAstreintesEcart of nbJours/nbInternes |
| SolveurPlanningTest.ReposLendemainTest | src/test/java/fr/brandon/planning/SolveurPlanningTest.java:192-205 | passes exactly when a shift in service s is never followed by the same service the next day |
| SolveurPlanningTest.EnchainementVDTest | src/test/java/fr/brandon/planning/SolveurPlanningTest.java:211-236 | passes exactly when, for interns asking for it, a Friday shift is followed by exactly one shift on Sunday, inside the horizon |
| SolveurPlanningTest.IndisponibiliteForteTest | src/test/java/fr/brandon/planning/SolveurPlanningTest.java:242-255 | passes exactly when the hard-unavailability rule holds |
| SolveurPlanningTest.EstCapableTest | src/test/java/fr/brandon/planning/SolveurPlanningTest.java:261-273 | passes exactly when the aptitude rule holds |
| SolveurPlanningTest.ApartTest | src/test/java/fr/brandon/planning/SolveurPlanningTest.java:284-299 | passes exactly when interns i and j never both work on a day |
| SolveurPlanningTest.GardeEnsembleTest | src/test/java/fr/brandon/planning/SolveurPlanningTest.java:279-303 | passes exactly when every ordered pair not allowed together is apart |
| SolveurPlanningTest.GroupementAstreintesTest | src/test/java/fr/brandon/planning/SolveurPlanningTest.java:309-388 | passes exactly when every standby day before the last two has its weekday's neighbours on standby too |
| SolveurPlanningTest.IncompatibleGardeAstreinteTest | src/test/java/fr/brandon/planning/SolveurPlanningTest.java:414-432 | passes exactly when no standby day carries a shift |
| SolveurPlanningTest.SamuMasked | src/test/java/fr/brandon/planning/SolveurPlanningTest.java:443-453 | the counted cells of intern i are its shifts in services named SAMU and zero elsewhere |
| SolveurPlanningTest.CompteSamu | src/test/java/fr/brandon/planning/SolveurPlanningTest.java:443-453 | the count of intern i is the number of ones among its SAMU cells |
| SolveurPlanningTest.EquilibreSamuTest | src/test/java/fr/brandon/planning/SolveurPlanningTest.java:438-462 | passes exactly when every intern's SAMU count is within nbGardeEcart of nbJours/nbInternes |
| SolveurPlanningTest.SommeServices | src/test/java/fr/brandon/planning/SolveurPlanningTest.java:473-478 | the cell is the intern's shift sum for the day |
| SolveurPlanningTest.GardeParJour | src/test/java/fr/brandon/planning/SolveurPlanningTest.java:470-479 | garde[i,t] is intern i's shift sum on day t |
| SolveurPlanningTest.SansEnchainementTest | src/test/java/fr/brandon/planning/SolveurPlanningTest.java:481-493 | passes exactly when intern i never works days t, t+2 and t+4 |
| SolveurPlanningTest.EnchainementDesagreableTest | src/test/java/fr/brandon/planning/SolveurPlanningTest.java:468-495 | passes exactly when no intern works t, t+2 and t+4 with t+4 inside the horizon |
| SolveurPlanningTest.JsdParJour | src/test/java/fr/brandon/planning/SolveurPlanningTest.java:508-532 | the three tallies are every intern's shifts on days with t mod 7 equal to 3, 5 and 6 |
| SolveurPlanningTest.EquilibreJSDTest | src/test/java/fr/brandon/planning/SolveurPlanningTest.java:501-560 | passes exactly when each of the three weekday tallies is within nbGardeEcart of nbJours*nbServices/7/nbInternes |
| SolveurPlanningTest.CompteSouple | src/test/java/fr/brandon/planning/SolveurPlanningTest.java:599-615 | counts intern i's soft-unavailable days and those on which it works no service |
| SolveurPlanningTest.IndisponibiliteSoupleTest | src/test/java/fr/brandon/planning/SolveurPlanningTest.java:594-627 | passes exactly when every intern has at least half (rounded down) of its soft-unavailable days respected |
| SolveurPlanningTest.Fixture | src/test/java/fr/brandon/planning/SolveurPlanningTest.java:24-101 | the test planning (3 services, 1 standby, 10 interns, 15 days) is valid |
| SolveurPlanningTest.FixtureFacts | src/test/java/fr/brandon/planning/SolveurPlanningTest.java:24-101 | the test planning can be posted, its table is symmetric, nbGardesTheorique is 4, nbJourTheorique is 0 and one service is named SAMU |
| ReglesEtTests.AuPlus1GardeJourAgrees | src/main/java/fr/brandon/planning/SolveurPlanning.java:291-295 | on 0/1 cells the rule holds exactly when auPlus1GardeJourTest passes |
| ReglesEtTests.Tjrs1PersonneDeGardeAgrees | src/main/java/fr/brandon/planning/SolveurPlanning.java:316-320 | on 0/1 cells the rule holds exactly when tjrs1PersonneDeGardeTest passes |
| ReglesEtTests.TjrsUneAstreinteAgrees | src/main/java/fr/brandon/planning/SolveurPlanning.java:583-587 | on 0/1 cells the rule holds exactly when tjrsUneAstreinteTest passes |
| ReglesEtTests.EquilibreGardeAgrees | src/main/java/fr/brandon/planning/SolveurPlanning.java:344-347 | on 0/1 cells the rule holds exactly when equilibreGardeTest passes |
| ReglesEtTests.EquilibreAstreinteAgrees | src/main/java/fr/brandon/planning/SolveurPlanning.java:744-763 | on 0/1 cells the rule holds exactly when equilibreAstreinteTest passes |
| ReglesEtTests.EquilibreSamuAgrees | src/main/java/fr/brandon/planning/SolveurPlanning.java:626-646 | on 0/1 cells the rule holds exactly when equilibreSamuTest passes |
| ReglesEtTests.ReposLendemainImpliesTest | src/main/java/fr/brandon/planning/SolveurPlanning.java:386-402 | the rule implies reposLendemainTest |
| ReglesEtTests.ReposLendemainTestIsWeaker | src/test/java/fr/brandon/planning/SolveurPlanningTest.java:192-205 | two services on consecutive days pass the test and break the rule |
| ReglesEtTests.EnchainementVDImpliesTest | src/main/java/fr/brandon/planning/SolveurPlanning.java:420-440 | on postable plannings the rule implies enchainementVDTest |
| ReglesEtTests.EnchainementVDBothWays | src/main/java/fr/brandon/planning/SolveurPlanning.java:420-441 | for an intern asking for the rule, a Friday t is worked exactly when Sunday t+2 is, when day t+3 exists |
| ReglesEtTests.GroupementAstreintesImpliesTest | src/main/java/fr/brandon/planning/SolveurPlanning.java:526-565 | the rule implies groupementAstreintesTest |
| ReglesEtTests.IncompatibleGardeAstreinteImpliesTest | src/main/java/fr/brandon/planning/SolveurPlanning.java:593-615 | on 0/1 standbys the rule implies incompatibleGardeAstreinteTest |
| ReglesEtTests.GardeEnsembleImpliesTest | src/main/java/fr/brandon/planning/SolveurPlanning.java:486-520 | with a symmetric table the rule, which reads only i < j, implies gardeEnsembleTest |
| ReglesEtTests.GardeEnsembleNeedsSymmetry | src/main/java/fr/brandon/planning/SolveurPlanning.java:486-520 | with an asymmetric table the rule holds and the test fails |
| ReglesEtTests.EquilibreJSDTestNotImplied | src/main/java/fr/brandon/planning/SolveurPlanning.java:710-728 | with 2 services and 11 days, so that every Thursday/Saturday/Sunday row is exactly filled, the literal-day rule holds and the weekday test fails |
| ReglesEtTests.EquilibreJSDRuleNotImplied | src/test/java/fr/brandon/planning/SolveurPlanningTest.java:501-560 | with 3 services and 14 days, so that every Thursday/Saturday/Sunday row is exactly filled, the weekday test passes and the literal-day rule fails |
| ReglesEtTests.EquilibreJSDAgreesOnShortHorizon | src/main/java/fr/brandon/planning/SolveurPlanning.java:691-728 | on 7 to 10 days the rule holds exactly when equilibreJSDTest passes |
| ReglesEtTests.ServicesNeedStaff | src/main/java/fr/brandon/planning/SolveurPlanning.java:278-321 | the first two rules have a solution on a non-empty horizon only if there are no more services than interns |
| ReglesEtTests.SolutionPassesTests | src/main/java/fr/brandon/planning/SolveurPlanning.java:236-275 | with a symmetric table every solution of the posted model passes every test except the weekday, soft and unpleasant-sequence ones |
| ReglesEtTests.FixtureSolutionPassesTests | src/test/java/fr/brandon/planning/SolveurPlanningTest.java:24-108 | a solution for the fixture passes gardeEnsembleTest, equilibreSamuTest and reposLendemainTest |
| ReglesEtTests.SoftGatherRespected | src/main/java/fr/brandon/planning/SolveurPlanning.java:808-820 | on 0/1 cells the soft gather sums to zero exactly when every soft-unavailable day is respected |
| ReglesEtTests.SoftGatherZeroPassesTest | src/test/java/fr/brandon/planning/SolveurPlanningTest.java:594-627 | a solution whose soft gather sums to zero passes indisponibiliteSoupleTest |

## Left out

- The Choco solver is not modelled. That covers the model object, the variable factories, the search strategy, `findOptimalSolution` and the objective variable. A posted rule is a predicate on a candidate assignment, and "the solver finds a solution" is the hypothesis `Initialisation(x, y)`.
- The objective is not tied to anything in the code: the sum over the soft gather is commented out. The model builds the gather (`IndisponibiliteSouple`) and states what its sum would mean. It does not prove that any solution minimises it.
- `enchainementDesagreable` in `SolveurPlanning.java` is commented out and posts nothing. Only its test is modelled, as a standalone check (`EnchainementDesagreableTest`), and `SolutionPassesTests` does not cover it.
- Console output is not modelled. That covers the prints in `displayResult` and `solve`, and `App.java`. `DisplayResult` keeps only the tallies it prints.
- The getters are the fields of `Planning`. `initialisation`'s creation of the solver and of the variable arrays is the pair of grid shapes `ShiftGrid`/`StandbyGrid`.
- The test's `setUpClass` is a literal fixture (`Fixture`). Its call to `solve` is not modelled: the tests are stated over any grid, and `FixtureSolutionPassesTests` covers grids that solve the fixture.
- `NewPlanning` requires a non-zero intern count: the Java constructor divides by it and would throw.
- Integers are unbounded: the counts and the products `nbJours * nbServices` are not wrapped to 32 bits.
- Postable, GatherParInterne, SamuParInterne, JourParInterne and NbAstreinteInterne read unwritten cells as 0: Postable asks only that every write stays in range. In Java, the rows that rules fill only partly leave `null` entries, and posting a sum over them would fail inside Choco.
- SamuKept compares service names by value. The Java `==` on strings compares references, which agree here only because the names are literals.
- EquilibreAstreinteTest takes the theoretical standby count as `nbJours / nbInternes`. The accessor `getNbAstreintesTheorique` that the test calls does not exist, and this is the value the rule uses.
- IndisponibiliteSouple hoists the soft-unavailability `if` out of the service loop. This fills the same cells in the same order.
- EnchainementVDTest returns `false` where the Java test would read day `t + 2` past the horizon (a Friday on the last day but one) and throw: a thrown exception fails the test just as an assertion does.
- SolutionPassesTests omits equilibreJSDTest, which agrees with the rule only on 7 to 10 days (`EquilibreJSDAgreesOnShortHorizon`), and indisponibiliteSoupleTest, which no posted rule implies.

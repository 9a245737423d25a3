/** The weekday codes of the roster: Monday is day 0 of the cycle, and the last code is
    the length of the cycle. */
module Semaine {

  datatype Semaine = Lundi | Mardi | Mercredi | Jeudi | Vendredi | Samedi | Dimanche | NbJoursSemaine
  {
    /** The code the enum constant was built with. */
    function ToInt(): (code: nat)
      ensures code <= 7
      ensures code == 7 <==> this == NbJoursSemaine
      ensures FromInt(code) == this
    {
      match this
      case Lundi => 0
      case Mardi => 1
      case Mercredi => 2
      case Jeudi => 3
      case Vendredi => 4
      case Samedi => 5
      case Dimanche => 6
      case NbJoursSemaine => 7
    }
  }

  /** The constant whose code is c (the constants listed in code order). */
  function FromInt(c: nat): Semaine
    requires c <= 7
  {
    [Lundi, Mardi, Mercredi, Jeudi, Vendredi, Samedi, Dimanche, NbJoursSemaine][c]
  }

  /** The eight codes are pairwise distinct. */
  lemma ToIntInjective(a: Semaine, b: Semaine)
    ensures a.ToInt() == b.ToInt() <==> a == b
  {
  }

  /** The cycle length is one more than the code of Sunday. */
  lemma NbJoursSemaineFollowsDimanche()
    ensures NbJoursSemaine.ToInt() == Dimanche.ToInt() + 1
  {
  }
}

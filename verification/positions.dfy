/** Position hierarchy: raw position labels, their five ranked classes and the
    defensive set, with the two deliberately asymmetric comparison predicates. */
module Positions {

  /** The five ranked classes, lowest rank first. */
  datatype PositionClass = Other | CentralMidfield | AttackingMidfield | Forward | CentreForward

  /** The labels with a class of their own; every other label is `Other`. */
  const ClassTable: map<string, PositionClass> := map[
    "Centre-Forward" := CentreForward,
    "Left Winger" := Forward,
    "Right Winger" := Forward,
    "Second Striker" := Forward,
    "Attacking Midfield" := AttackingMidfield,
    "Central Midfield" := CentralMidfield
  ]

  /** Goalkeepers, centre-backs, full-backs, defensive midfielders and wing-backs. */
  const DefensivePositions: set<string> := {
    "Goalkeeper",
    "Centre-Back",
    "Left-Back",
    "Right-Back",
    "Defensive Midfield",
    "Left Wing-Back",
    "Right Wing-Back"
  }

  /** The class of a label, falling back to `Other`. */
  function ClassOf(position: string): (c: PositionClass)
    ensures position !in ClassTable ==> c == Other
  {
    if position in ClassTable then ClassTable[position] else Other
  }

  /** The rank of a class: `Other` 1 up to `CentreForward` 5. */
  function ClassRank(c: PositionClass): (r: int)
    ensures 1 <= r <= 5
  {
    match c
    case Other => 1
    case CentralMidfield => 2
    case AttackingMidfield => 3
    case Forward => 4
    case CentreForward => 5
  }

  /** The rank of a label's class. */
  function Rank(position: string): (r: int)
    ensures 1 <= r <= 5
    ensures r == 1 <==> position !in ClassTable
  {
    ClassRank(ClassOf(position))
  }

  predicate IsDefensive(position: string) {
    position in DefensivePositions
  }

  /** Whether a player at `candidate` may be flagged as underperforming against one at
      `target`: never a defender against a non-defender, otherwise only an
      equally or more attacking role. */
  predicate CanBeUnderperformerAgainst(candidate: string, target: string) {
    if IsDefensive(candidate) && !IsDefensive(target) then false
    else Rank(candidate) >= Rank(target)
  }

  /** Whether a player at `candidate` may be credited with outperforming one at
      `target`: an equally or less attacking role, with no defensive exception. */
  predicate CanBeOutperformerAgainst(candidate: string, target: string) {
    Rank(candidate) <= Rank(target)
  }

  /** No defensive label has a class of its own, so every defender ranks 1. */
  lemma DefensiveRanksLowest(position: string)
    requires IsDefensive(position)
    ensures ClassOf(position) == Other && Rank(position) == 1
  {
  }

  /** Whenever a candidate may underperform a target, the target may be credited
      with outperforming the candidate; the converse fails only for a defensive
      candidate against a non-defensive target of the lowest rank. */
  lemma RulesDifferOnlyForDefenders(candidate: string, target: string)
    ensures CanBeUnderperformerAgainst(candidate, target) ==> CanBeOutperformerAgainst(target, candidate)
    ensures CanBeOutperformerAgainst(target, candidate) && !CanBeUnderperformerAgainst(candidate, target)
            <==> IsDefensive(candidate) && !IsDefensive(target) && Rank(target) == 1
  {
    if IsDefensive(candidate) {
      DefensiveRanksLowest(candidate);
    }
  }

  /** Both predicates are reflexive. */
  lemma Reflexive(position: string)
    ensures CanBeUnderperformerAgainst(position, position)
    ensures CanBeOutperformerAgainst(position, position)
  {
  }

  /** For every pair at least one predicate holds. */
  lemma AtLeastOneHolds(candidate: string, target: string)
    ensures CanBeUnderperformerAgainst(candidate, target) || CanBeOutperformerAgainst(candidate, target)
  {
  }

  /** The predicates are not inverses: a central midfielder may outperform a
      centre-forward, while a centre-back may not underperform one. */
  lemma Asymmetry()
    ensures CanBeOutperformerAgainst("Central Midfield", "Centre-Forward")
    ensures !CanBeUnderperformerAgainst("Centre-Back", "Centre-Forward")
    ensures CanBeOutperformerAgainst("Centre-Back", "Centre-Forward")
  {
    assert "Centre-Back" !in ClassTable;
  }
}

/** Which dates a rule produces (backend/app/core/recurrence.py). How an RFC 5545 rule is
    expanded is not part of this model: a rule is the set of dates it lands on, as a test. */
module Recurrence {

  datatype Rule = Rule(dtstart: int, lands: int -> bool)

  predicate RunsOn(rule: Rule, day: int) {
    rule.dtstart <= day && rule.lands(day)
  }

  /** RunsOn restricted to a range, as an increasing list. */
  function Occurrences(rule: Rule, first: int, last: int): (dates: seq<int>)
    ensures forall d :: d in dates <==> first <= d <= last && RunsOn(rule, d)
    ensures forall i, j :: 0 <= i < j < |dates| ==> dates[i] < dates[j]
    decreases last - first + 1
  {
    if last < first then []
    else
      var earlier := Occurrences(rule, first, last - 1);
      assert forall i :: 0 <= i < |earlier| ==> earlier[i] in earlier;
      if RunsOn(rule, last) then earlier + [last] else earlier
  }

  predicate OccursOn(rule: Rule, day: int) {
    Occurrences(rule, day, day) != []
  }

  lemma OccursOnIsRunsOn(rule: Rule, day: int)
    ensures OccursOn(rule, day) <==> RunsOn(rule, day)
  {
    assert Occurrences(rule, day, day - 1) == [];
  }
}

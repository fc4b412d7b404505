/** Greedy admission of token costs against a budget.

    The context assembler walks its candidates in order, admits each one whose
    token cost still fits into what is left of the budget, and stops at the first
    one that does not. This module states that policy on the costs alone and
    proves what it guarantees. */
module TokenBudget {

  /** Total of a sequence of token counts. */
  function Sum(costs: seq<nat>): nat
  {
    if costs == [] then 0 else costs[0] + Sum(costs[1..])
  }

  /** How many leading costs the greedy loop admits when `used` tokens are
      already spent: a cost is admitted while `used + cost <= maxTokens`, and the
      first cost that does not fit ends the walk. */
  function IncludedFrom(costs: seq<nat>, used: nat, maxTokens: int): (k: nat)
    ensures k <= |costs|
    decreases |costs|
  {
    if costs == [] || used + costs[0] > maxTokens then 0
    else 1 + IncludedFrom(costs[1..], used + costs[0], maxTokens)
  }

  /** How many leading costs the greedy loop admits from an empty budget. */
  function Included(costs: seq<nat>, maxTokens: int): (k: nat)
    ensures k <= |costs|
  {
    IncludedFrom(costs, 0, maxTokens)
  }

  /** One step of the greedy walk at position `i`: the cost there ends the walk
      if it does not fit on top of `used`, and is admitted otherwise. */
  lemma IncludedFromStep(costs: seq<nat>, i: nat, used: nat, maxTokens: int)
    requires i < |costs|
    ensures used + costs[i] > maxTokens ==> IncludedFrom(costs[i..], used, maxTokens) == 0
    ensures used + costs[i] <= maxTokens ==>
      IncludedFrom(costs[i..], used, maxTokens) == 1 + IncludedFrom(costs[i + 1..], used + costs[i], maxTokens)
  {
    assert costs[i..][0] == costs[i];
    assert costs[i..][1..] == costs[i + 1..];
  }

  /** Declarative description of where a greedy left-to-right admission stops:
      every prefix of the first `n` costs fits the budget, and taking one more
      cost (if there is one) would exceed it. */
  ghost predicate StopsAt(costs: seq<nat>, maxTokens: int, n: nat)
  {
    && n <= |costs|
    && (forall j :: 1 <= j <= n ==> Sum(costs[..j]) <= maxTokens)
    && (n < |costs| ==> Sum(costs[..n + 1]) > maxTokens)
  }

  lemma {:induction false} SumAppend(a: seq<nat>, b: seq<nat>)
    ensures Sum(a + b) == Sum(a) + Sum(b)
  {
    if a == [] {
      assert a + b == b;
    } else {
      assert (a + b)[1..] == a[1..] + b;
      SumAppend(a[1..], b);
    }
  }

  /** Extending a prefix by one cost adds exactly that cost. */
  lemma SumSnoc(costs: seq<nat>, i: nat)
    requires i < |costs|
    ensures Sum(costs[..i + 1]) == Sum(costs[..i]) + costs[i]
  {
    assert costs[..i + 1] == costs[..i] + [costs[i]];
    SumAppend(costs[..i], [costs[i]]);
    assert Sum([costs[i]]) == costs[i] + Sum([]);
  }

  /** A prefix never costs more than the whole sequence. */
  lemma SumPrefixBound(costs: seq<nat>, j: nat)
    requires j <= |costs|
    ensures Sum(costs[..j]) <= Sum(costs)
  {
    assert costs == costs[..j] + costs[j..];
    SumAppend(costs[..j], costs[j..]);
  }

  /** The first `j` costs are the head followed by the first `j - 1` of the tail. */
  lemma SumCons(costs: seq<nat>, j: nat)
    requires 1 <= j <= |costs|
    ensures Sum(costs[..j]) == costs[0] + Sum(costs[1..][..j - 1])
  {
    assert costs[..j][1..] == costs[1..][..j - 1];
  }

  /** What the greedy walk from `used` guarantees: every admitted prefix fitted
      on top of `used`, and the first cost left out would not have. */
  lemma {:induction false} IncludedFromStops(costs: seq<nat>, used: nat, maxTokens: int)
    ensures var k := IncludedFrom(costs, used, maxTokens);
      && (forall j :: 1 <= j <= k ==> used + Sum(costs[..j]) <= maxTokens)
      && (k < |costs| ==> used + Sum(costs[..k + 1]) > maxTokens)
    decreases |costs|
  {
    var k := IncludedFrom(costs, used, maxTokens);
    if costs == [] {
    } else if used + costs[0] > maxTokens {
      SumCons(costs, 1);
    } else {
      var rest := costs[1..];
      IncludedFromStops(rest, used + costs[0], maxTokens);
      assert k == 1 + IncludedFrom(rest, used + costs[0], maxTokens);
      forall j | 1 <= j <= k
        ensures used + Sum(costs[..j]) <= maxTokens
      {
        SumCons(costs, j);
      }
      if k < |costs| {
        SumCons(costs, k + 1);
      }
    }
  }

  /** The greedy count is where the declarative description says admission stops. */
  lemma IncludedStops(costs: seq<nat>, maxTokens: int)
    ensures StopsAt(costs, maxTokens, Included(costs, maxTokens))
  {
    IncludedFromStops(costs, 0, maxTokens);
  }

  /** The greedy count and the declarative description agree in both directions:
      there is exactly one stopping point, and the loop finds it. */
  lemma IncludedCharacterized(costs: seq<nat>, maxTokens: int, n: nat)
    ensures StopsAt(costs, maxTokens, n) <==> n == Included(costs, maxTokens)
  {
    IncludedStops(costs, maxTokens);
  }

  /** With a non-negative budget the admitted costs never exceed it. */
  lemma BudgetRespected(costs: seq<nat>, maxTokens: int)
    requires maxTokens >= 0
    ensures Sum(costs[..Included(costs, maxTokens)]) <= maxTokens
  {
    var k := Included(costs, maxTokens);
    IncludedStops(costs, maxTokens);
    if k == 0 {
      assert costs[..k] == [];
    }
  }

  /** When everything fits, everything is admitted. */
  lemma {:induction false} AllFitAllIncluded(costs: seq<nat>, maxTokens: int)
    requires Sum(costs) <= maxTokens
    ensures Included(costs, maxTokens) == |costs|
  {
    var k := Included(costs, maxTokens);
    IncludedStops(costs, maxTokens);
    if k < |costs| {
      SumPrefixBound(costs, k + 1);
    }
  }

  /** A cost that on its own exceeds the budget is never admitted, and neither is
      anything after it. */
  lemma OversizedStops(costs: seq<nat>, maxTokens: int, i: nat)
    requires i < |costs| && costs[i] > maxTokens
    ensures Included(costs, maxTokens) <= i
  {
    IncludedStops(costs, maxTokens);
    SumSnoc(costs, i);
  }

  /** A negative budget admits nothing. */
  lemma NegativeBudgetAdmitsNothing(costs: seq<nat>, maxTokens: int)
    requires maxTokens < 0
    ensures Included(costs, maxTokens) == 0
  {
  }

  /** Admission is a prefix: after the first misfit, a later cost that would fit
      (here 1 token after a 9-token misfit, budget 8) is not admitted. */
  lemma LaterFitNotAdmitted()
    ensures Included([5, 9, 1], 8) == 1
    ensures Sum([5, 9, 1][..1]) + 1 <= 8
  {
  }
}

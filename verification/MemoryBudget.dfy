/** The startup estimate of model memory (archon_search/memory_budget.py), and why it bounds what the embedder
    cache can hold. */
module MemoryBudget {
  import opened Sorting
  import opened Sums
  import EC = EmbedderCache

  const WEIGHTS_HEADROOM_FACTOR: real := 1.5
  const RUNTIME_BASELINE_MB: real := 1536.0

  /** Weight in MB of a name; a name outside the registry adds nothing. */
  function Weight(specs: map<string, real>, name: string): real {
    if name in specs then specs[name] else 0.0
  }

  function WeightIn(specs: map<string, real>): string -> real {
    (name: string) => Weight(specs, name)
  }

  function TotalWeight(specs: map<string, real>, names: seq<string>): real {
    Sum(names, WeightIn(specs))
  }

  lemma FirstWeight(specs: map<string, real>, names: seq<string>)
    requires names != []
    ensures TotalWeight(specs, names) == Weight(specs, names[0]) + TotalWeight(specs, names[1..])
  {
    var first := [names[0]];
    assert names == first + names[1..] && first[..0] == [];
    SumOfConcat(first, names[1..], WeightIn(specs));
    assert Sum(first, WeightIn(specs)) == Sum([], WeightIn(specs)) + Weight(specs, names[0]);
  }

  ghost predicate NonNegative(specs: map<string, real>) {
    forall n | n in specs :: specs[n] >= 0.0
  }

  function Heavier(specs: map<string, real>): (string, string) -> bool {
    (a, b) => Weight(specs, a) >= Weight(specs, b)
  }

  /** The weight sum of `estimate_model_memory_mb`; `others` lists the configured names without the pinned one. */
  function EstimatedWeights(specs: map<string, real>, rerankers: map<string, real>, others: seq<string>,
                            reranker: string, pinned: string, cacheSize: nat): real {
    TotalWeight(specs, Take(Sort(Heavier(specs), others), cacheSize)) + Weight(specs, pinned)
        + Weight(rerankers, reranker)
  }

  function EstimateModelMemoryMb(specs: map<string, real>, rerankers: map<string, real>, others: seq<string>,
                                 reranker: string, pinned: string, cacheSize: nat): real {
    EstimatedWeights(specs, rerankers, others, reranker, pinned, cacheSize) * WEIGHTS_HEADROOM_FACTOR
        + RUNTIME_BASELINE_MB
  }

  lemma {:induction false} SumIsNonNegative(specs: map<string, real>, names: seq<string>)
    requires NonNegative(specs)
    ensures TotalWeight(specs, names) >= 0.0
  {
    if names != [] {
      FirstWeight(specs, names);
      SumIsNonNegative(specs, names[1..]);
    }
  }

  lemma {:induction false} SumWithout(specs: map<string, real>, names: seq<string>, name: string)
    requires Distinct(names) && name in names
    ensures TotalWeight(specs, names) == Weight(specs, name) + TotalWeight(specs, EC.Remove(names, name))
    ensures |EC.Remove(names, name)| == |names| - 1
  {
    assert forall i | 0 <= i < |names[1..]| :: names[1..][i] == names[i + 1];
    FirstWeight(specs, names);
    if names[0] == name {
      assert name !in names[1..];
      EC.AbsentIsNotRemoved(names[1..], name);
    } else {
      SumWithout(specs, names[1..], name);
      var r := EC.Remove(names[1..], name);
      FirstWeight(specs, [names[0]] + r);
      assert ([names[0]] + r)[1..] == r;
    }
  }

  /** Of a list sorted heaviest first, the first `k` outweigh any `k` of its names. */
  lemma {:induction false} TheHeaviestOutweighAnyChoice(specs: map<string, real>, sorted: seq<string>,
                                                        chosen: seq<string>, k: nat)
    requires NonNegative(specs) && SortedBy(Heavier(specs), sorted)
    requires Distinct(chosen) && |chosen| <= k && forall n | n in chosen :: n in sorted
    ensures TotalWeight(specs, chosen) <= TotalWeight(specs, Take(sorted, k))
    decreases |sorted|
  {
    SumIsNonNegative(specs, Take(sorted, k));
    if chosen != [] {
      assert chosen[0] in sorted;
      var head, rest := sorted[0], sorted[1..];
      assert sorted == [head] + rest;
      assert Take(sorted, k) == [head] + Take(rest, k - 1);
      FirstWeight(specs, [head] + Take(rest, k - 1));
      assert ([head] + Take(rest, k - 1))[1..] == Take(rest, k - 1);
      if head in chosen {
        SumWithout(specs, chosen, head);
        EC.RemoveKeeps(chosen, head);
        TheHeaviestOutweighAnyChoice(specs, rest, EC.Remove(chosen, head), k - 1);
      } else {
        TheHeaviestOutweighAnyChoice(specs, rest, chosen, k);
        OneLess(specs, rest, head, k);
      }
    }
  }

  /** Exchanging the last of the first `k` for a name no lighter loses nothing. */
  lemma OneLess(specs: map<string, real>, sorted: seq<string>, head: string, k: nat)
    requires NonNegative(specs) && k > 0
    requires forall n | n in sorted :: Weight(specs, head) >= Weight(specs, n)
    ensures TotalWeight(specs, Take(sorted, k)) <= Weight(specs, head) + TotalWeight(specs, Take(sorted, k - 1))
  {
    if |sorted| >= k {
      assert sorted[k - 1] in sorted;
      assert Take(sorted, k) == sorted[..k] && Take(sorted, k - 1) == sorted[..k][..k - 1];
    } else {
      assert Take(sorted, k) == Take(sorted, k - 1);
    }
  }

  lemma {:induction false} SumSplits(specs: map<string, real>, order: seq<string>, pinned: string)
    requires Distinct(order) && pinned in order
    ensures TotalWeight(specs, order) == Weight(specs, pinned) + TotalWeight(specs, EC.Unpinned(order, {pinned}))
  {
    assert forall i | 0 <= i < |order[1..]| :: order[1..][i] == order[i + 1];
    FirstWeight(specs, order);
    if order[0] == pinned {
      assert pinned !in order[1..];
      NothingPinned(order[1..], pinned);
    } else {
      SumSplits(specs, order[1..], pinned);
      var u := EC.Unpinned(order[1..], {pinned});
      FirstWeight(specs, [order[0]] + u);
      assert ([order[0]] + u)[1..] == u;
    }
  }

  lemma {:induction false} NothingPinned(order: seq<string>, pinned: string)
    requires pinned !in order
    ensures EC.Unpinned(order, {pinned}) == order
  {
    if order != [] {
      assert order == [order[0]] + order[1..];
      NothingPinned(order[1..], pinned);
    }
  }

  /** In every state of every run of the cache in which callers ask for configured names, with the default model
      pinned, the cached weights and the reranker's fit the estimate. */
  lemma TheEstimateBoundsTheCache(
    specs: map<string, real>, rerankers: map<string, real>, others: seq<string>, reranker: string, pinned: string,
    run: seq<EC.Sys>, events: seq<EC.Event>, maxSize: nat, k: nat)
    requires NonNegative(specs) && EC.IsRun(run, events, {pinned}, maxSize) && k < |run|
    requires forall j | 0 <= j < k && events[j].Call? && events[j].name != pinned :: events[j].name in others
    ensures TotalWeight(specs, run[k].reg.order) + Weight(rerankers, reranker)
            <= EstimatedWeights(specs, rerankers, others, reranker, pinned, maxSize)
    ensures (TotalWeight(specs, run[k].reg.order) + Weight(rerankers, reranker)) * WEIGHTS_HEADROOM_FACTOR
              + RUNTIME_BASELINE_MB
            <= EstimateModelMemoryMb(specs, rerankers, others, reranker, pinned, maxSize)
  {
    EC.RunsKeepInv(run, events, {pinned}, maxSize, k);
    EC.CachedNamesWereAskedFor(run, events, {pinned}, maxSize, k);
    var order := run[k].reg.order;
    var u := EC.Unpinned(order, {pinned});
    EC.UnpinnedSelects(order, {pinned});
    forall n | n in u ensures n in others {
      assert EC.AskedFor(events, k, n);
      var j :| 0 <= j < k && j < |events| && events[j] == EC.Call(n);
    }
    SumSplits(specs, order, pinned);
    var sorted := Sort(Heavier(specs), others);
    SortKeeps(Heavier(specs), others);
    assert TotalPreorder(Heavier(specs));
    SortSorts(Heavier(specs), others);
    TheHeaviestOutweighAnyChoice(specs, sorted, u, maxSize);
  }

  /** The estimate is no larger than it must be: some choice of that many of the configured names weighs as much as it
      says of them, and it adds exactly the pinned model, the reranker, the headroom and the baseline. */
  lemma TheEstimateIsReached(
    specs: map<string, real>, rerankers: map<string, real>, others: seq<string>, reranker: string, pinned: string,
    cacheSize: nat)
    returns (chosen: seq<string>)
    ensures |chosen| == (if |others| < cacheSize then |others| else cacheSize) && multiset(chosen) <= multiset(others)
    ensures EstimateModelMemoryMb(specs, rerankers, others, reranker, pinned, cacheSize)
            == (TotalWeight(specs, chosen) + Weight(specs, pinned) + Weight(rerankers, reranker)) * 1.5 + 1536.0
  {
    var sorted := Sort(Heavier(specs), others);
    SortKeeps(Heavier(specs), others);
    chosen := Take(sorted, cacheSize);
    assert sorted == chosen + sorted[|chosen|..];
  }
}

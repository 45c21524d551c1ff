/** Executing a reviewed plan once (DeletionPlan in internal/pruner/plan.go). */
module Execution {
  import opened Plans
  import opened PlanItems
  import opened Accounting

  // ----- what is asked of the registry, in order

  /** A snapshot is compared with the registry, or a deletion is requested. */
  datatype Step = Verify(item: nat) | Request(item: nat)

  function FirstPass(n: nat): seq<Step>
  {
    if n == 0 then [] else FirstPass(n - 1) + [Verify(n - 1)]
  }

  function SecondPass(n: nat): seq<Step>
  {
    if n == 0 then [] else SecondPass(n - 1) + [Verify(n - 1), Request(n - 1)]
  }

  /** The traces an execution of n items can leave: the first pass up to the first snapshot that does
      not verify; or all of it, and then each item verified and requested in turn, up to the first
      that does not verify. */
  ghost predicate TraceOf(n: nat, verifies: (seq<Step>, nat) -> bool, trace: seq<Step>, requested: nat)
  {
    && (forall i | 0 <= i < requested :: verifies(FirstPass(n) + SecondPass(i), i))
    && (requested > 0 ==> forall i | 0 <= i < n :: verifies(FirstPass(i), i))
    && (trace == FirstPass(n) + SecondPass(requested) ||
        (trace == FirstPass(n) + SecondPass(requested) + [Verify(requested)] &&
         !verifies(FirstPass(n) + SecondPass(requested), requested)) ||
        (requested == 0 && Interrupted(n, verifies, trace)))
  }

  ghost predicate Interrupted(n: nat, verifies: (seq<Step>, nat) -> bool, trace: seq<Step>)
  {
    trace == [] || exists k: nat :: k < n && trace == FirstPass(k) + [Verify(k)] && !verifies(FirstPass(k), k)
  }

  /** Every snapshot verifies, both times. */
  ghost predicate AllVerify(n: nat, verifies: (seq<Step>, nat) -> bool)
  {
    forall i | 0 <= i < n :: verifies(FirstPass(i), i) && verifies(FirstPass(n) + SecondPass(i), i)
  }

  lemma NoSteps(n: nat, verifies: (seq<Step>, nat) -> bool)
    ensures FirstPass(0) == [] && TraceOf(n, verifies, [], 0)
  {
  }

  lemma FirstStep(n: nat, verifies: (seq<Step>, nat) -> bool, i: nat)
    requires i < n
    ensures FirstPass(i + 1) == FirstPass(i) + [Verify(i)]
    ensures !verifies(FirstPass(i), i) ==>
              TraceOf(n, verifies, FirstPass(i) + [Verify(i)], 0) && !AllVerify(n, verifies)
  {
    assert !verifies(FirstPass(i), i) ==> Interrupted(n, verifies, FirstPass(i) + [Verify(i)]);
    hide Interrupted;
  }

  lemma FirstDone(n: nat, verifies: (seq<Step>, nat) -> bool)
    ensures FirstPass(n) == FirstPass(n) + SecondPass(0) && TraceOf(n, verifies, FirstPass(n) + SecondPass(0), 0)
  {
  }

  lemma SecondStep(n: nat, verifies: (seq<Step>, nat) -> bool, i: nat)
    requires i < n && TraceOf(n, verifies, FirstPass(n) + SecondPass(i), i)
    requires forall j | 0 <= j < n :: verifies(FirstPass(j), j)
    ensures var trace := FirstPass(n) + SecondPass(i);
            && (!verifies(trace, i) ==> TraceOf(n, verifies, trace + [Verify(i)], i) && !AllVerify(n, verifies))
            && trace + [Verify(i)] + [Request(i)] == FirstPass(n) + SecondPass(i + 1)
            && (verifies(trace, i) ==> TraceOf(n, verifies, FirstPass(n) + SecondPass(i + 1), i + 1))
  {
    hide Interrupted;
    assert SecondPass(i + 1) == SecondPass(i) + [Verify(i)] + [Request(i)];
  }

  lemma SecondDone(n: nat, verifies: (seq<Step>, nat) -> bool)
    requires forall j | 0 <= j < n :: verifies(FirstPass(j), j) && verifies(FirstPass(n) + SecondPass(j), j)
    ensures AllVerify(n, verifies)
  {
  }

  /** Every deletion requested comes right after its own snapshot verified, which comes after all
      earlier deletions; and the first comes after every snapshot verified. */
  lemma RequestsVerified(n: nat, verifies: (seq<Step>, nat) -> bool, requested: nat, i: nat)
    requires i < requested <= n && TraceOf(n, verifies, FirstPass(n) + SecondPass(requested), requested)
    ensures var at := n + 2 * i;
            var trace := FirstPass(n) + SecondPass(requested);
            && at + 1 < |trace| && trace[at] == Verify(i) && trace[at + 1] == Request(i) && verifies(trace[..at], i)
  {
    hide FirstPass, SecondPass, Interrupted;
    PassLengths(n);
    SecondAt(i, requested);
    var first, second := FirstPass(n), SecondPass(requested);
    assert (first + second)[..n + 2 * i] == first + second[..2 * i];
  }

  lemma SecondAt(i: nat, n: nat)
    requires i < n
    ensures |SecondPass(n)| == 2 * n && SecondPass(n)[..2 * i] == SecondPass(i)
    ensures SecondPass(n)[2 * i] == Verify(i) && SecondPass(n)[2 * i + 1] == Request(i)
  {
    PassLengths(n);
    PassLengths(i);
    PassLengths(i + 1);
    PassPrefix(i, n);
    PassPrefix(i + 1, n);
    assert SecondPass(i + 1)[2 * i] == Verify(i) && SecondPass(i + 1)[2 * i + 1] == Request(i);
  }

  lemma {:induction false} PassLengths(n: nat)
    ensures |FirstPass(n)| == n && |SecondPass(n)| == 2 * n
  {
    if n > 0 {
      PassLengths(n - 1);
    }
  }

  lemma {:induction false} PassPrefix(i: nat, n: nat)
    requires i <= n
    ensures SecondPass(i) <= SecondPass(n)
    decreases n - i
  {
    if i < n {
      PassPrefix(i + 1, n);
    }
  }

  class DeletionPlan {
    const items: seq<Item>
    var used: bool

    constructor (items: seq<Item>)
      ensures this.items == items && !used
    {
      this.items, used := items, false;
    }

    method Summary() returns (s: PruneStats)
      requires forall i {:trigger Reviewed(items[i])} | 0 <= i < |items| :: Reviewed(items[i])
      ensures s == SummaryOf(items, |items|) && Balanced(s)
    {
      hide Reviewed, Announced, PlannedStats, Plus, Balanced;
      s := ZERO;
      ZeroBalanced();
      var i := 0;
      while i < |items|
        invariant i <= |items| && s == SummaryOf(items, i) && Balanced(s)
      {
        assert Reviewed(items[i]);
        AnnouncedExact(items[i]);
        AnnouncedBalanced(items[i]);
        PlusBalanced(s, Announced(items[i]));
        s := Plus(s, Announced(items[i]));
        i := i + 1;
      }
    }

    /** Deletes once, only after every snapshot was verified, each again right before its deletion and
        so after the deletions before it; stops at the first failure, and counts exactly what was
        confirmed. Whether a snapshot verifies may depend on all that was done before; the answer to
        a deletion is what a finished run of it confirms. */
    method Execute(verifies: (seq<Step>, nat) -> bool, answers: seq<Answer>, cancelled: bool,
                   ghost attempts: seq<Attempt>)
      returns (counted: PruneStats, ok: bool, trace: seq<Step>, ghost requested: nat)
      requires Answered(items, answers, attempts)
      modifies this`used
      ensures used && (old(used) ==> !ok && trace == [])
      ensures requested <= |items| && |answers| == |items| && counted == TotalOf(items, answers, requested)
      ensures TraceOf(|items|, verifies, trace, requested)
      ensures forall i | 0 <= i < requested && i + 1 < requested :: answers[i].ok
      ensures ok <==> && !old(used) && !cancelled && AllVerify(|items|, verifies)
                      && forall i | 0 <= i < |items| :: answers[i].ok
      ensures ok ==> requested == |items| && counted == SummaryOf(items, |items|)
    {
      hide *;
      AnswersReady(items, answers, attempts);
      TotalNone(items, answers);
      NoSteps(|items|, verifies);
      counted, ok, trace, requested := ZERO, false, [], 0;
      var total := new Total();
      if used {
        return;
      }
      used := true;
      var i := 0;
      while i < |items|
        invariant i <= |items| && used && trace == FirstPass(i)
        invariant fresh(total) && total.stats == ZERO
        invariant forall j | 0 <= j < i :: verifies(FirstPass(j), j)
      {
        FirstStep(|items|, verifies, i);
        var fits := verifies(trace, i);
        trace := trace + [Verify(i)];
        if !fits {
          return;
        }
        i := i + 1;
      }
      FirstDone(|items|, verifies);
      i := 0;
      while i < |items|
        invariant i <= |items| && used && requested == i && trace == FirstPass(|items|) + SecondPass(i)
        invariant forall j | 0 <= j < i :: verifies(FirstPass(|items|) + SecondPass(j), j) && answers[j].ok
        invariant TraceOf(|items|, verifies, trace, i)
        invariant fresh(total) && total.stats == counted == TotalOf(items, answers, i)
      {
        SecondStep(|items|, verifies, i);
        var fits := verifies(trace, i);
        trace := trace + [Verify(i)];
        if !fits {
          return;
        }
        var item, answer := items[i], answers[i];
        ReadyAt(items, answers, i);
        AnsweredMeans(item, answer);
        ReviewedMeans(item);
        trace := trace + [Request(i)];
        requested := requested + 1;
        var s := CountOutcome(AsDocs(item.all), item.all, item.seenBytes, answer.confirmed,
                              !item.whole || !answer.ok, !answer.ok);
        CountedMeans(item, answer);
        TotalStep(items, answers, i);
        total.Add(s);
        counted := total.stats;
        if !answer.ok {
          return;
        }
        i := i + 1;
      }
      SecondDone(|items|, verifies);
      SummaryKept(items, answers, |items|);
      ok := !cancelled;
    }
  }
}

/** The repositories of a reviewed plan, and what carrying them out counts as (DeletionPlan in
    internal/pruner/plan.go). */
module PlanItems {
  import opened Manifests
  import opened Sums
  import opened Statistics
  import opened Plans

  /** One repository of a plan. */
  datatype Item = Item(name: string, all: seq<Document>, selected: seq<Digest>, whole: bool,
                       seenBytes: uint64, keptBytes: uint64)

  /** What the registry made of the deletion of one item. */
  datatype Answer = Answer(confirmed: seq<Digest>, ok: bool)

  function AsDocs(list: seq<Document>): Docs
  {
    if list == [] then map[] else AsDocs(list[..|list| - 1])[list[|list| - 1].digest := list[|list| - 1]]
  }

  /** The item is a decision on an inspected repository. */
  ghost predicate Reviewed(item: Item)
  {
    var docs := AsDocs(item.all);
    && Validated(docs, item.all) && Distinct(item.selected) && Elements(item.selected) <= docs.Keys
    && item.seenBytes == UniqueBytes(docs, docs.Keys)
    && item.keptBytes == UniqueBytes(docs, docs.Keys - Elements(item.selected))
  }

  /** Only selected manifests are confirmed, all of them on success; of a whole repository all or none. */
  ghost predicate Honest(item: Item, answer: Answer)
  {
    && Distinct(answer.confirmed) && Elements(answer.confirmed) <= Elements(item.selected)
    && (answer.ok ==> Elements(answer.confirmed) == Elements(item.selected))
    && (item.whole && !answer.ok ==> answer.confirmed == [])
  }

  ghost function Counted(item: Item, answer: Answer): PruneStats
  {
    Outcome(AsDocs(item.all), item.all, Elements(answer.confirmed), !item.whole || !answer.ok, !answer.ok)
  }

  /** The counts of the first n items. */
  ghost function TotalOf(items: seq<Item>, answers: seq<Answer>, n: nat): PruneStats
    requires n <= |items| && n <= |answers|
  {
    if n == 0 then ZERO else Plus(TotalOf(items, answers, n - 1), Counted(items[n - 1], answers[n - 1]))
  }

  /** The sum of the first n values. */
  ghost function SumTo(f: nat -> nat, n: nat): nat
  {
    if n == 0 then 0 else SumTo(f, n - 1) + f(n - 1)
  }

  ghost function CountsAt(items: seq<Item>, answers: seq<Answer>): nat -> PruneStats
  {
    (i: nat) => if i < |items| && i < |answers| then Counted(items[i], answers[i]) else ZERO
  }

  /** Every count of the total is the sum over the items; of bytes, in 64-bit arithmetic. */
  lemma {:induction false} TotalFields(items: seq<Item>, answers: seq<Answer>, n: nat)
    requires n <= |items| && n <= |answers|
    ensures var total, at := TotalOf(items, answers, n), CountsAt(items, answers);
            && total.skipped == SumTo(i => at(i).skipped, n)
            && total.repositories == SumTo(i => at(i).repositories, n)
            && total.keptRepositories == SumTo(i => at(i).keptRepositories, n)
            && total.seenManifests == SumTo(i => at(i).seenManifests, n)
            && total.keptManifests == SumTo(i => at(i).keptManifests, n)
            && total.deletedManifests == SumTo(i => at(i).deletedManifests, n)
  {
    hide Counted;
    if n > 0 {
      TotalFields(items, answers, n - 1);
    }
  }

  lemma {:induction false} TotalBytes(items: seq<Item>, answers: seq<Answer>, n: nat)
    requires n <= |items| && n <= |answers|
    ensures var total, at := TotalOf(items, answers, n), CountsAt(items, answers);
            && total.seenBytes == SumTo(i => at(i).seenBytes, n) % U64
            && total.keptBytes == SumTo(i => at(i).keptBytes, n) % U64
            && total.deletedBytes == SumTo(i => at(i).deletedBytes, n) % U64
  {
    hide Counted;
    if n > 0 {
      TotalBytes(items, answers, n - 1);
      var at := CountsAt(items, answers);
      WrapStep(SumTo(i => at(i).seenBytes, n - 1), at(n - 1).seenBytes);
      WrapStep(SumTo(i => at(i).keptBytes, n - 1), at(n - 1).keptBytes);
      WrapStep(SumTo(i => at(i).deletedBytes, n - 1), at(n - 1).deletedBytes);
    }
  }

  /** What one item counts as: its repository, which remains unless it was deleted outright; the
      manifests confirmed, and the others; and the bytes seen. */
  lemma CountedFields(item: Item, answer: Answer)
    requires Reviewed(item) && Honest(item, answer)
    ensures var s := Counted(item, answer);
            && s.skipped == (if answer.ok then 0 else 1) && s.repositories == 1
            && s.keptRepositories == (if item.whole && answer.ok then 0 else 1)
            && s.seenManifests == |item.all| && s.deletedManifests == |answer.confirmed|
            && s.keptManifests == |item.all| - |answer.confirmed|
            && s.seenBytes == item.seenBytes && s.seenBytes == s.keptBytes + s.deletedBytes
  {
    hide *;
    var docs, removed := AsDocs(item.all), Elements(answer.confirmed);
    ReviewedMeans(item);
    AnsweredMeans(item, answer);
    HonestMeans(item, answer);
    CountedMeans(item, answer);
    OutcomeExact(docs, item.all, removed, !item.whole || !answer.ok, !answer.ok);
    OutcomeMeans(docs, item.all, removed, !item.whole || !answer.ok, !answer.ok);
    DistinctSize(answer.confirmed);
    BalancedMeans(Counted(item, answer));
    ReviewedFits(item);
  }

  lemma HonestMeans(item: Item, answer: Answer)
    requires Honest(item, answer)
    ensures Distinct(answer.confirmed)
  {
  }

  lemma ReviewedFits(item: Item)
    requires Reviewed(item)
    ensures UniqueBytes(AsDocs(item.all), AsDocs(item.all).Keys) % U64 == item.seenBytes
  {
    hide UniqueBytes, Validated, AsDocs;
  }

  /** What an item is announced to count as. */
  function Announced(item: Item): PruneStats
  {
    PruneStats(0, 1, if item.whole then 0 else 1, |item.all|, Minus(|item.all|, |item.selected|), |item.selected|,
               item.seenBytes, item.keptBytes, Minus(item.seenBytes, item.keptBytes) % U64)
  }

  /** A difference that a reviewed item never lets fall below zero. */
  function Minus(a: nat, b: nat): nat
  {
    if b <= a then a - b else 0
  }

  lemma AnnouncedExact(item: Item)
    requires Reviewed(item)
    ensures |item.selected| <= |item.all| && item.keptBytes <= item.seenBytes
    ensures Announced(item) == Outcome(AsDocs(item.all), item.all, Elements(item.selected), !item.whole, false)
  {
    hide *;
    var docs, removed := AsDocs(item.all), Elements(item.selected);
    ReviewedMeans(item);
    OutcomeExact(docs, item.all, removed, !item.whole, false);
    OutcomeMeans(docs, item.all, removed, !item.whole, false);
    DistinctSize(item.selected);
    FreedBytes(docs, docs.Keys, docs.Keys - removed);
    FitDifference(item.seenBytes, item.keptBytes);
    BalancedMeans(Outcome(docs, item.all, removed, !item.whole, false));
    AnnouncedMeans(item);
  }

  lemma ReviewedMeans(item: Item)
    requires Reviewed(item)
    ensures var docs := AsDocs(item.all);
            && Validated(docs, item.all) && Distinct(item.selected) && Elements(item.selected) <= docs.Keys
            && item.seenBytes == UniqueBytes(docs, docs.Keys)
            && item.keptBytes == UniqueBytes(docs, docs.Keys - Elements(item.selected))
  {
  }

  lemma BalancedMeans(s: PruneStats)
    requires Balanced(s)
    ensures s.seenManifests == s.keptManifests + s.deletedManifests
  {
  }

  lemma AnnouncedMeans(item: Item)
    requires |item.selected| <= |item.all| && item.keptBytes <= item.seenBytes
    ensures Announced(item) == PruneStats(0, 1, if item.whole then 0 else 1, |item.all|, |item.all| - |item.selected|,
                                          |item.selected|,
                                          item.seenBytes, item.keptBytes, (item.seenBytes - item.keptBytes) % U64)
  {
  }

  lemma AnsweredMeans(item: Item, answer: Answer)
    requires Reviewed(item) && Honest(item, answer)
    ensures var docs := AsDocs(item.all);
            Distinct(answer.confirmed) && Elements(answer.confirmed) <= docs.Keys && Balanced(Counted(item, answer))
    ensures answer.ok ==> Counted(item, answer) == PlannedStats(item)
  {
    hide Outcome, Validated, UniqueBytes, Balanced, Sublist;
    ReviewedMeans(item);
    OutcomeExact(AsDocs(item.all), item.all, Elements(answer.confirmed), !item.whole || !answer.ok, !answer.ok);
    AnnouncedExact(item);
  }

  /** What carrying out an item in full counts as. */
  ghost function PlannedStats(item: Item): PruneStats
  {
    Outcome(AsDocs(item.all), item.all, Elements(item.selected), !item.whole, false)
  }

  /** The announced counts of the first n items. */
  ghost function SummaryOf(items: seq<Item>, n: nat): PruneStats
    requires n <= |items|
  {
    if n == 0 then ZERO else Plus(SummaryOf(items, n - 1), PlannedStats(items[n - 1]))
  }

  ghost predicate Ready(items: seq<Item>, answers: seq<Answer>)
  {
    && |answers| == |items|
    && forall i {:trigger Reviewed(items[i])} | 0 <= i < |items| :: Reviewed(items[i]) && Honest(items[i], answers[i])
  }

  /** A plan carried out in full counts what it announced. */
  lemma {:induction false} SummaryKept(items: seq<Item>, answers: seq<Answer>, n: nat)
    requires n <= |items| == |answers| && Ready(items, answers) && forall i | 0 <= i < n :: answers[i].ok
    ensures TotalOf(items, answers, n) == SummaryOf(items, n)
  {
    hide Reviewed, Honest, Counted, PlannedStats, Plus;
    if n > 0 {
      ReadyAt(items, answers, n - 1);
      SummaryKept(items, answers, n - 1);
      AnsweredMeans(items[n - 1], answers[n - 1]);
    }
  }

  /** The totals balance after any number of items, whether or not the last one failed. */
  lemma {:induction false} TotalBalanced(items: seq<Item>, answers: seq<Answer>, n: nat)
    requires n <= |items| == |answers| && Ready(items, answers)
    ensures Balanced(TotalOf(items, answers, n))
  {
    hide Reviewed, Honest, Counted, Plus, Balanced;
    ZeroBalanced();
    if n > 0 {
      ReadyAt(items, answers, n - 1);
      TotalBalanced(items, answers, n - 1);
      AnsweredMeans(items[n - 1], answers[n - 1]);
      PlusBalanced(TotalOf(items, answers, n - 1), Counted(items[n - 1], answers[n - 1]));
    }
  }

  lemma ZeroBalanced()
    ensures Balanced(ZERO)
  {
  }

  lemma ReadyAt(items: seq<Item>, answers: seq<Answer>, i: nat)
    requires |answers| == |items| && Ready(items, answers) && i < |items|
    ensures Reviewed(items[i]) && Honest(items[i], answers[i])
  {
    hide Reviewed, Honest;
    assert Reviewed(items[i]);
  }

  lemma TotalNone(items: seq<Item>, answers: seq<Answer>)
    ensures TotalOf(items, answers, 0) == ZERO
  {
  }

  lemma TotalStep(items: seq<Item>, answers: seq<Answer>, i: nat)
    requires i < |items| == |answers|
    ensures TotalOf(items, answers, i + 1) == Plus(TotalOf(items, answers, i), Counted(items[i], answers[i]))
  {
    hide Counted, Plus;
  }

  lemma CountedMeans(item: Item, answer: Answer)
    ensures Counted(item, answer) ==
            Outcome(AsDocs(item.all), item.all, Elements(answer.confirmed), !item.whole || !answer.ok, !answer.ok)
  {
  }

  lemma AnnouncedBalanced(item: Item)
    requires Reviewed(item)
    ensures PlannedStats(item) == Announced(item) && Balanced(Announced(item))
  {
    hide Outcome, Validated, UniqueBytes, Balanced, Sublist, Announced;
    ReviewedMeans(item);
    OutcomeExact(AsDocs(item.all), item.all, Elements(item.selected), !item.whole, false);
    AnnouncedExact(item);
  }
}

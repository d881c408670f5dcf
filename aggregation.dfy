/**
 * Merging the per-worker results of a benchmark run into one result
 * (`collectResults` in main.go).
 *
 * The worker results arrive on a channel; here the channel is the sequence of
 * values it delivers, in delivery order. A latency histogram is a heap object
 * whose content is abstracted as the multiset of recorded samples.
 */
module Aggregation {
  import opened Wrappers

  /** `time.Time` of a failure, as an abstract instant. */
  type Timestamp = int

  /** Failures sharing one error signature: how many, and when the first was seen. */
  datatype FailureGroup = FailureGroup(count: nat, firstFailure: Timestamp)

  type FailureGroups = map<string, FailureGroup>

  /** What `Histogram.Export` hands to `hdrhistogram.Import`. */
  datatype Snapshot = Snapshot(samples: multiset<nat>)

  /** An HDR latency histogram, abstracted as the multiset of its samples (microseconds). */
  class Histogram {
    var samples: multiset<nat>

    /** `hdrhistogram.Import`: a new histogram holding the exported samples. */
    constructor Import(snapshot: Snapshot)
      ensures samples == snapshot.samples
    {
      samples := snapshot.samples;
    }

    /** `Export`: a snapshot of every recorded sample. */
    function Export(): (snapshot: Snapshot)
      reads this
      ensures snapshot.samples == samples
    {
      Snapshot(samples)
    }

    /** `Merge`: adds every sample of `from` to this histogram. */
    method Merge(from: Histogram)
      modifies this
      ensures samples == old(samples) + old(from.samples)
    {
      samples := samples + from.samples;
    }
  }

  /** One worker's outcome. A worker with `error` set aborted and its numbers are not used. */
  datatype WorkerResult = WorkerResult(
    succeeded: nat,
    failed: nat,
    rate: real,
    latencies: Histogram,
    failedByErrorGroup: FailureGroups,
    error: Option<string>)

  /** The aggregate result of a run. */
  datatype BenchmarkResult = BenchmarkResult(
    scenario: string,
    totalSucceeded: nat,
    totalFailed: nat,
    totalRate: real,
    totalLatencies: Histogram,
    failedByErrorGroup: FailureGroups,
    workers: seq<WorkerResult>)

  const AllWorkersFailed := "all workers failed"

  predicate Usable(w: WorkerResult)
  {
    w.error.None?
  }

  /** `w` is a usable worker that recorded failures with signature `name`. */
  predicate Holds(w: WorkerResult, name: string)
  {
    Usable(w) && name in w.failedByErrorGroup
  }

  /** The workers that did not abort, in arrival order. */
  function UsableWorkers(ws: seq<WorkerResult>): seq<WorkerResult>
  {
    if ws == [] then []
    else if Usable(ws[|ws| - 1]) then UsableWorkers(ws[..|ws| - 1]) + [ws[|ws| - 1]]
    else UsableWorkers(ws[..|ws| - 1])
  }

  /** The three running totals of the merge. */
  datatype Counters = Counters(succeeded: nat, failed: nat, rate: real)

  function Add(c: Counters, w: WorkerResult): Counters
  {
    Counters(c.succeeded + w.succeeded, c.failed + w.failed, c.rate + w.rate)
  }

  /** Sums of `succeeded`, `failed` and `rate` over `us`. */
  function Totals(us: seq<WorkerResult>): Counters
  {
    if us == [] then Counters(0, 0, 0.0)
    else Add(Totals(us[..|us| - 1]), us[|us| - 1])
  }

  /**
   * One worker's failure groups merged into `acc`: counts of a shared signature
   * are added and the entry already in `acc` keeps its first-failure time.
   */
  function MergeGroups(acc: FailureGroups, m: FailureGroups): FailureGroups
  {
    map name | name in acc.Keys + m.Keys ::
      if name in acc && name in m then FailureGroup(acc[name].count + m[name].count, acc[name].firstFailure)
      else if name in acc then acc[name]
      else m[name]
  }

  /** The failure groups of `us` merged in order. */
  function MergeAll(us: seq<WorkerResult>): FailureGroups
  {
    if us == [] then map[]
    else MergeGroups(MergeAll(us[..|us| - 1]), us[|us| - 1].failedByErrorGroup)
  }

  /** All latency samples recorded by `us`. */
  function Samples(us: seq<WorkerResult>): multiset<nat>
    reads set w | w in us :: w.latencies
  {
    if us == [] then multiset{}
    else Samples(us[..|us| - 1]) + us[|us| - 1].latencies.samples
  }

  /** Total count of signature `name` over the usable workers of `ws` (reference for the merge). */
  function KeyCount(ws: seq<WorkerResult>, name: string): nat
  {
    if ws == [] then 0
    else
      var w := ws[|ws| - 1];
      KeyCount(ws[..|ws| - 1], name) + (if Holds(w, name) then w.failedByErrorGroup[name].count else 0)
  }

  /** Each usable worker occurs among the usable workers as often as in `ws`; aborted workers never do. */
  lemma {:induction false} UsableWorkersMultiplicity(ws: seq<WorkerResult>)
    ensures forall w :: multiset(UsableWorkers(ws))[w] == if Usable(w) then multiset(ws)[w] else 0
  {
    if ws != [] {
      var p := ws[..|ws| - 1];
      assert ws == p + [ws[|ws| - 1]];
      UsableWorkersMultiplicity(p);
    }
  }

  /** The usable workers are exactly the workers of `ws` that did not abort. */
  lemma UsableWorkersMembers(ws: seq<WorkerResult>, w: WorkerResult)
    ensures w in UsableWorkers(ws) <==> w in ws && Usable(w)
  {
    UsableWorkersMultiplicity(ws);
  }

  lemma UsableWorkersSnoc(ws: seq<WorkerResult>, w: WorkerResult)
    ensures UsableWorkers(ws + [w]) == if Usable(w) then UsableWorkers(ws) + [w] else UsableWorkers(ws)
  {
    assert (ws + [w])[..|ws|] == ws;
  }

  lemma TotalsSnoc(us: seq<WorkerResult>, w: WorkerResult)
    ensures Totals(us + [w]) == Add(Totals(us), w)
  {
    assert (us + [w])[..|us|] == us;
  }

  lemma MergeAllSnoc(us: seq<WorkerResult>, w: WorkerResult)
    ensures MergeAll(us + [w]) == MergeGroups(MergeAll(us), w.failedByErrorGroup)
  {
    assert (us + [w])[..|us|] == us;
  }

  lemma SamplesSnoc(us: seq<WorkerResult>, w: WorkerResult)
    ensures Samples(us + [w]) == Samples(us) + w.latencies.samples
  {
    assert (us + [w])[..|us|] == us;
  }

  // Properties of the merge

  /** The usable workers of a concatenation are those of each part, in order. */
  lemma {:induction false} UsableWorkersConcat(a: seq<WorkerResult>, b: seq<WorkerResult>)
    ensures UsableWorkers(a + b) == UsableWorkers(a) + UsableWorkers(b)
    decreases |b|
  {
    if b == [] {
      assert a + b == a;
    } else {
      var b' := b[..|b| - 1];
      var w := b[|b| - 1];
      assert b == b' + [w];
      assert a + b == (a + b') + [w];
      UsableWorkersConcat(a, b');
      UsableWorkersSnoc(a + b', w);
      UsableWorkersSnoc(b', w);
    }
  }

  /**
   * An aborted worker contributes nothing, wherever it arrives: every merged
   * quantity is a function of the usable workers, and these do not change.
   */
  lemma ErrorWorkerContributesNothing(a: seq<WorkerResult>, e: WorkerResult, b: seq<WorkerResult>)
    requires e.error.Some?
    ensures UsableWorkers(a + [e] + b) == UsableWorkers(a + b)
  {
    UsableWorkersConcat(a + [e], b);
    UsableWorkersConcat(a, b);
    UsableWorkersSnoc(a, e);
  }

  /** The merge has nothing to report exactly when every worker aborted (or none arrived). */
  lemma {:induction false} NoUsableWorkerIff(ws: seq<WorkerResult>)
    ensures UsableWorkers(ws) == [] <==> forall i :: 0 <= i < |ws| ==> ws[i].error.Some?
  {
    if ws != [] {
      var p := ws[..|ws| - 1];
      var w := ws[|ws| - 1];
      assert ws == p + [w];
      UsableWorkersSnoc(p, w);
      NoUsableWorkerIff(p);
      if UsableWorkers(ws) == [] {
        forall i | 0 <= i < |ws| ensures ws[i].error.Some? {
          if i < |p| { assert ws[i] == p[i]; }
        }
      }
    }
  }

  /** One worker's groups merged in: the keys of both, counts added, the earlier entry's time kept. */
  lemma MergeGroupsEntry(acc: FailureGroups, m: FailureGroups, name: string)
    ensures name in MergeGroups(acc, m) <==> name in acc || name in m
    ensures name in acc ==> MergeGroups(acc, m)[name].firstFailure == acc[name].firstFailure
    ensures name !in acc && name in m ==> MergeGroups(acc, m)[name].firstFailure == m[name].firstFailure
    ensures name in MergeGroups(acc, m) ==>
              MergeGroups(acc, m)[name].count
              == (if name in acc then acc[name].count else 0) + (if name in m then m[name].count else 0)
  {
  }

  /** The merge after one more arrival. */
  lemma MergeAllStep(p: seq<WorkerResult>, w: WorkerResult)
    ensures MergeAll(UsableWorkers(p + [w]))
            == if Usable(w) then MergeGroups(MergeAll(UsableWorkers(p)), w.failedByErrorGroup)
               else MergeAll(UsableWorkers(p))
  {
    UsableWorkersSnoc(p, w);
    MergeAllSnoc(UsableWorkers(p), w);
  }

  /** Some worker of `ws` is usable and recorded signature `name`. */
  predicate SomeHolds(ws: seq<WorkerResult>, name: string)
  {
    exists i :: 0 <= i < |ws| && Holds(ws[i], name)
  }

  lemma SomeHoldsSnoc(p: seq<WorkerResult>, w: WorkerResult, name: string)
    ensures SomeHolds(p + [w], name) <==> SomeHolds(p, name) || Holds(w, name)
  {
    var ws := p + [w];
    if SomeHolds(p, name) {
      var i :| 0 <= i < |p| && Holds(p[i], name);
      assert ws[i] == p[i];
    }
    if Holds(w, name) {
      assert ws[|p|] == w;
    }
    if SomeHolds(ws, name) {
      var i :| 0 <= i < |ws| && Holds(ws[i], name);
      if i < |p| { assert p[i] == ws[i]; }
    }
  }

  /** The merged signatures are exactly those some usable worker recorded. */
  lemma {:induction false} MergedKeys(ws: seq<WorkerResult>, name: string)
    ensures name in MergeAll(UsableWorkers(ws)) <==> SomeHolds(ws, name)
  {
    if ws != [] {
      var p := ws[..|ws| - 1];
      var w := ws[|ws| - 1];
      assert ws == p + [w];
      MergeAllStep(p, w);
      MergeGroupsEntry(MergeAll(UsableWorkers(p)), w.failedByErrorGroup, name);
      MergedKeys(p, name);
      SomeHoldsSnoc(p, w, name);
    }
  }

  /**
   * The merged count of a signature is the sum of its counts over the usable
   * workers; a signature no usable worker recorded sums to zero.
   */
  lemma {:induction false} MergedCount(ws: seq<WorkerResult>, name: string)
    ensures name in MergeAll(UsableWorkers(ws)) ==> MergeAll(UsableWorkers(ws))[name].count == KeyCount(ws, name)
    ensures name !in MergeAll(UsableWorkers(ws)) ==> KeyCount(ws, name) == 0
  {
    if ws != [] {
      var p := ws[..|ws| - 1];
      var w := ws[|ws| - 1];
      assert ws == p + [w];
      MergeAllStep(p, w);
      MergeGroupsEntry(MergeAll(UsableWorkers(p)), w.failedByErrorGroup, name);
      KeyCountSnoc(p, w, name);
      MergedCount(p, name);
    }
  }

  /** `i` is the first index of `ws` holding a usable worker that recorded `name`. */
  predicate FirstHolder(ws: seq<WorkerResult>, name: string, i: nat)
  {
    i < |ws| && Holds(ws[i], name) && forall j :: 0 <= j < i ==> !Holds(ws[j], name)
  }

  lemma FirstHolderSnoc(p: seq<WorkerResult>, w: WorkerResult, name: string, i: nat)
    requires FirstHolder(p, name, i)
    ensures FirstHolder(p + [w], name, i) && (p + [w])[i] == p[i]
  {
    var ws := p + [w];
    forall j | 0 <= j < i ensures !Holds(ws[j], name) {
      assert ws[j] == p[j];
    }
  }

  lemma FirstHolderLast(p: seq<WorkerResult>, w: WorkerResult, name: string)
    requires !SomeHolds(p, name) && Holds(w, name)
    ensures FirstHolder(p + [w], name, |p|) && (p + [w])[|p|] == w
  {
    var ws := p + [w];
    forall j | 0 <= j < |p| ensures !Holds(ws[j], name) {
      assert ws[j] == p[j];
    }
  }

  /**
   * The merged first-failure time of a signature is that of the first usable
   * worker, in arrival order, that recorded it. Times are never compared.
   */
  lemma {:induction false} MergedFirstFailure(ws: seq<WorkerResult>, name: string)
    requires name in MergeAll(UsableWorkers(ws))
    ensures exists i: nat :: FirstHolder(ws, name, i)
                        && MergeAll(UsableWorkers(ws))[name].firstFailure == ws[i].failedByErrorGroup[name].firstFailure
  {
    var p := ws[..|ws| - 1];
    var w := ws[|ws| - 1];
    assert ws == p + [w];
    MergeAllStep(p, w);
    MergeGroupsEntry(MergeAll(UsableWorkers(p)), w.failedByErrorGroup, name);
    if name in MergeAll(UsableWorkers(p)) {
      MergedFirstFailure(p, name);
      var i: nat :| FirstHolder(p, name, i)
               && MergeAll(UsableWorkers(p))[name].firstFailure == p[i].failedByErrorGroup[name].firstFailure;
      FirstHolderSnoc(p, w, name, i);
    } else {
      MergedKeys(p, name);
      FirstHolderLast(p, w, name);
    }
  }

  /** Workers that arrive later never change a signature's first-failure time. */
  lemma {:induction false} FirstFailureStable(ws: seq<WorkerResult>, later: seq<WorkerResult>, name: string)
    requires name in MergeAll(UsableWorkers(ws))
    ensures name in MergeAll(UsableWorkers(ws + later))
    ensures MergeAll(UsableWorkers(ws + later))[name].firstFailure == MergeAll(UsableWorkers(ws))[name].firstFailure
    decreases |later|
  {
    if later == [] {
      assert ws + later == ws;
    } else {
      var l := later[..|later| - 1];
      var w := later[|later| - 1];
      assert later == l + [w];
      assert ws + later == (ws + l) + [w];
      FirstFailureStable(ws, l, name);
      UsableWorkersSnoc(ws + l, w);
      MergeAllSnoc(UsableWorkers(ws + l), w);
    }
  }

  /** Removing index `i` from `p + [w]`, for `i` inside `p`, removes it from `p`. */
  lemma RemoveBeforeLast(p: seq<WorkerResult>, w: WorkerResult, i: nat)
    requires i < |p|
    ensures (p + [w])[..i] + (p + [w])[i + 1..] == (p[..i] + p[i + 1..]) + [w]
  {
    var s := p + [w];
    assert s[..i] == p[..i];
    assert s[i + 1..] == p[i + 1..] + [w];
  }

  lemma RemoveLast(p: seq<WorkerResult>, w: WorkerResult)
    ensures (p + [w])[..|p|] + (p + [w])[|p| + 1..] == p
  {
    assert (p + [w])[..|p|] == p;
  }

  lemma AddSwap(c: Counters, x: WorkerResult, y: WorkerResult)
    ensures Add(Add(c, x), y) == Add(Add(c, y), x)
  {
  }

  lemma {:induction false} TotalsRemove(s: seq<WorkerResult>, i: nat)
    requires i < |s|
    ensures Totals(s) == Add(Totals(s[..i] + s[i + 1..]), s[i])
  {
    var p := s[..|s| - 1];
    var w := s[|s| - 1];
    assert s == p + [w];
    TotalsSnoc(p, w);
    if i < |p| {
      var q := p[..i] + p[i + 1..];
      TotalsRemove(p, i);
      RemoveBeforeLast(p, w, i);
      TotalsSnoc(q, w);
      AddSwap(Totals(q), p[i], w);
    } else {
      RemoveLast(p, w);
    }
  }

  lemma {:induction false} SamplesRemove(s: seq<WorkerResult>, i: nat)
    requires i < |s|
    ensures Samples(s) == Samples(s[..i] + s[i + 1..]) + s[i].latencies.samples
  {
    var p := s[..|s| - 1];
    var w := s[|s| - 1];
    assert s == p + [w];
    SamplesSnoc(p, w);
    if i < |p| {
      var q := p[..i] + p[i + 1..];
      SamplesRemove(p, i);
      RemoveBeforeLast(p, w, i);
      SamplesSnoc(q, w);
    } else {
      RemoveLast(p, w);
    }
  }

  lemma KeyCountSnoc(ws: seq<WorkerResult>, w: WorkerResult, name: string)
    ensures KeyCount(ws + [w], name) == KeyCount(ws, name) + (if Holds(w, name) then w.failedByErrorGroup[name].count else 0)
  {
    assert (ws + [w])[..|ws|] == ws;
  }

  lemma {:induction false} KeyCountRemove(s: seq<WorkerResult>, i: nat, name: string)
    requires i < |s|
    ensures KeyCount(s, name)
            == KeyCount(s[..i] + s[i + 1..], name) + (if Holds(s[i], name) then s[i].failedByErrorGroup[name].count else 0)
  {
    var p := s[..|s| - 1];
    var w := s[|s| - 1];
    assert s == p + [w];
    KeyCountSnoc(p, w, name);
    if i < |p| {
      var q := p[..i] + p[i + 1..];
      KeyCountRemove(p, i, name);
      RemoveBeforeLast(p, w, i);
      KeyCountSnoc(q, w, name);
    } else {
      RemoveLast(p, w);
    }
  }

  /**
   * The last element of `a` occurs in its permutation `b` at some index `i`;
   * removing both leaves permutations of each other.
   */
  lemma MatchLast(a: seq<WorkerResult>, b: seq<WorkerResult>) returns (i: nat)
    requires a != [] && multiset(a) == multiset(b)
    ensures i < |b| && b[i] == a[|a| - 1]
    ensures multiset(a[..|a| - 1]) == multiset(b[..i] + b[i + 1..])
  {
    var x := a[|a| - 1];
    assert x in multiset(b);
    i :| 0 <= i < |b| && b[i] == x;
    MultisetRemove(a, |a| - 1);
    MultisetRemove(b, i);
    assert a[|a| - 1 + 1..] == [];
    assert a[..|a| - 1] + [] == a[..|a| - 1];
  }

  /** Removing index `i` removes one occurrence of `s[i]`. */
  lemma MultisetRemove(s: seq<WorkerResult>, i: nat)
    requires i < |s|
    ensures multiset(s[..i] + s[i + 1..]) == multiset(s) - multiset{s[i]}
  {
    assert s == s[..i] + [s[i]] + s[i + 1..];
    assert multiset(s) == multiset(s[..i]) + multiset{s[i]} + multiset(s[i + 1..]);
  }

  lemma NoElements(b: seq<WorkerResult>)
    requires multiset(b) == multiset{}
    ensures b == []
  {
    assert |b| == |multiset(b)|;
  }

  /** The sums do not depend on the order of the workers. */
  lemma {:induction false} TotalsPermutation(a: seq<WorkerResult>, b: seq<WorkerResult>)
    requires multiset(a) == multiset(b)
    ensures Totals(a) == Totals(b)
    decreases |a|
  {
    if a == [] {
      NoElements(b);
    } else {
      var i := MatchLast(a, b);
      TotalsPermutation(a[..|a| - 1], b[..i] + b[i + 1..]);
      TotalsRemove(b, i);
      TotalsSnoc(a[..|a| - 1], a[|a| - 1]);
      assert a[..|a| - 1] + [a[|a| - 1]] == a;
    }
  }

  /** The merged samples do not depend on the order of the workers. */
  lemma {:induction false} SamplesPermutation(a: seq<WorkerResult>, b: seq<WorkerResult>)
    requires multiset(a) == multiset(b)
    ensures Samples(a) == Samples(b)
    decreases |a|
  {
    if a == [] {
      NoElements(b);
    } else {
      var i := MatchLast(a, b);
      SamplesPermutation(a[..|a| - 1], b[..i] + b[i + 1..]);
      SamplesRemove(b, i);
      SamplesSnoc(a[..|a| - 1], a[|a| - 1]);
      assert a[..|a| - 1] + [a[|a| - 1]] == a;
    }
  }

  /** The per-signature sums do not depend on the order of the workers. */
  lemma {:induction false} KeyCountPermutation(a: seq<WorkerResult>, b: seq<WorkerResult>, name: string)
    requires multiset(a) == multiset(b)
    ensures KeyCount(a, name) == KeyCount(b, name)
    decreases |a|
  {
    if a == [] {
      NoElements(b);
    } else {
      var i := MatchLast(a, b);
      KeyCountPermutation(a[..|a| - 1], b[..i] + b[i + 1..], name);
      KeyCountRemove(b, i, name);
    }
  }

  lemma {:induction false} UsableWorkersPermutation(ws: seq<WorkerResult>, vs: seq<WorkerResult>)
    requires multiset(ws) == multiset(vs)
    ensures multiset(UsableWorkers(ws)) == multiset(UsableWorkers(vs))
    decreases |ws|
  {
    if ws == [] {
      NoElements(vs);
    } else {
      var i := MatchLast(ws, vs);
      var x := ws[|ws| - 1];
      UsableWorkersPermutation(ws[..|ws| - 1], vs[..i] + vs[i + 1..]);
      assert ws == ws[..|ws| - 1] + [x];
      assert vs == vs[..i] + [x] + vs[i + 1..];
      UsableWorkersConcat(ws[..|ws| - 1], [x]);
      UsableWorkersConcat(vs[..i] + [x], vs[i + 1..]);
      UsableWorkersConcat(vs[..i], [x]);
      UsableWorkersConcat(vs[..i], vs[i + 1..]);
    }
  }

  lemma MergedKeysPermutation(ws: seq<WorkerResult>, vs: seq<WorkerResult>, name: string)
    requires multiset(ws) == multiset(vs)
    requires name in MergeAll(UsableWorkers(ws))
    ensures name in MergeAll(UsableWorkers(vs))
  {
    MergedKeys(ws, name);
    MergedKeys(vs, name);
    var i :| 0 <= i < |ws| && Holds(ws[i], name);
    assert ws[i] in multiset(vs);
    var j :| 0 <= j < |vs| && vs[j] == ws[i];
  }

  /**
   * Results may arrive in any order: the totals, the merged samples, the set
   * of failure signatures and their counts come out the same. Only the
   * first-failure times depend on the order (see FirstFailureFollowsArrival).
   */
  lemma ArrivalOrderIrrelevant(ws: seq<WorkerResult>, vs: seq<WorkerResult>)
    requires multiset(ws) == multiset(vs)
    ensures Totals(UsableWorkers(ws)) == Totals(UsableWorkers(vs))
    ensures Samples(UsableWorkers(ws)) == Samples(UsableWorkers(vs))
    ensures MergeAll(UsableWorkers(ws)).Keys == MergeAll(UsableWorkers(vs)).Keys
    ensures forall name | name in MergeAll(UsableWorkers(ws)) ::
              MergeAll(UsableWorkers(ws))[name].count == MergeAll(UsableWorkers(vs))[name].count
  {
    UsableWorkersPermutation(ws, vs);
    TotalsPermutation(UsableWorkers(ws), UsableWorkers(vs));
    SamplesPermutation(UsableWorkers(ws), UsableWorkers(vs));
    forall name | name in MergeAll(UsableWorkers(ws)) ensures name in MergeAll(UsableWorkers(vs)) {
      MergedKeysPermutation(ws, vs, name);
    }
    forall name | name in MergeAll(UsableWorkers(vs)) ensures name in MergeAll(UsableWorkers(ws)) {
      MergedKeysPermutation(vs, ws, name);
    }
    forall name | name in MergeAll(UsableWorkers(ws))
      ensures MergeAll(UsableWorkers(ws))[name].count == MergeAll(UsableWorkers(vs))[name].count
    {
      MergedCount(ws, name);
      MergedCount(vs, name);
      KeyCountPermutation(ws, vs, name);
    }
  }

  /** Two usable workers recording the same signature: counts add up, the first one's time stays. */
  lemma TwoHolders(first: WorkerResult, second: WorkerResult, name: string)
    requires Holds(first, name) && Holds(second, name)
    ensures name in MergeAll(UsableWorkers([first, second]))
    ensures MergeAll(UsableWorkers([first, second]))[name]
            == FailureGroup(first.failedByErrorGroup[name].count + second.failedByErrorGroup[name].count,
                            first.failedByErrorGroup[name].firstFailure)
  {
    assert [] + [first] == [first] && [first] + [second] == [first, second];
    MergeAllStep([], first);
    MergeAllStep([first], second);
    MergeGroupsEntry(map[], first.failedByErrorGroup, name);
    MergeGroupsEntry(MergeAll(UsableWorkers([first])), second.failedByErrorGroup, name);
  }

  /**
   * The merged first-failure time is the one of whichever worker arrived
   * first, not the earliest: two workers reporting the same signature at
   * times 20 and 10 give 20 when the first arrives first.
   */
  lemma FirstFailureFollowsArrival(h: Histogram)
    ensures var early := WorkerResult(1, 1, 1.0, h, map["timeout" := FailureGroup(1, 10)], None);
            var late := WorkerResult(1, 1, 1.0, h, map["timeout" := FailureGroup(1, 20)], None);
            MergeAll(UsableWorkers([late, early]))["timeout"] == FailureGroup(2, 20)
            && MergeAll(UsableWorkers([early, late]))["timeout"] == FailureGroup(2, 10)
  {
    var early := WorkerResult(1, 1, 1.0, h, map["timeout" := FailureGroup(1, 10)], None);
    var late := WorkerResult(1, 1, 1.0, h, map["timeout" := FailureGroup(1, 20)], None);
    TwoHolders(late, early, "timeout");
    TwoHolders(early, late, "timeout");
  }

  /** The inner loop of `collectResults`: folds one worker's failure groups into `groups`. */
  method MergeFailureGroups(groups: FailureGroups, m: FailureGroups) returns (merged: FailureGroups)
    ensures merged == MergeGroups(groups, m)
  {
    merged := groups;
    var pending := m.Keys;
    while pending != {}
      invariant pending <= m.Keys
      invariant merged == MergeGroups(groups, m - pending)
      decreases pending
    {
      var name :| name in pending;
      var group := m[name];
      if name in merged {
        var existing := merged[name];
        merged := merged[name := FailureGroup(existing.count + group.count, existing.firstFailure)];
      } else {
        merged := merged[name := group];
      }
      pending := pending - {name};
    }
    assert m - {} == m;
  }

  /**
   * The histogram step of `collectResults`: the first usable worker's
   * histogram is copied into a new one, later ones are merged into that copy.
   */
  method MergeLatencies(combined: Histogram?, ghost done: seq<WorkerResult>, res: WorkerResult)
    returns (next: Histogram)
    requires combined == null <==> done == []
    requires combined != null ==> combined.samples == Samples(done)
    requires combined != null ==> res.latencies != combined && forall w | w in done :: w.latencies != combined
    modifies combined
    ensures combined == null ==> fresh(next)
    ensures combined != null ==> next == combined
    ensures next.samples == Samples(done + [res])
  {
    SamplesSnoc(done, res);
    if combined == null {
      next := new Histogram.Import(res.latencies.Export());
    } else {
      assert combined !in set w | w in done :: w.latencies;
      combined.Merge(res.latencies);
      next := combined;
    }
  }

  /** The first loop of `collectResults`: one receive per worker, in delivery order. */
  method Receive(concurrency: nat, channel: seq<WorkerResult>) returns (results: seq<WorkerResult>)
    requires concurrency <= |channel|
    ensures results == channel[..concurrency]
  {
    results := [];
    var i := 0;
    while i < concurrency
      invariant 0 <= i <= concurrency
      invariant results == channel[..i]
    {
      results := results + [channel[i]];
      i := i + 1;
    }
  }

  /**
   * The body of the second loop of `collectResults` for a worker without an
   * error: adds its counters, merges its failure groups and its latencies.
   */
  method MergeUsable(ghost done: seq<WorkerResult>, res: WorkerResult,
                     succeeded: nat, failed: nat, rate: real, groups: FailureGroups, combined: Histogram?)
    returns (newSucceeded: nat, newFailed: nat, newRate: real, newGroups: FailureGroups, next: Histogram)
    requires Usable(res)
    requires Counters(succeeded, failed, rate) == Totals(done)
    requires groups == MergeAll(done)
    requires combined == null <==> done == []
    requires combined != null ==> combined.samples == Samples(done)
    requires combined != null ==> res.latencies != combined && forall w | w in done :: w.latencies != combined
    modifies combined
    ensures Counters(newSucceeded, newFailed, newRate) == Totals(done + [res])
    ensures newGroups == MergeAll(done + [res])
    ensures combined == null ==> fresh(next)
    ensures combined != null ==> next == combined
    ensures next.samples == Samples(done + [res])
  {
    TotalsSnoc(done, res);
    MergeAllSnoc(done, res);
    next := MergeLatencies(combined, done, res);
    newRate := rate + res.rate;
    newSucceeded := succeeded + res.succeeded;
    newFailed := failed + res.failed;
    newGroups := MergeFailureGroups(groups, res.failedByErrorGroup);
  }

  /**
   * The second loop of `collectResults`: workers with an error are skipped,
   * the others are folded into the totals, the failure groups and the
   * combined histogram, which is absent until the first usable worker.
   */
  method MergeWorkers(results: seq<WorkerResult>)
    returns (totalSucceeded: nat, totalFailed: nat, totalRate: real, groups: FailureGroups, combined: Histogram?)
    ensures Counters(totalSucceeded, totalFailed, totalRate) == Totals(UsableWorkers(results))
    ensures groups == MergeAll(UsableWorkers(results))
    ensures combined == null <==> UsableWorkers(results) == []
    ensures combined != null ==> fresh(combined) && combined.samples == Samples(UsableWorkers(results))
  {
    totalSucceeded, totalFailed, totalRate := 0, 0, 0.0;
    groups := map[];
    combined := null;
    ghost var usable: seq<WorkerResult> := [];
    var n := 0;
    while n < |results|
      invariant 0 <= n <= |results|
      invariant usable == UsableWorkers(results[..n])
      invariant forall w | w in usable :: w in results
      invariant Counters(totalSucceeded, totalFailed, totalRate) == Totals(usable)
      invariant groups == MergeAll(usable)
      invariant combined == null <==> usable == []
      invariant combined != null ==> fresh(combined) && combined.samples == Samples(usable)
    {
      var res := results[n];
      assert results[..n + 1] == results[..n] + [res];
      UsableWorkersSnoc(results[..n], res);
      if res.error.None? {
        totalSucceeded, totalFailed, totalRate, groups, combined :=
          MergeUsable(usable, res, totalSucceeded, totalFailed, totalRate, groups, combined);
        usable := usable + [res];
      }
      n := n + 1;
    }
    assert results[..n] == results;
  }

  /**
   * `collectResults`: receives `concurrency` results from the channel, then
   * merges every worker that did not abort. Fails exactly when no such worker
   * exists. The merged histogram starts as a copy of the first usable worker's:
   * it is a new object, and since nothing else may be modified, no worker's
   * histogram changes.
   */
  method CollectResults(scenario: string, concurrency: nat, channel: seq<WorkerResult>)
    returns (r: Result<BenchmarkResult>)
    requires concurrency <= |channel|
    ensures r.Err? <==> UsableWorkers(channel[..concurrency]) == []
    ensures r.Err? ==> r.msg == AllWorkersFailed
    ensures r.Ok? ==>
              var results := channel[..concurrency];
              var usable := UsableWorkers(results);
              && r.value.scenario == scenario
              && r.value.workers == results
              && r.value.totalSucceeded == Totals(usable).succeeded
              && r.value.totalFailed == Totals(usable).failed
              && r.value.totalRate == Totals(usable).rate
              && r.value.failedByErrorGroup == MergeAll(usable)
              && fresh(r.value.totalLatencies)
              && r.value.totalLatencies.samples == Samples(usable)
  {
    var results := Receive(concurrency, channel);
    var totalSucceeded, totalFailed, totalRate, groups, combined := MergeWorkers(results);
    if combined == null {
      return Err(AllWorkersFailed);
    }
    return Ok(BenchmarkResult(scenario, totalSucceeded, totalFailed, totalRate, combined, groups, results));
  }
}

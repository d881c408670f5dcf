# neobench command-line core, in Dafny

neobench is a benchmark driver for Neo4j. Its `main.go` does four pieces of work
that do not depend on the database. This project models those four and proves
properties of them:

- **Aggregation** (`aggregation.dfy`): `collectResults`. It receives one
  `WorkerResult` per client from a channel. It then folds every worker that did
  not abort into one result:
  - the succeeded and failed counts and the rates are summed;
  - the per-signature failure groups are merged, adding the counts and keeping
    the first-failure time already recorded;
  - the latency histograms are combined. The first usable histogram is copied
    and the later ones are merged into that copy.

  If every worker aborted, the call fails with "all workers failed". The channel
  is the sequence of values it delivers. A histogram is a heap object (`class
  Histogram`) whose content is the multiset of its samples. This lets the model
  state that the combined histogram is a new object. The `CollectResults` method
  modifies nothing, so no worker's histogram is touched.
- **Workloads** (`workloads.dfy`): the loop over the `-w` arguments. Each
  argument `path@weight` is split on `@` with `strings.Split`. The weight is read
  with `strconv.Atoi` and converted with `uint(...)`. A bare path has weight 1.
  The first weight that fails to parse is fatal, with a message naming the
  argument.
- **Encryption** (`encryption.dfy`): the `switch` on `strings.ToLower` of the
  `-e` argument. The three modes and their spellings are `auto`, then
  `true/yes/y/1`, then `false/no/n/0`. Anything else is fatal.
- **Scenario** (`scenario.dfy`): `describeScenario`, which rebuilds the command
  line from the flag values. A reader for descriptors (`ParseDescription`) is
  given alongside it. Together they show that a descriptor records the flags in
  a fixed order and that they can be read back. As written, the latency fragment
  `-l -r <rate>` has no leading space, so in latency mode the descriptor contains
  `-e auto-l -r 100.000000`. The model keeps that behaviour, and the reader
  expects `-l` glued to the end of the mode.
- **Text** (`text.dfy`, with `wrappers.dfy` for `Option`/`Result`): the parts of
  Go's `strings` and `strconv` that the four pieces use. These are `Split` on a
  one-character separator, ASCII `ToLower`, `Atoi` with the 64-bit range check,
  `%d` formatting, and `uint(int)` as two's-complement wrap-around modulo 2^64.

How main.go reports a failure matters in two places:

- Its fatal errors (`log.Fatal`) are modelled as the `Err` case of a `Result`,
  carrying the message main.go prints.
- The merged first-failure time is whichever worker *arrived* first. It is not
  necessarily the earliest time, although a reader might expect the earliest.
  The model follows the code. `FirstFailureFollowsArrival` shows the two
  differing on a concrete input.

## Model

| member | source | states |
|---|---|---|
| Aggregation.Histogram.Import | main.go:246 | the imported histogram holds exactly the exported samples |
| Aggregation.Histogram.Export | main.go:246 | the exported snapshot carries every recorded sample |
| Aggregation.Histogram.Merge | main.go:248 | merging adds every sample of the other histogram (multiset union) |
| Aggregation.CollectResults | main.go:225-273 | fails with "all workers failed" exactly when no received worker is usable. On success: the scenario and all received workers are kept; the totals are the sums over usable workers; the groups are their ordered merge; the latency histogram is fresh and holds exactly their samples |
| Aggregation.Receive | main.go:227-230 | the results are the first `concurrency` values of the channel, in delivery order |
| Aggregation.MergeWorkers | main.go:238-264 | after the loop, the counters are the totals of the usable workers and the groups their merge. The histogram is null iff there is no usable worker, and otherwise fresh and holding their samples |
| Aggregation.MergeUsable | main.go:244-263 | one usable worker extends totals, groups and histogram samples from the workers so far to those plus this one |
| Aggregation.MergeLatencies | main.go:244-249 | the first usable worker's histogram is copied into a fresh object; later ones are merged into that copy. The result holds the samples of all usable workers so far |
| Aggregation.MergeFailureGroups | main.go:253-263 | folding one worker's groups, in any map iteration order, gives `MergeGroups`: counts of shared signatures added, existing first-failure time kept, new signatures copied |
| Aggregation.MergeGroupsEntry | main.go:253-263 | unfolding `MergeGroups` for one signature: a merged signature is in either input. Its first-failure time comes from the accumulator when present there, and from the worker's groups otherwise. Its count is the sum of the two counts |
| Aggregation.UsableWorkersMultiplicity | main.go:239-243 | each usable worker is merged as many times as it was received, and a worker with an error never |
| Aggregation.UsableWorkersMembers | main.go:239-243 | a worker is merged iff it was received and has no error |
| Aggregation.UsableWorkersConcat | main.go:239-243 | skipping preserves order: the usable workers of `a + b` are those of `a` followed by those of `b` |
| Aggregation.ErrorWorkerContributesNothing | main.go:240-243 | inserting a worker with an error anywhere leaves the merged workers unchanged |
| Aggregation.NoUsableWorkerIff | main.go:266-268 | no histogram is produced iff every received worker has an error |
| Aggregation.MergedKeys | main.go:253-263 | a signature appears in the merged groups iff some usable worker recorded it |
| Aggregation.MergedCount | main.go:250-263 | a merged signature's count is the sum of that signature's counts over the usable workers, and an absent signature has sum 0 |
| Aggregation.MergedFirstFailure | main.go:254-262 | a merged signature's first-failure time is the one recorded by the first usable worker, in arrival order, that has that signature |
| Aggregation.FirstFailureStable | main.go:256-259 | workers arriving later never change a signature's first-failure time |
| Aggregation.TwoHolders | main.go:253-263 | two workers with the same signature: the counts add and the first worker's time is kept |
| Aggregation.ArrivalOrderIrrelevant | main.go:228-264 | for any reordering of the received results: the totals (with the rate summed as an exact real), the combined samples, the set of signatures and each signature's count are unchanged |
| Aggregation.FirstFailureFollowsArrival | main.go:256-259 | first-failure times do depend on arrival order: times 20 then 10 merge to 20, and 10 then 20 merge to 10 |
| Aggregation.TotalsPermutation | main.go:250-252 | the summed counters do not depend on the order of the workers, with the rate summed as an exact real |
| Aggregation.SamplesPermutation | main.go:244-249 | the combined samples do not depend on the order of the workers |
| Workloads.DecodeWorkload | main.go:112-120 | a decoded path is an `@`-free prefix of the argument and its weight is below 2^64; the only error is the weight message naming the whole argument |
| Workloads.DecodeWorkloads | main.go:110-126 | decodes every argument in order and succeeds iff each one decodes, giving each decoded workload in position. On failure it returns the error of the first argument that fails, and every earlier one decodes |
| Workloads.DecodeWithoutWeight | main.go:112-114 | an argument without `@` is the path with weight 1 |
| Workloads.DecodeWithWeight | main.go:112-120 | with `@`: the path is the text before the first `@` and the weight is the text up to the next `@` or the end. Decoding succeeds iff that weight passes `Atoi`, and fails with the weight message naming the whole argument otherwise |
| Workloads.DecodeByPieces | main.go:112-119 | unfolding `DecodeWorkload`: decoding depends only on the first two pieces of the split |
| Workloads.DecodeIgnoresTail | main.go:112-119 | anything after a second `@` is ignored |
| Workloads.DecodeFormattedWeight | main.go:114-121 | any 64-bit weight written with `%d` after `path@` decodes to that path and the weight's `uint(...)` conversion |
| Workloads.NegativeWeightWraps | main.go:115-121 | the instance `path@-1`: accepted, with weight 2^64-1 through `uint(...)` |
| Encryption.DecodeEncryptionMode | main.go:78-87 | a decoded mode has the lower-cased argument among its spellings; an error carries the message quoting the argument as given |
| Encryption.DecodeAccepts | main.go:78-84 | a string decodes to a mode iff it equals one of that mode's spellings, ignoring case |
| Encryption.DecodeRejects | main.go:85-86 | a string is rejected iff it matches no spelling of any mode, and the message quotes it as given |
| Encryption.DecodeIgnoresCase | main.go:78 | strings equal up to case decode alike |
| Encryption.SpellingsAreLowerCase | main.go:79-84 | every accepted spelling is already lower case |
| Scenario.DescribeScenario | main.go:160-176 | the builder loop appends the fragments in order and produces `Description` |
| Scenario.DescriptionIsSpaced | main.go:162-174 | the descriptor is its words, each preceded by one space: workload pairs, the four settings, the rate in latency mode, `-i` in init mode |
| Scenario.DescriptionRoundTrip | main.go:160-176 | reading a descriptor back gives its workloads, client count, scale, duration and encryption mode, plus the rate exactly in latency mode and the init flag. This holds whenever the paths, the mode and the rate contain no space |
| Text.Split | main.go:112 | `strings.Split` yields at least one piece |
| Text.SplitJoin | main.go:112 | the pieces contain no separator, and joining them with it restores the string |
| Text.SplitAfter | main.go:112 | splitting after a separator-free prefix yields that prefix, then the pieces of the rest |
| Text.IndexOf | main.go:112 | the index of the first occurrence of the separator |
| Text.Lower | main.go:78 | the result has the argument's length and no upper-case ASCII letter; each character is kept or is the lower-case form of an upper-case ASCII letter |
| Text.LowerEqualIff | main.go:78 | comparing the lower-cased strings is comparing letter by letter ignoring case |
| Text.ParseInt | main.go:115 | a string is accepted iff it is an optional sign followed by one or more decimal digits; a negative value needs a leading `-` |
| Text.ParsePlus | main.go:115 | a leading `+` before digits does not change the value (`+3` reads as `3`) |
| Text.ParseLeadingZero | main.go:115 | a leading zero before digits does not change the value (`03` reads as `3`) |
| Text.ParseNegLeadingZero | main.go:115 | a leading zero after `-` does not change the value (`-05` reads as `-5`) |
| Text.Atoi | main.go:115 | an accepted value lies in the signed 64-bit range |
| Text.AtoiRejectsOutOfRange | main.go:115 | `Atoi` rejects the `%d` rendering of every integer outside the signed 64-bit range |
| Text.ParseFormatInt | main.go:165-167 | reading back a `%d` rendering gives the number |
| Text.AtoiFormatInt | main.go:115 | `Atoi` accepts the `%d` rendering of every 64-bit integer, with that value; with AtoiRejectsOutOfRange, a rendering is accepted iff the number fits in 64 bits |
| Text.GoUint | main.go:121 | `uint(n)` keeps non-negative values and adds 2^64 to negative ones, so the result is below 2^64 |
| Text.FormatInt | main.go:165-167 | `%d` writes a minus sign exactly for negative numbers, all other characters being decimal digits |
| Text.FormatNat | main.go:165-167 | `%d` writes digits without a leading zero that denote the number |

## Left out

- Flag parsing (`pflag`), the usage text, the database driver, output
  formatting and reporting, `os.Exit`: these are I/O or foreign libraries.
- `runBenchmark`, `awaitCompletion` and the worker goroutines: concurrency and
  clocks. Their effect on `collectResults` is the order in which results arrive
  on the channel, which is a parameter. `ArrivalOrderIrrelevant` covers the
  totals, samples and counts for every order, and `MergedFirstFailure` gives
  the first-failure time for every order.
- Aggregation.Receive: requires the channel to deliver at least `concurrency`
  values. With fewer, the Go receive blocks forever. `runBenchmark` starts
  exactly that many workers, each sending once.
- Aggregation.Histogram: the HDR histogram's bucketing and value precision are
  not modelled. A histogram is the exact multiset of its samples. The HDR
  `Merge` drops the samples that fall outside the target's trackable range and
  returns how many it dropped; main.go:248 ignores that count. The model's
  Merge drops nothing, which matches the code only when every worker histogram
  has the same bounds. Those bounds are set outside main.go, which is not part
  of this model.
- Aggregation.CollectResults: the `Worker failed` messages are output and are
  left out. The counters are unbounded naturals, and the rate is summed as an
  exact real without floating-point rounding.
- Aggregation.TotalsPermutation: the rate is an exact real, so its sum is
  order-free; Go sums `float64` values, whose addition is not associative, so
  the Go `TotalRate` can differ in its last bits between arrival orders. The
  same holds for the totals in Aggregation.ArrivalOrderIrrelevant.
- `createScript`, `initWorkload` and script parsing are left out because they
  read files. Workloads.DecodeWorkloads stops at a bad weight only, and does not
  model `createScript` errors.
- The `-D` variable loop (`strconv.ParseInt` / `ParseFloat`) is left out; it is
  not one of the four pieces modelled here.
- Scenario.DescribeScenario takes the `%f` rendering of the rate as a string
  parameter, because floating-point formatting is not modelled.
- Text.Lower: only ASCII letters are lower-cased. Go's Unicode mapping also
  sends `K` (U+212A, Kelvin sign) to `k` and `İ` (U+0130) to `i`. No accepted
  spelling contains `k` or `i`, so the decoded outcome is the same. Other
  non-ASCII letters do not lower-case to ASCII.
- Text.Atoi and Text.GoUint assume a 64-bit platform, where Go's `int` has 64
  bits. On a 32-bit platform `int` has 32 bits, so `Atoi` accepts only the
  32-bit range and `uint(...)` wraps modulo 2^32.
- Text.Split: its own contract says only that there is at least one piece. What
  the pieces are is stated by SplitJoin, SplitAfter and SplitNone.

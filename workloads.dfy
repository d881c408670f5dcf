/**
 * Decoding the `-w` workload arguments of main.go: `path@weight` selects a
 * script and its selection weight, a bare `path` has weight 1.
 */
module Workloads {
  import opened Wrappers
  import opened Text

  /** A script source and its weight, after `uint(weight)` (so below 2^64). */
  datatype Workload = Workload(path: string, weight: nat)

  const WeightError := "Failed to parse weight; value after @ symbol for workload weight must be an integer: "

  /**
   * One workload argument: split on '@'; with more than one piece the path is
   * the first piece and the weight the second, read by `strconv.Atoi`. The
   * path is an '@'-free prefix of the argument and the weight fits in 64 bits;
   * the only error is the weight message naming the whole argument.
   */
  function DecodeWorkload(spec: string): (r: Result<Workload>)
    ensures r.Ok? ==> r.value.path <= spec && '@' !in r.value.path
    ensures r.Ok? ==> r.value.weight < Two64
    ensures r.Err? ==> r.msg == WeightError + spec
  {
    var parts := Split(spec, '@');
    if |parts| > 1 then
      SplitJoin(spec, '@');
      assert '@' in spec by {
        if '@' !in spec { SplitNone(spec, '@'); }
      }
      SplitFirst(spec, '@');
      match Atoi(parts[1])
      case None => Err(WeightError + spec)
      case Some(weight) => Ok(Workload(parts[0], GoUint(weight)))
    else Ok(Workload(spec, 1))
  }

  /** Without '@' the argument is the path and the weight is 1. */
  lemma DecodeWithoutWeight(spec: string)
    requires '@' !in spec
    ensures DecodeWorkload(spec) == Ok(Workload(spec, 1))
  {
    SplitNone(spec, '@');
  }

  /**
   * With '@', the path is the text before the first '@' and the weight is
   * the text up to the next '@' (or the end); an argument whose weight is not
   * an integer in the 64-bit range fails, naming the whole argument.
   */
  lemma DecodeWithWeight(spec: string)
    requires '@' in spec
    ensures var at := IndexOf(spec, '@');
            var rest := spec[at + 1..];
            var piece := if '@' in rest then rest[..IndexOf(rest, '@')] else rest;
            && (DecodeWorkload(spec).Ok? <==> Atoi(piece).Some?)
            && (DecodeWorkload(spec).Ok? ==>
                  DecodeWorkload(spec).value == Workload(spec[..at], GoUint(Atoi(piece).value)))
            && (DecodeWorkload(spec).Err? ==> DecodeWorkload(spec).msg == WeightError + spec)
  {
    var at := IndexOf(spec, '@');
    var rest := spec[at + 1..];
    var piece := if '@' in rest then rest[..IndexOf(rest, '@')] else rest;
    SplitFirst(spec, '@');
    if '@' in rest {
      SplitFirst(rest, '@');
    } else {
      SplitNone(rest, '@');
    }
    assert Split(spec, '@')[..2] == [spec[..at], piece];
    DecodeByPieces(spec, spec[..at], piece);
  }

  /** Once the first two pieces are known, decoding depends on them alone. */
  lemma DecodeByPieces(spec: string, path: string, weight: string)
    requires |Split(spec, '@')| > 1 && Split(spec, '@')[..2] == [path, weight]
    ensures Split(spec, '@')[0] == path && Split(spec, '@')[1] == weight
    ensures DecodeWorkload(spec).Ok? <==> Atoi(weight).Some?
    ensures DecodeWorkload(spec).Ok? ==> DecodeWorkload(spec).value == Workload(path, GoUint(Atoi(weight).value))
    ensures DecodeWorkload(spec).Err? ==> DecodeWorkload(spec).msg == WeightError + spec
  {
    assert Split(spec, '@')[..2][0] == path && Split(spec, '@')[..2][1] == weight;
  }

  /** The pieces of `path@weight@tail` start with the path and the weight. */
  lemma PiecesWithTail(path: string, weight: string, tail: string)
    requires '@' !in path && '@' !in weight
    ensures |Split(path + "@" + weight + "@" + tail, '@')| > 1
    ensures Split(path + "@" + weight + "@" + tail, '@')[..2] == [path, weight]
  {
    Assoc(path + "@" + weight, "@", tail);
    Assoc(path + "@", weight, "@" + tail);
    Assoc(weight, "@", tail);
    SplitAfter(path, '@', weight + ['@'] + tail);
    SplitAfter(weight, '@', tail);
  }

  /** The pieces of `path@weight` are the path and the weight. */
  lemma PiecesWithoutTail(path: string, weight: string)
    requires '@' !in path && '@' !in weight
    ensures Split(path + "@" + weight, '@') == [path, weight]
  {
    SplitAfter(path, '@', weight);
    SplitNone(weight, '@');
  }

  /** Whatever follows a second '@' is ignored. */
  lemma DecodeIgnoresTail(path: string, weight: string, tail: string)
    requires '@' !in path && '@' !in weight
    ensures var long := DecodeWorkload(path + "@" + weight + "@" + tail);
            var short := DecodeWorkload(path + "@" + weight);
            long.Ok? == short.Ok? && (long.Ok? ==> long.value == short.value)
  {
    PiecesWithTail(path, weight, tail);
    PiecesWithoutTail(path, weight);
    DecodeByPieces(path + "@" + weight + "@" + tail, path, weight);
    DecodeByPieces(path + "@" + weight, path, weight);
  }

  /**
   * Writing any 64-bit weight with `%d` after the path and '@' decodes to the
   * weight as `uint(...)` converts it.
   */
  lemma DecodeFormattedWeight(path: string, weight: int)
    requires '@' !in path
    requires Int64Min <= weight <= Int64Max
    ensures DecodeWorkload(path + "@" + FormatInt(weight)) == Ok(Workload(path, GoUint(weight)))
  {
    var w := FormatInt(weight);
    assert '@' !in w by {
      forall j | 0 <= j < |w| ensures w[j] != '@' {
        if j > 0 { assert IsDigit(w[j]); }
      }
    }
    assert path + "@" + w == path + ['@'] + w;
    SplitAfter(path, '@', w);
    SplitNone(w, '@');
    AtoiFormatInt(weight);
  }

  /** `uint(weight)` wraps a negative weight: `-1` becomes 2^64 - 1. */
  lemma NegativeWeightWraps(path: string)
    requires '@' !in path
    ensures DecodeWorkload(path + "@-1") == Ok(Workload(path, Two64 - 1))
  {
    assert FormatInt(-1) == "-1";
    assert path + "@" + FormatInt(-1) == path + "@-1";
    DecodeFormattedWeight(path, -1);
  }

  /**
   * The loop over the `-w` arguments: decodes each in order and stops at the
   * first one whose weight does not parse (main.go exits there).
   */
  method DecodeWorkloads(specs: seq<string>) returns (r: Result<seq<Workload>>)
    ensures r.Ok? <==> forall i :: 0 <= i < |specs| ==> DecodeWorkload(specs[i]).Ok?
    ensures r.Ok? ==> |r.value| == |specs|
                      && forall i :: 0 <= i < |specs| ==> DecodeWorkload(specs[i]) == Ok(r.value[i])
    ensures r.Err? ==> exists i :: 0 <= i < |specs| && DecodeWorkload(specs[i]) == Err(r.msg)
                                   && forall j :: 0 <= j < i ==> DecodeWorkload(specs[j]).Ok?
  {
    var scripts: seq<Workload> := [];
    var n := 0;
    while n < |specs|
      invariant 0 <= n <= |specs|
      invariant |scripts| == n
      invariant forall i :: 0 <= i < n ==> DecodeWorkload(specs[i]) == Ok(scripts[i])
    {
      var path := specs[n];
      var parts := Split(path, '@');
      var weight := 1;
      if |parts| > 1 {
        var parsed := Atoi(parts[1]);
        if parsed.None? {
          return Err(WeightError + path);
        }
        weight := parsed.value;
        path := parts[0];
      }
      scripts := scripts + [Workload(path, GoUint(weight))];
      n := n + 1;
    }
    return Ok(scripts);
  }
}

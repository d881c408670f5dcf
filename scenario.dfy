/**
 * The scenario descriptor of main.go (`describeScenario`): the effective
 * command line, rebuilt from the configuration and attached to the result.
 */
module Scenario {
  import opened Wrappers
  import opened Text

  /** The flag values `describeScenario` reads (held in globals in main.go). */
  datatype Config = Config(
    workloads: seq<string>,
    clients: int,
    scale: int,
    duration: int,
    encryptionMode: string,
    latencyMode: bool,
    initMode: bool)

  /** ` -w <path>` for each workload, in order. */
  function WorkloadFlags(workloads: seq<string>): string
  {
    if workloads == [] then ""
    else WorkloadFlags(workloads[..|workloads| - 1]) + " -w " + workloads[|workloads| - 1]
  }

  /**
   * The descriptor for `c`; `rate` is the `%f` rendering of the target rate.
   * The latency fragment has no leading space of its own.
   */
  function Description(c: Config, rate: string): string
  {
    WorkloadFlags(c.workloads)
    + " -c " + FormatInt(c.clients)
    + " -s " + FormatInt(c.scale)
    + " -d " + FormatInt(c.duration)
    + " -e " + c.encryptionMode
    + (if c.latencyMode then "-l -r " + rate else "")
    + (if c.initMode then " -i" else "")
  }

  /** `describeScenario`, appending one fragment at a time to a builder. */
  method DescribeScenario(c: Config, rate: string) returns (out: string)
    ensures out == Description(c, rate)
  {
    out := "";
    var n := 0;
    while n < |c.workloads|
      invariant 0 <= n <= |c.workloads|
      invariant out == WorkloadFlags(c.workloads[..n])
    {
      assert c.workloads[..n + 1][..n] == c.workloads[..n];
      out := out + " -w " + c.workloads[n];
      n := n + 1;
    }
    assert c.workloads[..n] == c.workloads;
    out := out + " -c " + FormatInt(c.clients);
    out := out + " -s " + FormatInt(c.scale);
    out := out + " -d " + FormatInt(c.duration);
    out := out + " -e " + c.encryptionMode;
    if c.latencyMode {
      out := out + "-l -r " + rate;
    }
    if c.initMode {
      out := out + " -i";
    }
  }

  // A reader for descriptors, used to show that the fragments come in a fixed
  // order and can be told apart.

  /** What a descriptor records. `rate` is present exactly in latency mode. */
  datatype Fields = Fields(
    workloads: seq<string>,
    clients: int,
    scale: int,
    duration: int,
    encryptionMode: string,
    rate: Option<string>,
    initMode: bool)

  /** Reads a descriptor back: space-separated words, the first one empty. */
  function ParseDescription(s: string): Option<Fields>
  {
    var words := Split(s, ' ');
    if words[0] == "" then ParseWorkloads(words[1..], []) else None
  }

  /** Any number of `-w <path>` pairs, then the fixed part. */
  function ParseWorkloads(words: seq<string>, workloads: seq<string>): Option<Fields>
    decreases |words|
  {
    if |words| >= 2 && words[0] == "-w" then ParseWorkloads(words[2..], workloads + [words[1]])
    else ParseSettings(words, workloads)
  }

  /**
   * `-c N -s N -d N -e MODE`, then in latency mode `-r RATE` with `-l` stuck
   * to the end of MODE, then optionally `-i`, then nothing.
   */
  function ParseSettings(words: seq<string>, workloads: seq<string>): Option<Fields>
  {
    if |words| < 8 || words[0] != "-c" || words[2] != "-s" || words[4] != "-d" || words[6] != "-e" then None
    else if ParseInt(words[1]).None? || ParseInt(words[3]).None? || ParseInt(words[5]).None? then None
    else
      var rest := words[8..];
      var latency := |rest| >= 2 && rest[0] == "-r";
      var mode := words[7];
      if latency && !(|mode| >= 2 && mode[|mode| - 2..] == "-l") then None
      else
        var encryption := if latency then mode[..|mode| - 2] else mode;
        var rate := if latency then Some(rest[1]) else None;
        var flags := if latency then rest[2..] else rest;
        if flags == [] || flags == ["-i"] then
          Some(Fields(workloads, ParseInt(words[1]).value, ParseInt(words[3]).value, ParseInt(words[5]).value,
                      encryption, rate, flags == ["-i"]))
        else None
  }

  /** Each word preceded by one space. */
  function Spaced(words: seq<string>): string
  {
    if words == [] then "" else " " + words[0] + Spaced(words[1..])
  }

  function WorkloadWords(workloads: seq<string>): seq<string>
  {
    if workloads == [] then [] else ["-w", workloads[0]] + WorkloadWords(workloads[1..])
  }

  /** The words after the workloads, in the order `describeScenario` writes them. */
  function SettingsWords(c: Config, rate: string): seq<string>
  {
    ["-c", FormatInt(c.clients), "-s", FormatInt(c.scale), "-d", FormatInt(c.duration),
     "-e", c.encryptionMode + (if c.latencyMode then "-l" else "")]
    + (if c.latencyMode then ["-r", rate] else [])
    + (if c.initMode then ["-i"] else [])
  }

  /** The words of a descriptor. */
  function Words(c: Config, rate: string): seq<string>
  {
    WorkloadWords(c.workloads) + SettingsWords(c, rate)
  }

  lemma {:induction false} SpacedConcat(a: seq<string>, b: seq<string>)
    ensures Spaced(a + b) == Spaced(a) + Spaced(b)
  {
    if a != [] {
      assert (a + b)[1..] == a[1..] + b;
      SpacedConcat(a[1..], b);
    } else {
      assert a + b == b;
    }
  }

  lemma {:induction false} WorkloadWordsSnoc(workloads: seq<string>, w: string)
    ensures WorkloadWords(workloads + [w]) == WorkloadWords(workloads) + ["-w", w]
  {
    if workloads != [] {
      assert (workloads + [w])[1..] == workloads[1..] + [w];
      WorkloadWordsSnoc(workloads[1..], w);
    } else {
      assert workloads + [w] == [w];
    }
  }

  lemma {:induction false} WorkloadFlagsSpaced(workloads: seq<string>)
    ensures WorkloadFlags(workloads) == Spaced(WorkloadWords(workloads))
  {
    if workloads != [] {
      var p := workloads[..|workloads| - 1];
      var w := workloads[|workloads| - 1];
      assert workloads == p + [w];
      WorkloadFlagsSpaced(p);
      WorkloadWordsSnoc(p, w);
      SpacedConcat(WorkloadWords(p), ["-w", w]);
      SpacedPair("-w", w);
    }
  }

  /** A flag and its value, as `describeScenario` writes them. */
  lemma SpacedPair(flag: string, value: string)
    ensures Spaced([flag, value]) == " " + flag + " " + value
  {
    assert [flag, value][1..] == [value];
    assert [value][1..] == [];
    assert Spaced([value]) == " " + value;
    Assoc(" " + flag, " ", value);
  }

  /** Appending `fragment value` is appending the spaced pair `[flag, value]`. */
  lemma AppendPair(x: string, fragment: string, flag: string, value: string)
    requires fragment == " " + flag + " "
    ensures x + fragment + value == x + Spaced([flag, value])
  {
    SpacedPair(flag, value);
    Assoc(x, fragment, value);
  }

  lemma SpacedSeven(a0: seq<string>, a1: seq<string>, a2: seq<string>, a3: seq<string>,
                    a4: seq<string>, a5: seq<string>, a6: seq<string>)
    ensures Spaced(a0 + a1 + a2 + a3 + a4 + a5 + a6)
            == Spaced(a0) + Spaced(a1) + Spaced(a2) + Spaced(a3) + Spaced(a4) + Spaced(a5) + Spaced(a6)
  {
    SpacedConcat(a0 + a1 + a2 + a3 + a4 + a5, a6);
    SpacedConcat(a0 + a1 + a2 + a3 + a4, a5);
    SpacedConcat(a0 + a1 + a2 + a3, a4);
    SpacedConcat(a0 + a1 + a2, a3);
    SpacedConcat(a0 + a1, a2);
    SpacedConcat(a0, a1);
  }

  /** The client, scale and duration fragments. */
  lemma CountsSpaced(x: string, n1: string, n2: string, n3: string)
    ensures x + " -c " + n1 + " -s " + n2 + " -d " + n3
            == x + Spaced(["-c", n1]) + Spaced(["-s", n2]) + Spaced(["-d", n3])
  {
    AppendPair(x, " -c ", "-c", n1);
    AppendPair(x + " -c " + n1, " -s ", "-s", n2);
    AppendPair(x + " -c " + n1 + " -s " + n2, " -d ", "-d", n3);
  }

  /** The encryption fragment and, in latency mode, the rate fragment. */
  lemma ModeSpaced(x: string, mode: string, latencyMode: bool, rate: string)
    ensures x + " -e " + mode + (if latencyMode then "-l -r " + rate else "")
            == x + Spaced(["-e", mode + (if latencyMode then "-l" else "")])
                 + Spaced(if latencyMode then ["-r", rate] else [])
  {
    if latencyMode {
      SpacedPair("-e", mode + "-l");
      SpacedPair("-r", rate);
      Assoc(x + " -e ", mode, "-l -r " + rate);
      assert " -e " + mode + "-l -r " + rate == " " + "-e" + " " + (mode + "-l") + (" " + "-r" + " " + rate);
    } else {
      assert mode + "" == mode;
      AppendPair(x, " -e ", "-e", mode);
    }
  }

  lemma DescriptionIsSpaced(c: Config, rate: string)
    ensures Description(c, rate) == Spaced(Words(c, rate))
  {
    var ww := WorkloadWords(c.workloads);
    var n1, n2, n3 := FormatInt(c.clients), FormatInt(c.scale), FormatInt(c.duration);
    var w1, w2, w3 := ["-c", n1], ["-s", n2], ["-d", n3];
    var w4 := ["-e", c.encryptionMode + (if c.latencyMode then "-l" else "")];
    var latency := if c.latencyMode then ["-r", rate] else [];
    var init := if c.initMode then ["-i"] else [];
    var x0 := WorkloadFlags(c.workloads);
    var x3 := x0 + " -c " + n1 + " -s " + n2 + " -d " + n3;
    var fl := if c.latencyMode then "-l -r " + rate else "";
    var fi := if c.initMode then " -i" else "";
    calc {
      Description(c, rate);
      x3 + " -e " + c.encryptionMode + fl + fi;
      { ModeSpaced(x3, c.encryptionMode, c.latencyMode, rate); }
      x3 + Spaced(w4) + Spaced(latency) + fi;
      { CountsSpaced(x0, n1, n2, n3); WorkloadFlagsSpaced(c.workloads); }
      Spaced(ww) + Spaced(w1) + Spaced(w2) + Spaced(w3) + Spaced(w4) + Spaced(latency) + fi;
      { InitSpaced(c.initMode); }
      Spaced(ww) + Spaced(w1) + Spaced(w2) + Spaced(w3) + Spaced(w4) + Spaced(latency) + Spaced(init);
      { SpacedSeven(ww, w1, w2, w3, w4, latency, init); }
      Spaced(ww + w1 + w2 + w3 + w4 + latency + init);
      { SettingsPieces(c, rate); }
      Spaced(Words(c, rate));
    }
  }

  lemma AssocWords(a: seq<string>, b: seq<string>, c: seq<string>)
    ensures a + b + c == a + (b + c)
  {
  }

  lemma SettingsPieces(c: Config, rate: string)
    ensures Words(c, rate)
            == WorkloadWords(c.workloads) + ["-c", FormatInt(c.clients)] + ["-s", FormatInt(c.scale)]
               + ["-d", FormatInt(c.duration)] + ["-e", c.encryptionMode + (if c.latencyMode then "-l" else "")]
               + (if c.latencyMode then ["-r", rate] else []) + (if c.initMode then ["-i"] else [])
  {
    var ww := WorkloadWords(c.workloads);
    var w1, w2, w3 := ["-c", FormatInt(c.clients)], ["-s", FormatInt(c.scale)], ["-d", FormatInt(c.duration)];
    var w4 := ["-e", c.encryptionMode + (if c.latencyMode then "-l" else "")];
    var l := if c.latencyMode then ["-r", rate] else [];
    var i := if c.initMode then ["-i"] else [];
    assert SettingsWords(c, rate) == w1 + w2 + w3 + w4 + l + i;
    AssocWords(ww, w1 + w2 + w3 + w4 + l, i);
    AssocWords(ww, w1 + w2 + w3 + w4, l);
    AssocWords(ww, w1 + w2 + w3, w4);
    AssocWords(ww, w1 + w2, w3);
    AssocWords(ww, w1, w2);
  }

  lemma InitSpaced(initMode: bool)
    ensures Spaced(if initMode then ["-i"] else []) == if initMode then " -i" else ""
  {
    if initMode {
      assert ["-i"][1..] == [];
    }
  }

  lemma {:induction false} SplitSpaced(first: string, words: seq<string>)
    requires ' ' !in first
    requires forall i :: 0 <= i < |words| ==> ' ' !in words[i]
    ensures Split(first + Spaced(words), ' ') == [first] + words
    decreases |words|
  {
    if words == [] {
      assert first + Spaced(words) == first;
      SplitNone(first, ' ');
    } else {
      var tail := words[0] + Spaced(words[1..]);
      assert first + Spaced(words) == first + [' '] + tail;
      SplitAfter(first, ' ', tail);
      SplitSpaced(words[0], words[1..]);
      assert [words[0]] + words[1..] == words;
    }
  }

  lemma {:induction false} ParseWorkloadWords(workloads: seq<string>, seen: seq<string>, rest: seq<string>)
    requires rest == [] || rest[0] != "-w"
    ensures ParseWorkloads(WorkloadWords(workloads) + rest, seen) == ParseSettings(rest, seen + workloads)
  {
    if workloads == [] {
      assert WorkloadWords(workloads) + rest == rest;
      assert seen + workloads == seen;
    } else {
      var words := WorkloadWords(workloads) + rest;
      assert words == ["-w", workloads[0]] + (WorkloadWords(workloads[1..]) + rest);
      assert words[2..] == WorkloadWords(workloads[1..]) + rest;
      ParseWorkloadWords(workloads[1..], seen + [workloads[0]], rest);
      assert seen + [workloads[0]] + workloads[1..] == seen + workloads;
    }
  }

  lemma FormatIntHasNoSpace(n: int)
    ensures ' ' !in FormatInt(n)
  {
    var s := FormatInt(n);
    forall j | 0 <= j < |s| ensures s[j] != ' ' {
      if n < 0 {
        assert j == 0 || s[j] == FormatNat(-n)[j - 1];
      }
    }
  }

  /** The settings words with the three counts and the mode given as text. */
  lemma ParseSettingsOf(workloads: seq<string>, n1: string, n2: string, n3: string, mode: string,
                        tail: seq<string>, f: Fields)
    requires ParseInt(n1) == Some(f.clients) && ParseInt(n2) == Some(f.scale) && ParseInt(n3) == Some(f.duration)
    requires f.workloads == workloads
    requires f.rate.Some? ==> mode == f.encryptionMode + "-l" && |tail| >= 2 && tail[..2] == ["-r", f.rate.value]
    requires f.rate.Some? ==> |tail| >= 2 && tail[2..] == (if f.initMode then ["-i"] else [])
    requires f.rate.None? ==> mode == f.encryptionMode && tail == (if f.initMode then ["-i"] else [])
    ensures ParseSettings(["-c", n1, "-s", n2, "-d", n3, "-e", mode] + tail, workloads) == Some(f)
  {
    var words := ["-c", n1, "-s", n2, "-d", n3, "-e", mode] + tail;
    assert words[1] == n1 && words[3] == n2 && words[5] == n3 && words[7] == mode;
    assert words[8..] == tail;
    if f.rate.Some? {
      assert tail[0] == "-r" && tail[1] == f.rate.value;
      assert mode[..|mode| - 2] == f.encryptionMode;
      assert mode[|mode| - 2..] == "-l";
    }
  }

  lemma ParseSettingsWords(c: Config, rate: string)
    ensures ParseSettings(SettingsWords(c, rate), c.workloads)
            == Some(Fields(c.workloads, c.clients, c.scale, c.duration, c.encryptionMode,
                           if c.latencyMode then Some(rate) else None, c.initMode))
  {
    ParseFormatInt(c.clients);
    ParseFormatInt(c.scale);
    ParseFormatInt(c.duration);
    var mode := c.encryptionMode + (if c.latencyMode then "-l" else "");
    var init := if c.initMode then ["-i"] else [];
    var tail := (if c.latencyMode then ["-r", rate] else []) + init;
    assert SettingsWords(c, rate)
           == ["-c", FormatInt(c.clients), "-s", FormatInt(c.scale), "-d", FormatInt(c.duration), "-e", mode] + tail;
    if c.latencyMode {
      assert tail[..2] == ["-r", rate] && tail[2..] == init;
    } else {
      assert mode == c.encryptionMode && tail == init;
    }
    ParseSettingsOf(c.workloads, FormatInt(c.clients), FormatInt(c.scale), FormatInt(c.duration), mode, tail,
                    Fields(c.workloads, c.clients, c.scale, c.duration, c.encryptionMode,
                           if c.latencyMode then Some(rate) else None, c.initMode));
  }

  /**
   * When no path, encryption mode or rate text contains a space, the
   * descriptor can be read back: the workloads in order, then the client
   * count, scale, duration and encryption mode, the rate exactly in latency
   * mode, and `-i` exactly in init mode.
   */
  lemma DescriptionRoundTrip(c: Config, rate: string)
    requires forall i :: 0 <= i < |c.workloads| ==> ' ' !in c.workloads[i]
    requires ' ' !in c.encryptionMode && ' ' !in rate
    ensures ParseDescription(Description(c, rate))
            == Some(Fields(c.workloads, c.clients, c.scale, c.duration, c.encryptionMode,
                           if c.latencyMode then Some(rate) else None, c.initMode))
  {
    var words := Words(c, rate);
    DescriptionIsSpaced(c, rate);
    FormatIntHasNoSpace(c.clients);
    FormatIntHasNoSpace(c.scale);
    FormatIntHasNoSpace(c.duration);
    assert forall i :: 0 <= i < |words| ==> ' ' !in words[i] by {
      WordsHaveNoSpace(c, rate);
    }
    assert "" + Spaced(words) == Spaced(words);
    SplitSpaced("", words);
    ParseWorkloadWords(c.workloads, [], SettingsWords(c, rate));
    assert [] + c.workloads == c.workloads;
    ParseSettingsWords(c, rate);
  }

  lemma {:induction false} WorkloadWordsHaveNoSpace(workloads: seq<string>)
    requires forall i :: 0 <= i < |workloads| ==> ' ' !in workloads[i]
    ensures forall i :: 0 <= i < |WorkloadWords(workloads)| ==> ' ' !in WorkloadWords(workloads)[i]
  {
    if workloads != [] {
      WorkloadWordsHaveNoSpace(workloads[1..]);
    }
  }

  lemma WordsHaveNoSpace(c: Config, rate: string)
    requires forall i :: 0 <= i < |c.workloads| ==> ' ' !in c.workloads[i]
    requires ' ' !in c.encryptionMode && ' ' !in rate
    ensures forall i :: 0 <= i < |Words(c, rate)| ==> ' ' !in Words(c, rate)[i]
  {
    WorkloadWordsHaveNoSpace(c.workloads);
    FormatIntHasNoSpace(c.clients);
    FormatIntHasNoSpace(c.scale);
    FormatIntHasNoSpace(c.duration);
    var mode := c.encryptionMode + (if c.latencyMode then "-l" else "");
    assert ' ' !in mode;
  }
}

/** The `dtnoutbox` tool: command-line configuration, the file-name filters
    applied while scanning the outbox, the choice of files to send in one
    round, and the reconnect backoff. File-system, socket and archive access
    are left to the caller: what the tool learns from them comes in as
    parameters. */
module Outbox {

  import opened Wrappers

  // ---------------------------------------------------------------------
  // Configuration
  // ---------------------------------------------------------------------

  type Config = map<string, string>

  /** Why configuration reading stops: the help text was printed and the
      process exits, or an option that takes a value was the last argument
      (its value would be read from the null pointer ending `argv`). */
  datatype Stop = Help | MissingValue(option: string)

  const DEFAULT_INTERVAL: string := "5000"
  const DEFAULT_ROUNDS: string := "3"

  /** The options that consume the following argument, and their keys. */
  function ValueKey(arg: string): Option<string>
  {
    if arg == "-w" || arg == "--workdir" then Some("workdir")
    else if arg == "-i" then Some("interval")
    else if arg == "-r" then Some("rounds")
    else None
  }

  /** The options that set their key to "1". */
  function SwitchKey(arg: string): Option<string>
  {
    if arg == "-k" || arg == "--keep" then Some("keep")
    else if arg == "--badclock" then Some("badclock")
    else if arg == "--consider-swp" then Some("consider_swp")
    else if arg == "--consider-invis" then Some("consider_invis")
    else None
  }

  predicate IsHelp(arg: string)
  {
    arg == "-h" || arg == "--help"
  }

  /** Does argument `arg` mention configuration key `k`? */
  predicate Sets(arg: string, k: string)
  {
    ValueKey(arg) == Some(k) || SwitchKey(arg) == Some(k)
  }

  /** The keys options may add or change. */
  const OptionKeys: set<string> :=
    {"workdir", "interval", "rounds", "keep", "badclock", "consider_swp", "consider_invis"}

  /** The option loop from argument `i` on. Every key present in `conf`
      outside the option keys survives unchanged, and no key other than an
      option key is added. */
  function Scan(argv: seq<string>, i: nat, conf: Config): (r: Result<Config, Stop>)
    ensures r.Ok? ==> conf.Keys <= r.value.Keys <= conf.Keys + OptionKeys
    ensures r.Ok? ==> forall k :: k in conf && k !in OptionKeys ==> r.value[k] == conf[k]
    decreases |argv| - i
  {
    if i >= |argv| then Ok(conf)
    else
      var arg := argv[i];
      if IsHelp(arg) then Err(Help)
      else if ValueKey(arg).Some? then
        if i + 1 < |argv| then Scan(argv, i + 2, conf[ValueKey(arg).value := argv[i + 1]])
        else Err(MissingValue(arg))
      else if SwitchKey(arg).Some? then Scan(argv, i + 1, conf[SwitchKey(arg).value := "1"])
      else Scan(argv, i + 1, conf)
  }

  /** `readconfiguration`: fewer than three positional arguments print the
      help; otherwise name, outbox and destination are taken from them and
      the interval and rounds start at their defaults. */
  function ReadConfiguration(argv: seq<string>): (r: Result<Config, Stop>)
    ensures |argv| < 4 ==> r == Err(Help)
    ensures |argv| == 4 ==> r == Ok(InitialConfig(argv))
    ensures r.Ok? ==> (
      && |argv| >= 4
      && "name" in r.value && r.value["name"] == argv[1]
      && "outbox" in r.value && r.value["outbox"] == argv[2]
      && "destination" in r.value && r.value["destination"] == argv[3]
      && "interval" in r.value && "rounds" in r.value)
  {
    if |argv| < 4 then Err(Help)
    else Scan(argv, 4, InitialConfig(argv))
  }

  function InitialConfig(argv: seq<string>): Config
    requires |argv| >= 4
  {
    map["name" := argv[1], "outbox" := argv[2], "destination" := argv[3],
        "interval" := DEFAULT_INTERVAL, "rounds" := DEFAULT_ROUNDS]
  }

  /** Reading stops early only at a help option or at a value option: an
      option loop over switches and other arguments always finishes. */
  lemma {:induction false} ScanOk(argv: seq<string>, i: nat, conf: Config)
    requires forall j :: i <= j < |argv| ==> !IsHelp(argv[j]) && ValueKey(argv[j]).None?
    ensures Scan(argv, i, conf).Ok?
    decreases |argv| - i
  {
    if i < |argv| {
      if SwitchKey(argv[i]).Some? {
        ScanOk(argv, i + 1, conf[SwitchKey(argv[i]).value := "1"]);
      } else {
        ScanOk(argv, i + 1, conf);
      }
    }
  }

  /** With the three positional arguments and no help or value option after
      them, the configuration is read successfully. */
  lemma ReadConfigurationOk(argv: seq<string>)
    requires |argv| >= 4
    requires forall j :: 4 <= j < |argv| ==> !IsHelp(argv[j]) && ValueKey(argv[j]).None?
    ensures ReadConfiguration(argv).Ok?
  {
    ScanOk(argv, 4, InitialConfig(argv));
  }

  /** A key no argument from `i` on mentions keeps the value it had. */
  lemma {:induction false} ScanLeavesUnmentioned(argv: seq<string>, i: nat, conf: Config, k: string)
    requires forall j :: i <= j < |argv| ==> !Sets(argv[j], k)
    requires Scan(argv, i, conf).Ok?
    ensures var c := Scan(argv, i, conf).value;
      (k in c <==> k in conf) && (k in conf ==> c[k] == conf[k])
    decreases |argv| - i
  {
    if i < |argv| {
      var arg := argv[i];
      if ValueKey(arg).Some? {
        ScanLeavesUnmentioned(argv, i + 2, conf[ValueKey(arg).value := argv[i + 1]], k);
      } else if SwitchKey(arg).Some? {
        ScanLeavesUnmentioned(argv, i + 1, conf[SwitchKey(arg).value := "1"], k);
      } else {
        ScanLeavesUnmentioned(argv, i + 1, conf, k);
      }
    }
  }

  /** Interval and rounds keep their defaults unless `-i` / `-r` is given. */
  lemma DefaultsUnlessGiven(argv: seq<string>)
    requires ReadConfiguration(argv).Ok?
    ensures (forall j :: 4 <= j < |argv| ==> argv[j] != "-i") ==>
      ReadConfiguration(argv).value["interval"] == DEFAULT_INTERVAL
    ensures (forall j :: 4 <= j < |argv| ==> argv[j] != "-r") ==>
      ReadConfiguration(argv).value["rounds"] == DEFAULT_ROUNDS
  {
    if forall j :: 4 <= j < |argv| ==> argv[j] != "-i" {
      ScanLeavesUnmentioned(argv, 4, InitialConfig(argv), "interval");
    }
    if forall j :: 4 <= j < |argv| ==> argv[j] != "-r" {
      ScanLeavesUnmentioned(argv, 4, InitialConfig(argv), "rounds");
    }
  }

  /** A scan that finishes consumes exactly its arguments, so arguments
      appended afterwards are read starting from the old end. */
  lemma {:induction false} ScanExtend(argv: seq<string>, tail: seq<string>, i: nat, conf: Config)
    requires i <= |argv|
    requires Scan(argv, i, conf).Ok?
    ensures Scan(argv + tail, i, conf) == Scan(argv + tail, |argv|, Scan(argv, i, conf).value)
    decreases |argv| - i
  {
    var all := argv + tail;
    if i < |argv| {
      var arg := argv[i];
      assert all[i] == arg;
      if ValueKey(arg).Some? {
        assert all[i + 1] == argv[i + 1];
        ScanExtend(argv, tail, i + 2, conf[ValueKey(arg).value := argv[i + 1]]);
      } else if SwitchKey(arg).Some? {
        ScanExtend(argv, tail, i + 1, conf[SwitchKey(arg).value := "1"]);
      } else {
        ScanExtend(argv, tail, i + 1, conf);
      }
    }
  }

  /** Appending one more option: a value option followed by its value
      overrides the key (the last occurrence wins), a switch sets its key to
      "1", a value option with nothing after it stops reading, and any other
      argument is ignored. */
  lemma AppendOption(argv: seq<string>, arg: string, v: string)
    requires ReadConfiguration(argv).Ok?
    ensures var c := ReadConfiguration(argv).value;
      && (ValueKey(arg).Some? ==>
            ReadConfiguration(argv + [arg, v]) == Ok(c[ValueKey(arg).value := v])
            && ReadConfiguration(argv + [arg]) == Err(MissingValue(arg)))
      && (SwitchKey(arg).Some? ==> ReadConfiguration(argv + [arg]) == Ok(c[SwitchKey(arg).value := "1"]))
      && (IsHelp(arg) ==> ReadConfiguration(argv + [arg]) == Err(Help))
      && (ValueKey(arg).None? && SwitchKey(arg).None? && !IsHelp(arg) ==>
            ReadConfiguration(argv + [arg]) == Ok(c))
  {
    var init := InitialConfig(argv);
    ScanExtend(argv, [arg, v], 4, init);
    ScanExtend(argv, [arg], 4, init);
    assert (argv + [arg, v])[|argv|] == arg && (argv + [arg, v])[|argv| + 1] == v;
    assert (argv + [arg])[|argv|] == arg;
    assert InitialConfig(argv + [arg, v]) == init && InitialConfig(argv + [arg]) == init;
  }

  // ---------------------------------------------------------------------
  // File-name filters
  // ---------------------------------------------------------------------

  /** `size_t` arithmetic wraps modulo 2^64. */
  const SIZE_T_MODULUS: int := 0x1_0000_0000_0000_0000

  /** `pat` occurs in `s` at position `j`. */
  predicate MatchAt(s: string, pat: string, j: nat)
  {
    j + |pat| <= |s| && s[j..j + |pat|] == pat
  }

  /** `std::string::find(pat, pos)`: the first match at or after `pos`. */
  function Find(s: string, pat: string, pos: nat): (r: Option<nat>)
    ensures r.Some? ==> pos <= r.value && MatchAt(s, pat, r.value)
    ensures r.Some? ==> forall j :: pos <= j < r.value ==> !MatchAt(s, pat, j)
    ensures r.None? ==> forall j :: pos <= j ==> !MatchAt(s, pat, j)
    decreases |s| + 1 - pos
  {
    if pos + |pat| > |s| then None
    else if s[pos..pos + |pat|] == pat then Some(pos)
    else Find(s, pat, pos + 1)
  }

  /** `isSwap` as written: a `~` anywhere, or `.swp` searched from position
      `length - 4`, which for names shorter than 4 wraps to a huge start
      position and finds nothing. */
  predicate IsSwap(name: string)
    requires |name| < SIZE_T_MODULUS
  {
    Find(name, "~", 0).Some? || Find(name, ".swp", (|name| - 4) % SIZE_T_MODULUS).Some?
  }

  /** Swap files are exactly the names containing `~` or ending in `.swp`. */
  lemma IsSwapMeaning(name: string)
    requires |name| < SIZE_T_MODULUS
    ensures IsSwap(name) <==> '~' in name || (|name| >= 4 && name[|name| - 4..] == ".swp")
  {
    var tilde := Find(name, "~", 0);
    if '~' in name {
      var j :| 0 <= j < |name| && name[j] == '~';
      assert MatchAt(name, "~", j);
    }
    if tilde.Some? {
      assert name[tilde.value] == name[tilde.value..tilde.value + 1][0];
    }
    var pos := (|name| - 4) % SIZE_T_MODULUS;
    if |name| >= 4 {
      assert pos == |name| - 4;
      assert Find(name, ".swp", pos).Some? <==> MatchAt(name, ".swp", pos);
    } else {
      assert pos == |name| - 4 + SIZE_T_MODULUS;
    }
  }

  datatype OutOfRange = OutOfRange

  /** What one pass over the directory leaves behind: the observed paths,
      and the error that ended the pass early, if any. The list of observed
      files outlives a failed connection round, so the paths recorded before
      the error stay recorded. */
  datatype Pass = Pass(observed: seq<string>, error: Option<OutOfRange>)

  /** `isInvis`: a name starting with a dot; reading the first character of
      an empty name throws. */
  function IsInvis(name: string): (r: Result<bool, OutOfRange>)
    ensures r.Ok? <==> |name| > 0
    ensures r.Ok? ==> (r.value <==> name[0] == '.')
  {
    if |name| == 0 then Err(OutOfRange) else Ok(name[0] == '.')
  }

  /** A directory entry as the scan sees it. */
  datatype Entry = Entry(path: string, basename: string, system: bool)

  /** Whether the scan skips an entry: "." and "..", swap files unless
      `--consider-swp`, hidden files unless `--consider-invis`. The tests
      run in this order and stop at the first that skips. */
  function Skipped(e: Entry, considerSwp: bool, considerInvis: bool): (r: Result<bool, OutOfRange>)
    requires |e.basename| < SIZE_T_MODULUS
    ensures e.system ==> r == Ok(true)
    ensures !e.system && |e.basename| > 0 ==> (
      && r.Ok?
      && (r.value <==> (!considerSwp && IsSwap(e.basename)) || (!considerInvis && e.basename[0] == '.')))
    ensures !e.system && |e.basename| == 0 ==> r == (if considerInvis then Ok(false) else Err(OutOfRange))
  {
    if e.system then Ok(true)
    else if !considerSwp && IsSwap(e.basename) then Ok(true)
    else if !considerInvis then IsInvis(e.basename)
    else Ok(false)
  }

  /** Whether the scan keeps entry `e`: its filters ran without throwing
      and did not skip it. */
  predicate Passes(e: Entry, considerSwp: bool, considerInvis: bool)
    requires |e.basename| < SIZE_T_MODULUS
  {
    Skipped(e, considerSwp, considerInvis) == Ok(false)
  }

  /** Paths are observed at most once: every entry that is not skipped and
      not observed yet is appended, in directory order, until a filter
      throws. */
  function Observe(observed: seq<string>, avail: seq<Entry>, considerSwp: bool, considerInvis: bool): (r: Pass)
    requires forall i :: 0 <= i < |avail| ==> |avail[i].basename| < SIZE_T_MODULUS
    ensures |r.observed| >= |observed| && r.observed[..|observed|] == observed
    ensures Distinct(observed) ==> Distinct(r.observed)
    decreases |avail|
  {
    if |avail| == 0 then Pass(observed, None)
    else
      match Skipped(avail[0], considerSwp, considerInvis)
      case Err(e) => Pass(observed, Some(e))
      case Ok(skip) =>
        var next := if skip || avail[0].path in observed then observed else observed + [avail[0].path];
        var r := Observe(next, avail[1..], considerSwp, considerInvis);
        assert r.observed[..|observed|] == next[..|observed|];
        r
  }

  /** A pass ends with an error exactly when one of the entries makes a
      filter throw. */
  lemma {:induction false} ObserveFails(observed: seq<string>, avail: seq<Entry>, considerSwp: bool, considerInvis: bool)
    requires forall i :: 0 <= i < |avail| ==> |avail[i].basename| < SIZE_T_MODULUS
    ensures Observe(observed, avail, considerSwp, considerInvis).error.Some? <==>
      exists i :: 0 <= i < |avail| && Skipped(avail[i], considerSwp, considerInvis).Err?
    decreases |avail|
  {
    if |avail| > 0 && Skipped(avail[0], considerSwp, considerInvis).Ok? {
      var skip := Skipped(avail[0], considerSwp, considerInvis).value;
      var next := if skip || avail[0].path in observed then observed else observed + [avail[0].path];
      ObserveFails(next, avail[1..], considerSwp, considerInvis);
      assert forall i :: 1 <= i < |avail| ==> avail[1..][i - 1] == avail[i];
    }
  }

  /** Every entry that passes the filters, and comes before any entry that
      makes a filter throw, is observed afterwards. */
  lemma {:induction false} ObserveAddsPassing(observed: seq<string>, avail: seq<Entry>, considerSwp: bool, considerInvis: bool, i: nat)
    requires forall j :: 0 <= j < |avail| ==> |avail[j].basename| < SIZE_T_MODULUS
    requires i < |avail| && Passes(avail[i], considerSwp, considerInvis)
    requires forall j :: 0 <= j < i ==> Skipped(avail[j], considerSwp, considerInvis).Ok?
    ensures avail[i].path in Observe(observed, avail, considerSwp, considerInvis).observed
    decreases |avail|
  {
    var skip := Skipped(avail[0], considerSwp, considerInvis).value;
    var next := if skip || avail[0].path in observed then observed else observed + [avail[0].path];
    var r := Observe(next, avail[1..], considerSwp, considerInvis);
    if i == 0 {
      assert avail[0].path in next;
      assert next == r.observed[..|next|];
    } else {
      assert avail[1..][i - 1] == avail[i];
      ObserveAddsPassing(next, avail[1..], considerSwp, considerInvis, i - 1);
    }
  }

  /** Only entries that pass the filters are ever added: swap and hidden
      files stay out unless they are considered. */
  lemma {:induction false} ObserveAddsOnlyPassing(observed: seq<string>, avail: seq<Entry>, considerSwp: bool, considerInvis: bool, k: nat)
    requires forall j :: 0 <= j < |avail| ==> |avail[j].basename| < SIZE_T_MODULUS
    requires |observed| <= k < |Observe(observed, avail, considerSwp, considerInvis).observed|
    ensures exists i :: (0 <= i < |avail| && Passes(avail[i], considerSwp, considerInvis) &&
      avail[i].path == Observe(observed, avail, considerSwp, considerInvis).observed[k])
    decreases |avail|
  {
    var skip := Skipped(avail[0], considerSwp, considerInvis).value;
    var next := if skip || avail[0].path in observed then observed else observed + [avail[0].path];
    var r := Observe(next, avail[1..], considerSwp, considerInvis);
    if k < |next| {
      assert r.observed[..|next|] == next;
      assert r.observed[k] == avail[0].path;
    } else {
      ObserveAddsOnlyPassing(next, avail[1..], considerSwp, considerInvis, k);
      var i' :| 0 <= i' < |avail[1..]| && avail[1..][i'].path == r.observed[k] &&
        Passes(avail[1..][i'], considerSwp, considerInvis);
      assert avail[i' + 1] == avail[1..][i'];
    }
  }

  ghost predicate Distinct(s: seq<string>)
  {
    forall i, j :: 0 <= i < j < |s| ==> s[i] != s[j]
  }

  // ---------------------------------------------------------------------
  // Choosing the files to send
  // ---------------------------------------------------------------------

  /** What an observed file reports in one round: whether its size was the
      same over the last `rounds` measurements, when it was last sent and
      the latest modification time seen. */
  datatype Observation = Observation(sizesEqual: bool, lastSent: nat, latestTimestamp: nat)

  /** A file is sent once its size has settled and it changed since it was
      last sent, or always on a bad clock. */
  predicate ReadyToSend(o: Observation, badclock: bool)
  {
    o.sizesEqual && (o.lastSent < o.latestTimestamp || badclock)
  }

  /** The positions of the files sent in this round, in ascending order. */
  function Select(obs: seq<Observation>, badclock: bool, from: nat): (r: seq<nat>)
    ensures forall k :: 0 <= k < |r| ==> from <= r[k] < from + |obs|
    ensures forall i :: from <= i < from + |obs| ==> (i in r <==> ReadyToSend(obs[i - from], badclock))
    ensures forall k, l :: 0 <= k < l < |r| ==> r[k] < r[l]
    decreases |obs|
  {
    if |obs| == 0 then []
    else
      var rest := Select(obs[1..], badclock, from + 1);
      if ReadyToSend(obs[0], badclock) then [from] + rest else rest
  }

  /** With a bad clock only the size decides; otherwise a file already sent
      at its latest timestamp is never sent again. */
  lemma SelectionIndicators(o: Observation)
    ensures ReadyToSend(o, true) <==> o.sizesEqual
    ensures o.lastSent >= o.latestTimestamp ==> !ReadyToSend(o, false)
  {
  }

  // ---------------------------------------------------------------------
  // Reconnect backoff
  // ---------------------------------------------------------------------

  const INITIAL_BACKOFF: nat := 2
  /** Doubling stops once the backoff reaches ten minutes. */
  const BACKOFF_CAP: nat := 600

  datatype Ending = SocketError | IoError | OtherError | Stopped

  /** One pass of the connection loop: whether the client connected, how
      the pass ended, and whether the tool was still running then. */
  datatype Round = Round(connected: bool, ending: Ending, running: bool)

  /** The pass ended with a socket or I/O failure, the two cases that back
      off before retrying. */
  predicate Failure(r: Round)
  {
    r.ending == SocketError || r.ending == IoError
  }

  /** The backoff after one pass: reset on connect, doubled after a socket
      or I/O failure while running and below the cap. */
  function NextBackoff(b: nat, r: Round): (nb: nat)
    ensures b in BACKOFFS ==> nb in BACKOFFS
    ensures r.connected && !(Failure(r) && r.running) ==> nb == INITIAL_BACKOFF
    ensures r.connected && Failure(r) && r.running ==> nb == 2 * INITIAL_BACKOFF
    ensures !r.connected && Failure(r) && r.running && b < BACKOFF_CAP ==> nb == 2 * b
    ensures !r.connected && !(Failure(r) && r.running && b < BACKOFF_CAP) ==> nb == b
  {
    var b0 := if r.connected then INITIAL_BACKOFF else b;
    if Failure(r) && r.running && b0 < BACKOFF_CAP then b0 * 2
    else b0
  }

  /** The values the backoff can take. */
  const BACKOFFS: set<nat> := {2, 4, 8, 16, 32, 64, 128, 256, 512, 1024}

  function Backoff(rounds: seq<Round>): (b: nat)
    ensures b in BACKOFFS
    ensures |rounds| > 0 && rounds[|rounds| - 1].connected && rounds[|rounds| - 1].ending == Stopped ==> b == INITIAL_BACKOFF
    decreases |rounds|
  {
    if |rounds| == 0 then INITIAL_BACKOFF
    else NextBackoff(Backoff(rounds[..|rounds| - 1]), rounds[|rounds| - 1])
  }

  function Pow2(k: nat): nat
  {
    if k == 0 then 1 else 2 * Pow2(k - 1)
  }

  function Failures(k: nat): seq<Round>
  {
    seq(k, _ => Round(false, SocketError, true))
  }

  /** k failed connection attempts in a row double the backoff k times,
      until it passes the cap at 1024. */
  lemma {:induction false} FailuresDouble(k: nat)
    ensures Backoff(Failures(k)) == if k >= 9 then 1024 else Pow2(k + 1)
  {
    if k > 0 {
      assert Failures(k)[..k - 1] == Failures(k - 1);
      FailuresDouble(k - 1);
      if k <= 9 {
        assert Pow2(k) <= 512 by {
          assert k == 1 || k == 2 || k == 3 || k == 4 || k == 5 || k == 6 || k == 7 || k == 8 || k == 9;
        }
      }
    }
  }
}

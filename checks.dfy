/**
  The probe's checks as the plugin runs them. Each check sends one command to
  the monitored host, strips the text that comes back, derives its figure and
  ends with a report: the exit code of the plugin convention, the start of the
  printed status line, and the figure it prints. The remote shell is a
  function from command line to output text.
*/
module Checks {
  import opened Wrappers
  import opened Text
  import opened Numbers
  import opened Thresholds
  import opened Tables
  import opened Metrics

  /** `--output`: `short` or `long`. */
  datatype OutputMode = Short | Long

  /** `--mode`: which figure the probe reports. */
  datatype Mode = CpuCheck | RamCheck | GcCheck | HeapCheck | ClassesCheck | ThreadsCheck

  /** The configuration the command line gives the checks. */
  datatype Config = Config(mode: Mode, warning: real, critical: real, output: OutputMode)

  /** The thresholds `--warning` and `--critical` default to. */
  const DefaultWarning: real := 80.0
  const DefaultCritical: real := 90.0

  /** The configuration when only `--mode` is given: the default thresholds and short output. */
  function DefaultConfig(mode: Mode): (r: Config)
  {
    Config(mode, DefaultWarning, DefaultCritical, Short)
  }

  /** The figure a check prints; UNKNOWN reports print none. */
  datatype Reading =
    | NoReading
    | Percent(value: real, warning: real, critical: real)
    | HeapFigures(heap: Heap)
    | Count(n: int)

  /** What the plugin ends with: its exit code, the start of its status line, and its figure. */
  datatype Report = Report(exit: int, headline: string, reading: Reading)

  /** The SSH session: a shell that answers commands, or the reason the connection failed. */
  datatype Session = Connected(run: string -> string) | Refused(cause: string)

  const UnknownPrefix := "UNKNOWN - "

  const NoJavaProcess := "Aucun processus Java trouvé sur le serveur"
  const CpuError := "Erreur lors de la récupération de l'utilisation CPU"
  const RamError := "Erreur lors de la récupération de l'utilisation RAM"
  const GcInvalid := "Résultat invalide de jstat"
  const GcParseError := "Erreur lors de l'analyse de la sortie jstat"
  const HeapInvalid := "Résultat invalide de jstat -gccapacity"
  const HeapParseError := "Erreur lors de l'analyse de la sortie de jstat -gccapacity"
  const ClassesInvalid := "Résultat invalide de jstat -class"
  const ClassesParseError := "Erreur lors de l'analyse de la sortie de jstat -class"
  const ConnectionError := "Erreur de connexion SSH: "

  const PgrepCommand := "pgrep -f java"

  /** `ps` asked for one column of the process, without a header line. */
  function PsCommand(pid: string, column: string): (r: string)
  {
    "ps -p " + pid + " -o " + column + " --no-headers"
  }

  /** One `jstat` sample of the process. */
  function JstatCommand(option: string, pid: string): (r: string)
  {
    "jstat " + option + " " + pid + " 1 1"
  }

  /** `ps` listing the threads of the process, one per line. */
  function ThreadsCommand(pid: string): (r: string)
  {
    "ps -p " + pid + " -L --no-headers"
  }

  /** The words that name the figure in the status line, short or long. */
  function Label(mode: Mode, output: OutputMode): (r: string)
  {
    match mode
    case CpuCheck => if output == Short then "CPU" else "CPU usage"
    case RamCheck => if output == Short then "RAM" else "RAM usage"
    case GcCheck => if output == Short then "GC Old" else "GC Old Generation usage"
    case HeapCheck => if output == Short then "HEAP - Used" else "HEAP usage details"
    case ClassesCheck => if output == Short then "CLASSES - Loaded" else "Number of loaded classes"
    case ThreadsCheck => if output == Short then "THREADS - Active" else "Active Threads"
  }

  /** The report of a check that ends UNKNOWN with the given message. */
  function Unknown(message: string): (r: Report)
  {
    Report(3, UnknownPrefix + message, NoReading)
  }

  /**
    The plugin convention every report keeps: the exit code is one of the four,
    and exactly the UNKNOWN reports print no figure and start with "UNKNOWN - ".
  */
  predicate WellFormed(r: Report)
  {
    && 0 <= r.exit <= 3
    && (r.exit == 3 <==> r.reading == NoReading)
    && (r.exit == 3 <==> UnknownPrefix <= r.headline)
  }

  /** A threshold report: any figure it prints was classified against these cut-offs. */
  predicate ClassifiedAgainst(r: Report, warning: real, critical: real)
  {
    r.reading.Percent? ==>
      && r.reading.warning == warning
      && r.reading.critical == critical
      && r.exit == Classify(r.reading.value, warning, critical).Code()
  }

  /** An informational report: OK with its figure, or UNKNOWN, never a threshold status. */
  predicate Informational(r: Report)
  {
    !r.reading.Percent? && (r.exit == 0 || r.exit == 3)
  }

  /** The report of a threshold check whose figure reads `value`: its status, the label and the figure. */
  function Classified(value: real, warning: real, critical: real, caption: string): (r: Report)
  {
    var status := Classify(value, warning, critical);
    Report(status.Code(), status.Text() + " - " + caption, Percent(value, warning, critical))
  }

  /** What `check_cpu` ends with on this shell and process: its error when `ps` prints no number, else the classified share. */
  predicate CpuOutcome(run: string -> string, pid: string, warning: real, critical: real, output: OutputMode, r: Report)
  {
    match ParseReal(Strip(run(PsCommand(pid, "%cpu"))))
    case None => r == Unknown(CpuError)
    case Some(usage) => r == Classified(usage, warning, critical, Label(CpuCheck, output))
  }

  /** What `check_ram` ends with: the same over the `%mem` column. */
  predicate RamOutcome(run: string -> string, pid: string, warning: real, critical: real, output: OutputMode, r: Report)
  {
    match ParseReal(Strip(run(PsCommand(pid, "%mem"))))
    case None => r == Unknown(RamError)
    case Some(usage) => r == Classified(usage, warning, critical, Label(RamCheck, output))
  }

  /** What `check_gc` ends with: one message per way the `jstat -gc` table fails, else the classified ratio. */
  predicate GcOutcome(run: string -> string, pid: string, warning: real, critical: real, output: OutputMode, r: Report)
  {
    match GcRatio(Strip(run(JstatCommand("-gc", pid))))
    case Failure(TooFewLines) => r == Unknown(GcInvalid)
    case Failure(BadField) => r == Unknown(GcParseError)
    case Success(ratio) => r == Classified(ratio, warning, critical, Label(GcCheck, output))
  }

  /** What `check_heap` ends with: one message per way the table fails, else exit 0 with the heap totals. */
  predicate HeapOutcome(run: string -> string, pid: string, output: OutputMode, r: Report)
  {
    match HeapReading(Strip(run(JstatCommand("-gccapacity", pid))))
    case Failure(TooFewLines) => r == Unknown(HeapInvalid)
    case Failure(BadField) => r == Unknown(HeapParseError)
    case Success(heap) => r == Report(0, Label(HeapCheck, output), HeapFigures(heap))
  }

  /** What `check_classes` ends with: one message per way the table fails, else exit 0 with the count. */
  predicate ClassesOutcome(run: string -> string, pid: string, output: OutputMode, r: Report)
  {
    match ClassCount(Strip(run(JstatCommand("-class", pid))))
    case Failure(TooFewLines) => r == Unknown(ClassesInvalid)
    case Failure(BadField) => r == Unknown(ClassesParseError)
    case Success(n) => r == Report(0, Label(ClassesCheck, output), Count(n))
  }

  /** What `check_threads` ends with: exit 0 with the number of lines `ps -L` prints. */
  predicate ThreadsOutcome(run: string -> string, pid: string, output: OutputMode, r: Report)
  {
    r == Report(0, Label(ThreadsCheck, output), Count(ThreadCount(Strip(run(ThreadsCommand(pid))))))
  }

  /** The report of the check that `config.mode` selects, run on the process `pid`. */
  predicate Dispatched(run: string -> string, pid: string, config: Config, r: Report)
  {
    match config.mode
    case CpuCheck => CpuOutcome(run, pid, config.warning, config.critical, config.output, r)
    case RamCheck => RamOutcome(run, pid, config.warning, config.critical, config.output, r)
    case GcCheck => GcOutcome(run, pid, config.warning, config.critical, config.output, r)
    case HeapCheck => HeapOutcome(run, pid, config.output, r)
    case ClassesCheck => ClassesOutcome(run, pid, config.output, r)
    case ThreadsCheck => ThreadsOutcome(run, pid, config.output, r)
  }

  // ---------------------------------------------------------------------
  // Checks

  /**
    The if/elif chain each threshold check writes out: status 0 "OK" unless the
    value reaches the critical cut-off (2 "CRITICAL") or else the warning
    cut-off (1 "WARNING").
  */
  method ClassifyStatus(value: real, warning: real, critical: real) returns (status: int, statusText: string)
    ensures status == Classify(value, warning, critical).Code()
    ensures statusText == Classify(value, warning, critical).Text()
  {
    status := 0;
    statusText := "OK";
    if value >= critical {
      status := 2;
      statusText := "CRITICAL";
    } else if value >= warning {
      status := 1;
      statusText := "WARNING";
    }
  }

  /** The report of a threshold check whose figure has been read: the exit code is the status. */
  method ThresholdReport(value: real, warning: real, critical: real, caption: string) returns (report: Report)
    ensures report == Classified(value, warning, critical, caption)
    ensures report.exit == Classify(value, warning, critical).Code()
    ensures WellFormed(report)
  {
    var status, statusText := ClassifyStatus(value, warning, critical);
    report := Report(status, statusText + " - " + caption, Percent(value, warning, critical));
    StatusHeadline(Classify(value, warning, critical), " - " + caption);
  }

  /**
    The process id: the first word `pgrep` prints, and an UNKNOWN report when it
    prints nothing but whitespace.
  */
  method LocateJvm(run: string -> string) returns (pid: Result<string, Report>)
    ensures pid.Failure? <==> AllSpace(run(PgrepCommand))
    ensures pid.Failure? ==> pid.error == Unknown(NoJavaProcess)
    ensures pid.Success? ==> IsWord(pid.value) && pid.value == Split(run(PgrepCommand))[0]
  {
    var raw := run(PgrepCommand);
    var output := Strip(raw);
    var pids := Split(output);
    SplitStrip(raw);
    SplitEmpty(raw);
    if pids == [] {
      return Failure(Unknown(NoJavaProcess));
    }
    return Success(pids[0]);
  }

  /** `check_cpu`: the process's CPU share from `ps`, classified against the thresholds. */
  method CheckCpu(run: string -> string, pid: string, warning: real, critical: real, output: OutputMode)
    returns (report: Report)
    ensures WellFormed(report) && ClassifiedAgainst(report, warning, critical)
    ensures CpuOutcome(run, pid, warning, critical, output, report)
  {
    var text := Strip(run(PsCommand(pid, "%cpu")));
    var cpuUsage := ParseReal(text);
    if cpuUsage.None? {
      UnknownWellFormed(CpuError);
      return Unknown(CpuError);
    }
    report := ThresholdReport(cpuUsage.value, warning, critical, Label(CpuCheck, output));
  }

  /** `check_ram`: the process's memory share from `ps`, classified against the thresholds. */
  method CheckRam(run: string -> string, pid: string, warning: real, critical: real, output: OutputMode)
    returns (report: Report)
    ensures WellFormed(report) && ClassifiedAgainst(report, warning, critical)
    ensures RamOutcome(run, pid, warning, critical, output, report)
  {
    var text := Strip(run(PsCommand(pid, "%mem")));
    var memUsage := ParseReal(text);
    if memUsage.None? {
      UnknownWellFormed(RamError);
      return Unknown(RamError);
    }
    report := ThresholdReport(memUsage.value, warning, critical, Label(RamCheck, output));
  }

  /** `check_gc`: the old-generation ratio from `jstat -gc`, classified against the thresholds. */
  method CheckGc(run: string -> string, pid: string, warning: real, critical: real, output: OutputMode)
    returns (report: Report)
    ensures WellFormed(report) && ClassifiedAgainst(report, warning, critical)
    ensures GcOutcome(run, pid, warning, critical, output, report)
  {
    var text := Strip(run(JstatCommand("-gc", pid)));
    match GcRatio(text)
    case Failure(TooFewLines) =>
      UnknownWellFormed(GcInvalid);
      report := Unknown(GcInvalid);
    case Failure(BadField) =>
      UnknownWellFormed(GcParseError);
      report := Unknown(GcParseError);
    case Success(ratio) =>
      report := ThresholdReport(ratio, warning, critical, Label(GcCheck, output));
  }

  /** `check_heap`: the heap totals from `jstat -gccapacity`; informational, so it exits 0 once read. */
  method CheckHeap(run: string -> string, pid: string, output: OutputMode) returns (report: Report)
    ensures WellFormed(report) && Informational(report)
    ensures HeapOutcome(run, pid, output, report)
  {
    var text := Strip(run(JstatCommand("-gccapacity", pid)));
    match HeapReading(text)
    case Failure(TooFewLines) =>
      UnknownWellFormed(HeapInvalid);
      report := Unknown(HeapInvalid);
    case Failure(BadField) =>
      UnknownWellFormed(HeapParseError);
      report := Unknown(HeapParseError);
    case Success(heap) =>
      report := Report(0, Label(HeapCheck, output), HeapFigures(heap));
      LabelHeadline(HeapCheck, output);
  }

  /** `check_classes`: the loaded-class count from `jstat -class`; informational, so it exits 0 once read. */
  method CheckClasses(run: string -> string, pid: string, output: OutputMode) returns (report: Report)
    ensures WellFormed(report) && Informational(report)
    ensures ClassesOutcome(run, pid, output, report)
  {
    var text := Strip(run(JstatCommand("-class", pid)));
    match ClassCount(text)
    case Failure(TooFewLines) =>
      UnknownWellFormed(ClassesInvalid);
      report := Unknown(ClassesInvalid);
    case Failure(BadField) =>
      UnknownWellFormed(ClassesParseError);
      report := Unknown(ClassesParseError);
    case Success(loadedClasses) =>
      report := Report(0, Label(ClassesCheck, output), Count(loadedClasses));
      LabelHeadline(ClassesCheck, output);
  }

  /** `check_threads`: the number of lines `ps -L` prints; it never fails and always exits 0. */
  method CheckThreads(run: string -> string, pid: string, output: OutputMode) returns (report: Report)
    ensures WellFormed(report) && Informational(report)
    ensures ThreadsOutcome(run, pid, output, report)
  {
    var text := Strip(run(ThreadsCommand(pid)));
    var threadCount := ThreadCount(text);
    report := Report(0, Label(ThreadsCheck, output), Count(threadCount));
    LabelHeadline(ThreadsCheck, output);
  }

  /**
    The whole probe: connect, find the Java process, then run the chosen check.
    A failed connection and a missing process end UNKNOWN before any check runs.
  */
  method Probe(session: Session, config: Config) returns (report: Report)
    ensures WellFormed(report)
    ensures session.Refused? ==> report == Unknown(ConnectionError + session.cause)
    ensures session.Connected? && AllSpace(session.run(PgrepCommand)) ==> report == Unknown(NoJavaProcess)
    ensures ClassifiedAgainst(report, config.warning, config.critical)
    ensures config.mode in {HeapCheck, ClassesCheck, ThreadsCheck} ==> Informational(report)
    ensures session.Connected? && !AllSpace(session.run(PgrepCommand)) && config.mode == ThreadsCheck ==>
              report.exit == 0
    ensures session.Connected? ==>
              var pids := Split(session.run(PgrepCommand));
              pids != [] ==> Dispatched(session.run, pids[0], config, report)
  {
    if session.Refused? {
      UnknownWellFormed(ConnectionError + session.cause);
      return Unknown(ConnectionError + session.cause);
    }
    var run := session.run;
    var located := LocateJvm(run);
    if located.Failure? {
      UnknownWellFormed(NoJavaProcess);
      return located.error;
    }
    var pid := located.value;
    match config.mode
    case CpuCheck => report := CheckCpu(run, pid, config.warning, config.critical, config.output);
    case RamCheck => report := CheckRam(run, pid, config.warning, config.critical, config.output);
    case GcCheck => report := CheckGc(run, pid, config.warning, config.critical, config.output);
    case HeapCheck => report := CheckHeap(run, pid, config.output);
    case ClassesCheck => report := CheckClasses(run, pid, config.output);
    case ThreadsCheck => report := CheckThreads(run, pid, config.output);
  }

  // ---------------------------------------------------------------------
  // Lemmas

  /** The `ps` command line splits into its six words, with the pid as one argument of its own. */
  lemma PsCommandWords(pid: string, column: string)
    requires IsWord(pid) && IsWord(column)
    ensures Split(PsCommand(pid, column)) == ["ps", "-p", pid, "-o", column, "--no-headers"]
  {
    assert PsCommand(pid, column) == "ps" + " " + "-p" + " " + pid + " " + "-o" + " " + column + " " + "--no-headers";
    assert IsWord("ps") && IsWord("-p") && IsWord("-o") && IsWord("--no-headers");
    SplitSix("ps", "-p", pid, "-o", column, "--no-headers");
  }

  /** The `jstat` command line splits into its five words, with the pid as one argument of its own. */
  lemma JstatCommandWords(option: string, pid: string)
    requires IsWord(option) && IsWord(pid)
    ensures Split(JstatCommand(option, pid)) == ["jstat", option, pid, "1", "1"]
  {
    assert JstatCommand(option, pid) == "jstat" + " " + option + " " + pid + " " + "1" + " " + "1";
    assert IsWord("jstat") && IsWord("1");
    SplitFive("jstat", option, pid, "1", "1");
  }

  /** The thread-listing command line splits into its five words, with the pid as one argument of its own. */
  lemma ThreadsCommandWords(pid: string)
    requires IsWord(pid)
    ensures Split(ThreadsCommand(pid)) == ["ps", "-p", pid, "-L", "--no-headers"]
  {
    assert ThreadsCommand(pid) == "ps" + " " + "-p" + " " + pid + " " + "-L" + " " + "--no-headers";
    assert IsWord("ps") && IsWord("-p") && IsWord("-L") && IsWord("--no-headers");
    SplitFive("ps", "-p", pid, "-L", "--no-headers");
  }

  /**
    Under the default thresholds a figure is CRITICAL from 90 on, WARNING from
    80 up to 90 and OK below 80.
  */
  lemma DefaultBands(mode: Mode, value: real)
    ensures var c := DefaultConfig(mode);
            && (Classify(value, c.warning, c.critical) == Critical <==> value >= 90.0)
            && (Classify(value, c.warning, c.critical) == Warning <==> 80.0 <= value < 90.0)
            && (Classify(value, c.warning, c.critical) == Ok <==> value < 80.0)
            && c.output == Short
  {
    ClassifyCases(value, DefaultWarning, DefaultCritical);
  }

  lemma NotUnknownHeadline(s: string)
    requires s != [] && s[0] != 'U'
    ensures !(UnknownPrefix <= s)
  {
    if |UnknownPrefix| <= |s| {
      assert s[..|UnknownPrefix|][0] == s[0];
    }
  }

  lemma UnknownWellFormed(message: string)
    ensures WellFormed(Unknown(message))
  {
    assert (UnknownPrefix + message)[..|UnknownPrefix|] == UnknownPrefix;
  }

  lemma StatusHeadline(s: Status, rest: string)
    requires s != Status.Unknown
    ensures !(UnknownPrefix <= s.Text() + rest)
  {
    NotUnknownHeadline(s.Text() + rest);
  }

  lemma LabelHeadline(mode: Mode, output: OutputMode)
    ensures !(UnknownPrefix <= Label(mode, output))
  {
    NotUnknownHeadline(Label(mode, output));
  }

  /**
    `check_gc` on what a JVM's `jstat -gc` prints: blanks, a column-aligned
    table in which OC and OU first appear over fields reading `oc` and `ou`,
    and the trailing newline. The report is the classified ratio OU / OC * 100.
  */
  lemma GcFromJstat(run: string -> string, pid: string, warning: real, critical: real, output: OutputMode, r: Report,
                    lead: string, h: seq<string>, v: seq<string>, layout: Layout, trail: string,
                    i: nat, oc: real, j: nat, ou: real)
    requires Printable(h, v) && Fits(layout, h, v) && AllSpace(lead) && AllSpace(trail)
    requires run(JstatCommand("-gc", pid)) == lead + AlignedText(h, v, layout) + trail
    requires FieldAt(h, v, "OC", i, oc) && FieldAt(h, v, "OU", j, ou)
    ensures GcOutcome(run, pid, warning, critical, output, r)
            <==> r == Classified(Percentage(ou, oc), warning, critical, Label(GcCheck, output))
  {
    StripAligned(lead, h, v, layout, trail);
    GcRatioFromText(h, v, layout, i, oc, j, ou);
  }

  /**
    `check_heap` on what a JVM's `jstat -gccapacity` prints, when the eight
    columns first appear over readable fields: exit 0 with the summed
    capacities and the summed used sizes.
  */
  lemma HeapFromJstat(run: string -> string, pid: string, output: OutputMode, r: Report,
                      lead: string, h: seq<string>, v: seq<string>, layout: Layout, trail: string,
                      ci: seq<nat>, cx: seq<real>, ui: seq<nat>, ux: seq<real>)
    requires Printable(h, v) && Fits(layout, h, v) && AllSpace(lead) && AllSpace(trail)
    requires run(JstatCommand("-gccapacity", pid)) == lead + AlignedText(h, v, layout) + trail
    requires |ci| == 4 && |cx| == 4 && |ui| == 4 && |ux| == 4
    requires forall k :: 0 <= k < 4 ==> FieldAt(h, v, CapacityColumns[k], ci[k], cx[k])
    requires forall k :: 0 <= k < 4 ==> FieldAt(h, v, UsedColumns[k], ui[k], ux[k])
    ensures HeapOutcome(run, pid, output, r)
            <==> r == Report(0, Label(HeapCheck, output), HeapFigures(Heap(Sum(cx), Sum(ux))))
  {
    assert FieldAt(h, v, CapacityColumns[0], ci[0], cx[0]);
    StripAligned(lead, h, v, layout, trail);
    HeapFromText(h, v, layout, ci, cx, ui, ux);
  }

  /**
    `check_classes` on what a JVM's `jstat -class` prints: a column-aligned
    table whose value row starts with the count. The report is exit 0 with
    that count.
  */
  lemma ClassesFromJstat(run: string -> string, pid: string, output: OutputMode, r: Report,
                         lead: string, h: seq<string>, n: int, rest: seq<string>, layout: Layout, trail: string)
    requires h != [] && (forall k :: 0 <= k < |h| ==> IsWord(h[k])) && (forall k :: 0 <= k < |rest| ==> IsWord(rest[k]))
    requires Fits(layout, h, [ShowInt(n)] + rest) && AllSpace(lead) && AllSpace(trail)
    requires run(JstatCommand("-class", pid)) == lead + AlignedText(h, [ShowInt(n)] + rest, layout) + trail
    ensures ClassesOutcome(run, pid, output, r) <==> r == Report(0, Label(ClassesCheck, output), Count(n))
  {
    var v := [ShowInt(n)] + rest;
    ShowIntWord(n);
    forall k | 0 <= k < |v| ensures IsWord(v[k]) {
      if k > 0 { assert v[k] == rest[k - 1]; }
    }
    StripAligned(lead, h, v, layout, trail);
    ClassCountRow(h, n, rest, layout);
  }
}

# check_jvm — a verified model of the JVM probe's decisions

`check_jvm.py` is a Nagios-style monitoring plugin. It logs into a host over
SSH, finds a Java process with `pgrep -f java`, and reports one figure of that
process. With `-m cpu`, `ram` or `gc` it reports a percentage classified against
the `--warning`/`--critical` thresholds (OK, WARNING or CRITICAL). With
`heap`, `classes` or `threads` it reports an informational figure and exits 0.
A refused connection, a missing Java process, and output that cannot be parsed
end UNKNOWN with exit code 3. An exception raised while a command runs or its
output is decoded is not caught and ends the script with a traceback.

This project models that logic in Dafny:

- `wrappers.dfy` — `Option` and `Result`.
- `text.dfy` (module `Text`) — the string operations the probe uses, with Python's
  meaning: `str.isspace`, `strip()`, `split()` with no argument and `splitlines()`
  (including `\r\n` as one boundary). `Join` is not used by the probe; it builds
  the texts the round-trip lemmas read back.
- `numbers.dfy` (module `Numbers`) — `int(token)` and `float(text)` for
  plain decimal notation, and the decimal renderings they read back.
- `thresholds.dfy` (module `Thresholds`) — the four plugin statuses, their exit
  codes and words, and the reference classifier (the critical cut-off comes first, both
  cut-offs inclusive).
- `tables.dfy` (module `Tables`) — the two-line `jstat` tables. The header comes
  from line 1 and the values from line 2. A column is looked up by the first
  occurrence of its name (`list.index`), and its field is then read with `float`.
  `jstat` right-aligns its columns, so a `Layout` gives the runs of blanks between
  and around the fields; `AlignedText` is a table printed that way and `TableText`
  the single-space case.
- `metrics.dfy` (module `Metrics`) — the figure each check derives: the
  old-generation ratio OU/OC·100 (0 when OC is 0), the heap totals and their
  share, the loaded-class count and the thread count.
- `checks.dfy` (module `Checks`) — the check functions as methods over a remote
  shell `run: string -> string`: `get_jvm_pid`, the six `check_*` functions and
  the connect/locate/dispatch part of `main`. Each method returns a `Report`
  holding the exit code, the start of the printed status line, and the figure.
  What each check ends with is named by a predicate (`CpuOutcome` …
  `ThreadsOutcome`); `Dispatched` picks the one the mode selects.

The remote shell is a parameter. A failed SSH connection is the `Refused`
alternative of `Session`, carrying the exception text. `sys.exit(n)` becomes the
report's `exit` field.

## Model

| member | source | states |
|---|---|---|
| `Thresholds.FromCode` | check_jvm.py:60-67 | an exit code names a status exactly when it is 0..3, and that status has that code |
| `Thresholds.CodeTextAgree` | check_jvm.py:60-67 | exit code and status word each determine the status (0↔OK, 1↔WARNING, 2↔CRITICAL, 3↔UNKNOWN) and the code is in 0..3 |
| `Thresholds.ClassifyCases` | check_jvm.py:60-67 | `Classify`: CRITICAL iff value ≥ critical; WARNING iff warning ≤ value < critical; OK iff below both; never UNKNOWN |
| `Thresholds.ClassifyMonotone` | check_jvm.py:62-67 | raising the value never lowers the status code |
| `Thresholds.ClassifyBoundaries` | check_jvm.py:62-67 | a value equal to the critical cut-off is CRITICAL; one equal to the warning cut-off is WARNING when warning < critical |
| `Thresholds.ClassifyInvertedPolicy` | check_jvm.py:142-149 | with warning ≥ critical the result is still defined: never WARNING, CRITICAL iff value ≥ critical, otherwise OK |
| `Checks.DefaultBands` | check_jvm.py:280-284 | `DefaultConfig`: with the defaults 80 and 90 and short output, a figure is CRITICAL iff ≥ 90, WARNING iff in [80, 90), OK iff < 80 |
| `Checks.PsCommandWords` | check_jvm.py:47 | `PsCommand`: `ps -p <pid> -o <column> --no-headers` splits into exactly those six words, the pid staying one argument |
| `Checks.JstatCommandWords` | check_jvm.py:118 | `JstatCommand`: `jstat <option> <pid> 1 1` splits into exactly those five words (also check_jvm.py:166 and 211) |
| `Checks.ThreadsCommandWords` | check_jvm.py:244 | `ThreadsCommand`: `ps -p <pid> -L --no-headers` splits into exactly those five words |
| `Checks.LabelHeadline` | check_jvm.py:69-73 | `Label`: no short or long label starts like an UNKNOWN line, so an informational report is never read as UNKNOWN |
| `Checks.ClassifyStatus` | check_jvm.py:95-102 | the if/elif chain yields exactly the reference classifier's exit code and status word |
| `Checks.ThresholdReport` | check_jvm.py:60-76 | a threshold report is `Classified`: exit code = status code, line = status word, " - " and label, figure = value with both cut-offs |
| `Checks.LocateJvm` | check_jvm.py:25-41 | fails iff `pgrep` printed only whitespace, then with UNKNOWN "Aucun processus Java trouvé sur le serveur"; otherwise the pid is the first whitespace-delimited word |
| `Checks.CheckCpu` | check_jvm.py:43-76 | `CpuOutcome`: a non-numeric stripped `ps %cpu` output gives UNKNOWN with the CPU message; otherwise the classified report of the parsed value, label "CPU" / "CPU usage" |
| `Checks.CheckRam` | check_jvm.py:78-111 | `RamOutcome`: the same for `ps %mem`, the RAM message and label "RAM" / "RAM usage" |
| `Checks.CheckGc` | check_jvm.py:113-158 | `GcOutcome`: too few lines gives UNKNOWN "Résultat invalide de jstat"; an unreadable OC or OU gives the parse-error UNKNOWN; otherwise the ratio is classified |
| `Checks.CheckHeap` | check_jvm.py:160-204 | `HeapOutcome`: too few lines and any unreadable column give their two UNKNOWN messages; otherwise exit 0 with the heap totals |
| `Checks.CheckClasses` | check_jvm.py:206-237 | `ClassesOutcome`: too few lines and a non-integer first field give their two UNKNOWN messages; otherwise exit 0 with the count |
| `Checks.CheckThreads` | check_jvm.py:239-258 | `ThreadsOutcome`: never fails; exit 0 with the number of lines of the stripped `ps -L` output |
| `Checks.Probe` | check_jvm.py:292-319 | a refused connection gives "Erreur de connexion SSH: " plus the cause; no Java process gives its UNKNOWN before any check; otherwise the report is that of the check the mode selects, run on the first pid (`Dispatched`); every report keeps the plugin convention (code 0..3, UNKNOWN exactly when no figure and the line starts "UNKNOWN - "), any percentage was classified against the configured cut-offs, and heap/classes/threads never give WARNING or CRITICAL |
| `Checks.GcFromJstat` | check_jvm.py:118-158 | on raw `jstat -gc` output holding an aligned table whose OC and OU first occur over fields reading oc and ou, `check_gc` reports exactly the ratio OU/OC·100 classified against the cut-offs |
| `Checks.HeapFromJstat` | check_jvm.py:166-204 | on raw `jstat -gccapacity` output holding an aligned table whose eight columns first occur over readable fields, `check_heap` exits 0 with capacity the sum of S0C, S1C, E, O and used the sum of S0U, S1U, EU, OU |
| `Checks.ClassesFromJstat` | check_jvm.py:211-237 | on raw `jstat -class` output holding an aligned table whose value row starts with the integer n, `check_classes` exits 0 reporting n |
| `Checks.UnknownWellFormed` | check_jvm.py:38-40 | an UNKNOWN report (exit 3, "UNKNOWN - " message, no figure) keeps the plugin convention |
| `Text.TrimLeft` | check_jvm.py:34 | `lstrip()` drops exactly a whitespace prefix: the result is a suffix, everything dropped is whitespace, and it does not start with whitespace |
| `Text.TrimRight` | check_jvm.py:34 | `rstrip()` drops exactly a whitespace suffix: the result is a prefix, everything dropped is whitespace, and it does not end with whitespace |
| `Text.Strip` | check_jvm.py:34 | `strip()` is empty iff the text is all whitespace, and otherwise starts and ends with non-whitespace |
| `Text.StripAppendSpace` | check_jvm.py:248 | trailing whitespace (such as a final newline) never changes `strip()` |
| `Text.Split` | check_jvm.py:37 | every piece `split()` returns is a non-empty word without whitespace |
| `Text.SplitLines` | check_jvm.py:125 | every piece `splitlines()` returns holds no line boundary, and there are none exactly for empty text |
| `Text.SplitEmpty` | check_jvm.py:37-38 | `split()` returns no words iff the text is all whitespace |
| `Text.SplitStrip` | check_jvm.py:34-37 | `s.strip().split()` equals `s.split()` |
| `Text.SplitJoin` | check_jvm.py:130-131 | splitting words joined by whitespace gives back the words |
| `Text.SplitSpaced` | check_jvm.py:130-131 | `Spaced`: words separated by any mix of non-empty blank runs split back into the words |
| `Text.SplitLinesJoin` | check_jvm.py:125 | splitting lines joined by `\n` (last one non-empty) gives back the lines |
| `Text.CountLinesStrip` | check_jvm.py:248-252 | stripping a listing of non-blank lines keeps one line per listed line |
| `Numbers.ParseIntDigits` | check_jvm.py:226 | `ParseInt`: `int` of a digit string, bare or after `-`, is its decimal value, negated after `-` |
| `Numbers.ParseIntShowInt` | check_jvm.py:226 | `int(str(n)) == n` for every integer |
| `Numbers.ParseRealShowNat` | check_jvm.py:55 | `ParseReal`: `float(str(n)) == n` for every natural number |
| `Numbers.ParseRealPoint` | check_jvm.py:90 | `float("whole.frac")` is whole + frac/10^len(frac) |
| `Numbers.ParseRealShowFixed` | check_jvm.py:135-136 | `float` reads back the fixed-point text of m/10^k (as `jstat` prints its fields) exactly |
| `Tables.IndexOf` | check_jvm.py:133-134 | `list.index` finds nothing iff the name is absent, and otherwise the first position holding it |
| `Tables.ParseAligned` | check_jvm.py:125-131 | `ParseTable`: a header line and a value line of words, spaced by any runs of blanks (right-aligned columns, blanks after the header, blanks before the first value), read back as the same header and values |
| `Tables.StripAligned` | check_jvm.py:170 | the raw `jstat` output, with blanks before the table and a final newline after it, strips to exactly the aligned two-line table (likewise check_jvm.py:122 and 215) |
| `Tables.ParseTableOneLine` | check_jvm.py:125-128 | text with no line boundary is rejected as too few lines |
| `Tables.LookupMeaning` | check_jvm.py:133-136 | `Lookup` succeeds iff the name's first column has a numeric field below it in the value row, and then gives that field's number |
| `Tables.LookupAbsent` | check_jvm.py:133-134 | a name absent from the header has no value |
| `Tables.LookupPastRow` | check_jvm.py:135-136 | a first occurrence at or past the end of the value row has no value |
| `Tables.LookupFirstOccurrence` | check_jvm.py:133-135 | a later column of the same name is never consulted |
| `Metrics.PercentageMeaning` | check_jvm.py:137 | `Percentage`: the share is 0 when the whole is 0, and otherwise the p with p·whole = part·100 |
| `Metrics.PercentageBounds` | check_jvm.py:190 | a part within its whole gives a share within 0..100 |
| `Metrics.ReadingsTooFewLines` | check_jvm.py:125-128 | fewer than two lines make the GC, heap and classes readings all fail with the too-few-lines error |
| `Metrics.FieldLookup` | check_jvm.py:133-136 | a field at the first occurrence of its name that reads as x is what the lookup gives |
| `Metrics.GcRatioFromText` | check_jvm.py:125-137 | `GcRatio`: for any aligned table in which OC and OU first occur over fields reading oc and ou, the reading is OU/OC·100, and exactly 0 when oc is 0 |
| `Metrics.GcRatioExample` | check_jvm.py:133-137 | OC=1000 and OU=250 give 25 |
| `Metrics.GcMissingColumn` | check_jvm.py:132-140 | a header without OC or without OU gives the parse error, never a default number |
| `Metrics.TotalOf` | check_jvm.py:180-189 | `Total`: columns whose fields read as x₁..xₙ total x₁+…+xₙ |
| `Metrics.TotalFails` | check_jvm.py:179-195 | one unreadable column among those totalled gives no total |
| `Metrics.Sum4` | check_jvm.py:188-189 | a sum of four figures is their four-term sum |
| `Metrics.HeapFromText` | check_jvm.py:177-189 | `HeapReading`: for any aligned table in which the eight columns first occur over readable fields, capacity is the sum of the S0C, S1C, E, O fields and used the sum of the S0U, S1U, EU, OU fields |
| `Metrics.HeapExample` | check_jvm.py:177-190 | capacities 10/10/100/880 and used sizes 2/3/50/445 give a heap of 1000 with 500 used, 50 % in use |
| `Metrics.HeapReadingFails` | check_jvm.py:179-195 | any one of the eight columns unreadable gives the parse error |
| `Metrics.HeapPercentMeaning` | check_jvm.py:190 | `Heap.Percent`: 0 for an empty heap, otherwise used·100/capacity, and within 0..100 when used ≤ capacity |
| `Metrics.ClassCountRow` | check_jvm.py:222-226 | `ClassCount`: for any header and any alignment, the count is `int` of the first field of the value row |
| `Metrics.ClassCountIgnoresHeader` | check_jvm.py:222-226 | neither the header line nor the spacing of either line affects the count |
| `Metrics.ClassCountBadField` | check_jvm.py:224-231 | an empty value row or a non-integer first field gives the parse error |
| `Metrics.ThreadCountListing` | check_jvm.py:248-252 | `ThreadCount`: a listing of non-blank lines, followed by any trailing whitespace such as the final newline, counts one thread per line |
| `Metrics.ThreadCountBlank` | check_jvm.py:252 | a blank output counts 0 threads |

## Left out

- Argument parsing (check_jvm.py:260-286): the configuration is the `Config` datatype, and `DefaultConfig` is the one the defaults give (80, 90, short). The user, host and key are not modelled. An unknown mode cannot reach the dispatch, because argparse restricts `--mode` to the six choices.
- The SSH session (paramiko, host-key policy, key loading), `exec_command` and `stdout.read().decode()`: network I/O. They become the `run` function and the `Refused(cause)` session, where `cause` stands for `str(e)` of the exception.
- Exceptions raised by `exec_command` or by `decode()` (check_jvm.py:33-34, 50-51, 85-86, 121-122, 169-170, 214-215, 247-248): these calls sit outside every `try`, so an `SSHException` or a `UnicodeDecodeError` ends the script with a traceback and exit status 1. The total `run` function always returns text, so the model cannot express them, and `Probe`'s exit code 0..3 holds only for runs that raise nothing.
- Debug tracing with `print`: it never changes a result.
- Printing and `sys.exit`: they become the returned `Report`. Its headline is the status word and the label only. The rendered numbers (`:.2f`, `:.0f`, `:.1f`) and the long-mode threshold and performance-data text are not modelled. The figures themselves are carried in `Reading`.
- IEEE-754 floating point: figures are exact `real` numbers.
- `Numbers.ParseReal`: models `float()` only for ASCII decimal text `[sign](digits | digits. | .digits | digits.digits)`. It rejects exponents, `inf`/`nan`, underscores, non-ASCII decimal digits and surrounding whitespace, which Python accepts. Every caller passes stripped text or a single word, so the whitespace case cannot arise.
- `Numbers.ParseInt`: models `int()` for `[sign]digits` only. It rejects underscores and non-ASCII digits, which Python accepts.
- `Text.IsSpace` and `Text.IsLineBreak` follow Python's character classes for `isspace()` and `splitlines()`. Unicode normalisation plays no part.
- The heap usage percent (check_jvm.py:190) is only printed by the source. It is modelled as `Heap.Percent` with its properties in `HeapPercentMeaning`, not as a field of the report.

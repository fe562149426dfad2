# Verified models of the repository's core algorithms

This project models the parts of the six tools that have invariants of their own, and proves
them in Dafny 4.11. Run `dafny verify dfyconfig.toml` to check everything.

| files | what they model |
|---|---|
| CStrings, Options | white space, digits and buffer copies of C; optional values |
| ResumeProtocol, ResumeTheorems, ResumeVerdicts, ResumeScript | the "selected tests" runner that autotest-assist-tui emits: a script that survives reboots through an index file, a failures file and two waiting files. A state machine with one step per command, theorems about all runs, and the script itself as a class whose every command is a step of the machine |
| ScriptText, ScriptDirectives, ScriptValidator, ScriptExpander, ScriptAgreement, ScriptContent, ScriptLimits | the script compiler: fixed-size C buffers, the directive parsers, the validator, the expander and the check counter as loops over text, and their agreement |
| ScriptVerdicts, ScriptMeaning, ScriptWords, ScriptEvidence | which scripts are accepted and what they are expanded to, told by the words of their lines, and the round trips of its directives, matches, delimiters, escapes and variable lists |
| ScriptPhases, ScriptSplit | the splitter into the phases before and after a reboot |
| EditorText, EditorEdits, EditorForms, EditorUndo, EditorKeys, Editor, EditorScroll | the script editor: line arrays and the joined text they stand for, every edit as one replacement of a range, the 32 slot undo stack, the keys as a function on the whole editor, the class that carries the edits out in place, soft-wrap scrolling |
| EditorChars, EditorTyping, EditorLines, EditorColumns | characters of UTF-8 under the cursor and in a selection; what each key does to the text; lines cut, copied, pasted and completed; columns and rows of Unicode text |
| FdMachine, FdChains, FdTracker, FdAnalysis | the file descriptor lineage of strace-src: a machine of maps, its creator chains, and the arrays that represent it |
| FdHistory | what a descriptor is after any trace, told by the calls that bind it, close it or set its flag |
| TraceFormat, TraceRoundTrip, TraceFiles, TraceKept, TraceFile | the binary trace file: writer, reader, round trip, and which byte sequences are files |
| TraceParser, TraceLines, TraceEvents, TracePump | the line parser with its prefixes and stack frames, chunks of tracer output in the pending buffer, and the events that the lines build |
| ProcessForest, ProcessGraph | the process graph drawing over parent links that may be cyclic |
| DuTotals, DuCache | ltree's cached directory totals: the recursive function with its cache, the plain sum, and the chained buckets updated in place |
| DuPaths | the same totals as sums over the paths of a directory graph |
| Brackets, BracketMatch | gd's bracket matching over lines and over flat text |
| MiText, MiNesting, MiVars, MiRecords, MiLists | gd's reading of machine-interface text: quoting, nesting, what is read of any printed variable, variable lists |
| BrowseHistory | gd's 64 place browse history |

Conventions. A loop or an object that the program updates in place is a method or a class here,
proved against functions on values; the laws are lemmas about those functions. Test outcomes,
result files, directory contents, read results and the moment of a reboot are arbitrary inputs.
C strings are sequences of characters without a zero; sizes of buffers are as in the source.

Where the code falls short of what one would expect, the model does what the code does, and
the lemmas named say exactly when it is right:

- The runner is safe against reboots only at certain commands; elsewhere a test is repeated,
  skipped, judged twice or not judged (`ResumeProtocol.RebootKeepsInvIff`,
  `ResumeTheorems.NextStartAfterReboot`, `JudgedAfterRebootIff`). At some of the safe ones a
  pass is counted as a failure, or a failure as a pass, because the boot goes by a result file
  that is gone already or says something else (`ResumeTheorems.VerdictsAreTrueIff`).
- Validator and expander read a heredoc's closing line into buffers of 4096 and 256 bytes, so
  they part at delimiters of 255 characters that do not begin with a blank
  (`ScriptLimits.DelimiterReadAlikeIff`, `ScriptAgreement.ClosesAlikeIff`).
- A phase of a script loses lines when they have more than 4094 characters with their newlines
  (`ScriptPhases.PhaseKeepsAllIff`). A heredoc that ends at a reboot line is not closed in the
  post phase, because that line is left out (`ScriptSplit.BothPhasesAcceptedIff`).
- The size cache of ltree is keyed by directory only, though with --one-file-system a total
  also depends on the root's device (`DuTotals.RootsAgreeIff`).
- A dup from a descriptor that the trace never saw opened leaves the old binding of the
  result, and a dup2 of a descriptor onto itself drops its close-on-exec flag, which the
  kernel keeps (`FdMachine.DupFollowsKernelIff`).
- A process whose parent is unknown inherits the table of process 0 if there is one
  (`FdMachine.UnknownParentStartsEmptyIff`); one that acts before its fork line keeps the
  table it has (`FdMachine.ForkCopiesIff`).
- A field of a variable record that ends in the key of a later field misleads the search for
  that key, and a record longer than the item buffer loses what is behind the cut
  (`MiRecords.RecordReadsBackIff`).
- Several keys move the cursor before they take their snapshot (`p` of characters, `o`,
  deleting a range of lines), so that undo restores the lines but not the cursor
  (`EditorKeys.KeysThenUndos`); `p` moves it even when the paste is then refused for lack of
  lines, and a template takes one undo for each of its characters.

## Model

| member | source | states |
|---|---|---|
| ResumeProtocol.StepKeepsInv | autotest-assist-tui/autotest_builder.c:6008-6106 | Every command of the emitted runner, every test outcome and every reboot at a safe point keeps the full invariant between index file, failures file, waiting files, shell variables, started tests and verdicts |
| ResumeProtocol.RebootKeepsInvIff | autotest-assist-tui/autotest_builder.c:6049-6099 | A reboot in the loop keeps the invariant between files, started tests and the number of verdicts if and only if it strikes at a safe point; whether the verdicts are right is stated below |
| ResumeTheorems.ExactlyOnceInOrder | autotest-assist-tui/autotest_builder.c:6049-6106 | At every moment of every run with any number of reboots at safe points, the started tests are the first ones of the list, each once, in order; after exit all of them were started, or stop-on-NG ended the list after a failure |
| ResumeTheorems.FailuresAreCounted | autotest-assist-tui/autotest_builder.c:6012-6042 | Each test is judged once, in order; the failures file always equals the number of failed verdicts; the waiting files exist exactly while one reboot test is unresolved; exit code 0 means no failure |
| ResumeTheorems.NoStartAfterFailure | autotest-assist-tui/autotest_builder.c:6012-6019 | With stop-on-NG no test starts once a verdict is a failure or the failures file is positive |
| ResumeTheorems.EveryRunEnds | autotest-assist-tui/autotest_builder.c:6053-6106 | A run whose reboots strike between the start of a reboot test and the pending exit has at most 16 steps per test and 16 more, and one that cannot go on has exited |
| ResumeTheorems.NextStartAfterReboot | autotest-assist-tui/autotest_builder.c:6020-6055 | After a reboot anywhere in the loop the next test started is the one the index file names, and it is the right one if and only if the place was not lost |
| ResumeTheorems.ShellTestStartsTwice | autotest-assist-tui/autotest_builder.c:6089-6098 | A concrete run: a reboot during a shell test starts that test again, because its index is written only after it |
| ResumeTheorems.VerdictsAreTrueIff | autotest-assist-tui/autotest_builder.c:6020-6042 | At every moment of every run with reboots at safe points: each verdict is what the test itself came to if and only if every boot that judged a test had come up to a result file and state directory that told it |
| ResumeVerdicts.VerdictsAreTheAnswers | autotest-assist-tui/autotest_builder.c:6020-6094 | In every run, wherever reboots strike: a step adds at most one verdict, about the test that answered last, and it is a failure exactly if the exit code was not 0, the result file of a reboot test has an NG, or after a boot that test is still at work or its file is missing or not known |
| ResumeProtocol.WhereFilesMislead | autotest-assist-tui/autotest_builder.c:6024-6085 | The only commands where a reboot can leave files that do not tell, each with what the files then hold: once a boot has looked, and while a test that has returned is not judged |
| ResumeTheorems.PassForgottenAtBoot | autotest-assist-tui/autotest_builder.c:6031-6040 | A run: the boot finds a pass and removes its file, a reboot comes before the count is written, and the next boot counts a failure; with stop-on-NG the list ends there |
| ResumeTheorems.PassWithoutFileForgotten | autotest-assist-tui/autotest_builder.c:6079-6087 | A run: a test that passes without a result file, a reboot before its waiting files are removed, and the next boot counts a failure |
| ResumeTheorems.FailureReadAsPass | autotest-assist-tui/autotest_builder.c:6069-6077 | A run: a test fails though its result file does not say so, a reboot before the file is removed, and the next boot counts a pass |
| ResumeTheorems.JudgedAfterRebootIff | autotest-assist-tui/autotest_builder.c:6020-6042 | After a reboot at any command of the loop, once the new boot has judged the test it waited for: one verdict for each started test, in order, if and only if the reboot struck where files, starts and verdicts agree; and these are the tests' own if and only if, besides, the files of an unjudged test told what it had come to |
| ResumeTheorems.CleanupStartsNothing | autotest-assist-tui/autotest_builder.c:6100-6106 | From cleanup on, through any number of reboots, nothing is started or judged again, whether the list ended or a failure stopped it |
| ResumeTheorems.EarlyFailureJudgedTwice | autotest-assist-tui/autotest_builder.c:6069-6077 | A run from the first boot: a reboot between the count of an early failure and the removal of the waiting files judges that test twice |
| ResumeTheorems.LateVerdictForgotten | autotest-assist-tui/autotest_builder.c:6069-6077 | A run: a reboot after the removal of the waiting files and before the count loses the verdict; the files then name the next test |
| ResumeTheorems.BootVerdictDoubled | autotest-assist-tui/autotest_builder.c:6020-6042 | A run: a second reboot before the boot has removed the waiting files doubles the verdict |
| ResumeScript.Script.CheckWaitingReboot | autotest-assist-tui/autotest_builder.c:6020-6042 | The shell function over files and variables takes exactly the protocol steps from boot to the stop test |
| ResumeScript.Script.RunRebootTest | autotest-assist-tui/autotest_builder.c:6063-6088 | The reboot branch of the loop, as protocol steps: it is down, or it continues behind the test |
| ResumeScript.Script.RunShellTest | autotest-assist-tui/autotest_builder.c:6089-6094 | The shell branch of the loop, as protocol steps |
| ResumeScript.Script.RunLoop | autotest-assist-tui/autotest_builder.c:6049-6106 | One boot of the script extends a run of the protocol and ends in exit or power loss |
| ResumeScript.Script.RunBoot | autotest-assist-tui/autotest_builder.c:6049-6106 | After any boot the started tests are the first of the list, each once; exit code 0 means every test was started and passed |
| ResumeScript.Script.constructor | autotest-assist-tui/autotest_builder.c:6121-6133 | The state the generated starter leaves: index and failures 0, nothing waiting, the unit enabled |
| FdMachine.OtherTablesUntouched | strace-src/fd_tracker.c:300-445 | An event changes only the table of its own process |
| FdMachine.SnapshotKept | strace-src/fd_tracker.c:132-161 | A table stays as it is until its own process acts |
| FdMachine.ForkCopiesIff | strace-src/fd_tracker.c:314-323 | Over every trace, with the parent links that the trace itself gives: from a fork until the child acts, the child's table is the parent's as of the fork if and only if the child is new there or had that table already, whatever the parent does later |
| FdMachine.ForkNamesTheParent | strace-src/fd_tracker.c:233-263 | The links collected from the whole trace give a process first named by a fork the process that forked it |
| FdMachine.EarlyChildStartsWithParents | strace-src/fd_tracker.c:132-161 | A child whose first line stands before its fork line starts with the table that the process which forks it later has at that line |
| FdMachine.EarlyChildMissesOpen | strace-src/fd_tracker.c:314-323 | A trace whose child acts before its fork line: it lacks what the parent opened in between |
| FdMachine.UnknownParentStartsEmptyIff | strace-src/fd_tracker.c:132-161 | A new process that no fork made starts without descriptors if and only if process 0 has none |
| FdMachine.UnprefixedOpenLeaks | strace-src/fd_tracker.c:132-161 | A trace with an open on a line without a prefix: a later process without a fork shows it |
| FdMachine.DupFollowsKernelIff | strace-src/fd_tracker.c:384-404 | Descriptors, objects and flags are as in the kernel, for which a dup2 onto itself does nothing, if and only if the source is known and a descriptor duplicated onto itself keeps its flag, or the result has no binding |
| FdMachine.DupOntoItselfSurvivesExec | strace-src/fd_tracker.c:384-404 | A trace: opened with close-on-exec, duplicated onto itself, exec; the tracker keeps what the kernel has closed |
| FdChains.RunLinked | strace-src/fd_tracker.c:300-445 | After every trace each binding was made by an event about its object, jumps point to earlier such events, and each object's origin made it |
| FdChains.ChainLeadsToOrigin | strace-src/main.c:1685-1698 | In a linked machine the chain of jumps from an event strictly descends, keeps the primary object and ends at its origin |
| FdChains.CreatorChainsEndAtOrigin | strace-src/fd_tracker.c:333-445 | The same for every trace and every event that points back |
| FdHistory.BoundIff | strace-src/fd_tracker.c:300-445 | Over every trace: a known process has a descriptor if and only if it was there at first, inherited or bound, or was bound later, and no close of it and no exec that finds its flag set came after |
| FdHistory.FlagIsLastSet | strace-src/fd_tracker.c:333-445 | The close-on-exec flag is the argument of the last call that bound the descriptor or set its flag |
| FdHistory.FlagIsKept | strace-src/fd_tracker.c:333-445 | Without such a call the descriptor keeps the flag it had |
| FdHistory.CreatorIsLastBinding | strace-src/fd_tracker.c:333-445 | The creator is the last event that bound the descriptor; a close followed by another open makes another one |
| FdHistory.CreatorIsKept | strace-src/fd_tracker.c:333-445 | Without a binding call the descriptor keeps its creator |
| FdHistory.UseAfterClose | strace-src/fd_tracker.c:405-445 | In any trace, a use of a descriptor after its close, with nothing between that binds it, has object -1 and jump -1 |
| FdHistory.UsePointsToLastBinding | strace-src/fd_tracker.c:405-445 | In any trace, a use, close or flag setting of a bound descriptor jumps to the last event that bound it |
| FdHistory.LookSays | strace-src/fd_tracker.c:405-445 | What an event records that looks at one descriptor: its object, its creator and whether it is open afterwards |
| FdHistory.BindingSays | strace-src/fd_tracker.c:333-404 | What an event records that binds one: the object that the table then has for it, and for a dup the jump to the creator of its source |
| FdHistory.MentionsSay | strace-src/fd_tracker.c:333-445 | The descriptors that an event refers to, in the order of the call, each with the object it has before or after it |
| FdHistory.ObjectsSay | strace-src/fd_tracker.c:333-382 | Exactly the calls that open make an object, whose origin is the event |
| FdTracker.FdTable.Find | strace-src/fd_tracker.c:83-87 | The position of a descriptor in the binding array, or that there is none |
| FdTracker.FdTable.Remove | strace-src/fd_tracker.c:89-98 | The array represents the map without that descriptor, with distinct descriptors still |
| FdTracker.FdTable.Set | strace-src/fd_tracker.c:100-118 | The array represents the map with that binding added or replaced |
| FdTracker.FdTable.CloseOnExec | strace-src/fd_tracker.c:324-332 | The array keeps exactly the map's bindings without close-on-exec |
| FdAnalysis.Analysis.GetTable | strace-src/fd_tracker.c:120-161 | The table of a process; a new process gets a copy of its parent's, the others are untouched |
| FdAnalysis.Analysis.Apply | strace-src/fd_tracker.c:324-445 | The branch for a call changes the table and fills the event's record as the map machine does; what that is for each call is in FdHistory |
| FdAnalysis.Analysis.OnEvent | strace-src/fd_tracker.c:300-445 | One event keeps the arrays equal to the maps and every event record equal to the machine's; what these are is in FdHistory |
| FdAnalysis.CollectParents | strace-src/fd_tracker.c:233-263 | The spawned processes and their parents, in trace order |
| FdAnalysis.Build | strace-src/fd_tracker.c:277-449 | After the whole trace: the binding arrays have distinct descriptors and equal the maps of the machine, and so do objects and event records; which bindings those are is FdHistory.BoundIff |
| FdAnalysis.FollowToOrigin | strace-src/main.c:1685-1698 | Pressing o repeatedly ends, after as many presses as the chain has links, at the origin of the object |
| FdAnalysis.HistoryRows | strace-src/main.c:1260-1273 | The history rows are the creator chain without its origin, cut only by the room in the popup; the walk ends |
| ScriptValidator.ValidateCustomSyntax | autotest-assist-tui/autotest_builder.c:1844-1959 | The pointer loop returns the error of the line-by-line state machine, or none |
| ScriptExpander.CollectCheckHeredoc | autotest-assist-tui/autotest_builder.c:2158-2183 | The text below a heredoc opener and the position behind its closing line |
| ScriptExpander.WriteCommandExpanded | autotest-assist-tui/autotest_builder.c:1482-1597 | The emitted pieces are those of the line-level expansion; for accepted scripts these are given by ScriptMeaning.AcceptedScriptsMean |
| ScriptExpander.NextCheckDirective | autotest-assist-tui/autotest_builder.c:2219-2240 | The next check with its rule and expected text, its heredoc skipped; the checks behind it are the rest of the list |
| ScriptExpander.CommandCheckCount | autotest-assist-tui/autotest_builder.c:2242-2248 | The number of checks that the search finds one after the other |
| ScriptAgreement.AcceptedScriptsExpandCleanly | autotest-assist-tui/autotest_builder.c:1482-1597 | Every accepted script whose heredoc lines close alike in both passes expands without any [NG] fragment, closes every block, and captures exactly the checks that the counter finds, in order, with the same rule and expected text |
| ScriptAgreement.ClosesAlikeIff | autotest-assist-tui/autotest_builder.c:2158-2183 | The heredoc lines of an accepted script close alike if and only if the expander leaves every heredoc at the line where the validator does |
| ScriptAgreement.ShortDelimitersCloseAlike | autotest-assist-tui/autotest_builder.c:1379-1383 | They do whenever all delimiters have fewer than 255 characters |
| ScriptAgreement.LineIsCoherent | autotest-assist-tui/autotest_builder.c:1300-1390 | On one line the tests of validator and expander agree: what the one accepts the other does not complain about, and reboot lines are no directives of either |
| ScriptAgreement.RebootLineHasNoArgumentError | autotest-assist-tui/autotest_builder.c:1276-1323 | A reboot line outside a block is accepted by the chain of directive tests |
| ScriptVerdicts.AcceptedIff | autotest-assist-tui/autotest_builder.c:1844-1959 | A script is accepted exactly if no line of it has a problem, told by its words, and the error is otherwise that of the first such line: what is wrong with a line of a block, a check, a directive with or without argument, an unknown one, a missing end, a heredoc not closed |
| ScriptVerdicts.InstructionVerdict | autotest-assist-tui/autotest_builder.c:1781-1842 | A line of a block is accepted exactly if it is one of the keys, a text whose quotes match, a shell text that is there, a decimal number of seconds or one letter for ctrl; each other line has its own error |
| ScriptVerdicts.CheckVerdict | autotest-assist-tui/autotest_builder.c:1736-1768 | A check is accepted exactly if it has a variable name, one of the eight names of matches, and a delimiter behind << |
| ScriptVerdicts.OutsideVerdict | autotest-assist-tui/autotest_builder.c:1880-1950 | The error of a line outside blocks, or where the script stands below it |
| ScriptVerdicts.ChecksAreParsed | autotest-assist-tui/autotest_builder.c:2117-2156 | A check with its text on the line is taken apart into name, match and text |
| ScriptVerdicts.HeredocsAreParsed | autotest-assist-tui/autotest_builder.c:2117-2156 | With << it has a delimiter and no text, or without one what the parser leaves of the field |
| ScriptMeaning.AcceptedScriptsMean | autotest-assist-tui/autotest_builder.c:1482-1597 | The expansion of every accepted script whose heredocs close alike is, line by line: a @tui line opens a block, the @end behind it closes it with the command of that very line, between them stand the instructions of the lines between, each with its own text; a helper line is its name and its argument; a check has its name, match and expected text, from the line or from the lines below it; all else passes through |
| ScriptMeaning.LineByFirstWord | autotest-assist-tui/autotest_builder.c:1305-1317 | Which directive a line is, and its argument, are told by its first word and what is behind that |
| ScriptMeaning.InstructionIsMeant | autotest-assist-tui/autotest_builder.c:1385-1459 | An accepted line of a block is sent as its first word says, with the rest of the line as it stands, decoded for send and text |
| ScriptMeaning.BodyIsJoined | autotest-assist-tui/autotest_builder.c:2158-2183 | The text of a heredoc is its lines with newlines between them, cut at 4095 bytes |
| ScriptWords.DirectiveReadsBack | autotest-assist-tui/autotest_builder.c:1305-1317 | A directive with any blanks around it, behind its name and at the end gives its argument, exactly |
| ScriptWords.SplitsAt | autotest-assist-tui/autotest_builder.c:1276-1323 | The script is split at a line, with any blanks around it, exactly if its words name a command that reboots and it has fewer than 256 characters, or it is a @reboot-if with a condition |
| ScriptWords.MatchReadsBack | autotest-assist-tui/autotest_builder.c:796-802 | The name of every match is read back as that match |
| ScriptWords.OnlyTheseAreMatches | autotest-assist-tui/autotest_builder.c:804-810 | No other text is accepted as one |
| ScriptWords.FieldsReadBack | autotest-assist-tui/autotest_builder.c:2117-2156 | The name, the match and the expected text of a check are read back, whatever blanks are between them |
| ScriptWords.EscapedReadsBack | autotest-assist-tui/autotest_builder.c:713-727 | An expected text written with escapes is read back, cut only by the field |
| ScriptWords.BareDelimiter | autotest-assist-tui/autotest_builder.c:2117-2156 | The delimiter behind << or <<- is the word that follows |
| ScriptWords.QuotedDelimiter | autotest-assist-tui/autotest_builder.c:2117-2156 | A quoted delimiter is the text between the quotes, blanks included |
| ScriptWords.OpenDelimiter | autotest-assist-tui/autotest_builder.c:2117-2156 | Nothing behind << is no delimiter; an open quote takes all that follows |
| ScriptWords.BackslashedIsDecoded | autotest-assist-tui/autotest_builder.c:1347-1363 | Any text with its characters protected by backslashes is decoded to itself, inside quotes and outside |
| ScriptWords.PlainIsDecoded | autotest-assist-tui/autotest_builder.c:1347-1363 | Text without backslashes and quotes is sent as it is |
| ScriptWords.QuotedIsDecoded | autotest-assist-tui/autotest_builder.c:1347-1363 | Quotes are dropped and protect the other kind; what follows is read as if nothing had been before |
| ScriptWords.WholeIsDecoded | autotest-assist-tui/autotest_builder.c:1347-1363 | A whole protected text is decoded to itself, with its quotes matching |
| ScriptWords.TimesAreNumbers | autotest-assist-tui/autotest_builder.c:1815-1833 | Every decimal number is a time to sleep |
| ScriptWords.OnlyNumbersAreTimes | autotest-assist-tui/autotest_builder.c:1815-1833 | Every accepted time is digits with at most one point among them |
| ScriptEvidence.QuotedToken | autotest-assist-tui/autotest_builder.c:1619-1660 | Quotes in a list of variables are taken off in pairs with the white space between them kept; a missing one is noticed |
| ScriptEvidence.EvidenceReadsBack | autotest-assist-tui/autotest_builder.c:1614-1690 | Any list of up to 32 variables, with or without labels of any characters, is read back; a longer one is refused |
| ScriptContent.PlainLinesPassThrough | autotest-assist-tui/autotest_builder.c:1482-1597 | What an accepted script whose heredocs close alike emits as it stands are, in order, exactly the lines outside blocks and heredocs that carry no directive |
| ScriptContent.UnknownIsRefused | autotest-assist-tui/autotest_builder.c:1886-1935 | A line with a directive mark that is none of the known directives is refused |
| ScriptContent.FirstErrorWins | autotest-assist-tui/autotest_builder.c:1844-1959 | The verdict is the first refused line with its number, whatever stands below it |
| ScriptContent.AcceptedIffEndsOutside | autotest-assist-tui/autotest_builder.c:1950-1958 | A script is accepted if and only if no line is refused and it ends outside blocks and heredocs |
| ScriptLimits.DelimiterReadAlikeIff | autotest-assist-tui/autotest_builder.c:1379-1383 | Of any delimiter that fits its buffer: the 256 byte and the 4096 byte buffers recognise it on the same lines if and only if it has fewer than 255 characters or begins with a blank |
| ScriptLimits.BlankAtAnEndIsNeverClosed | autotest-assist-tui/autotest_builder.c:1379-1383 | A delimiter that begins or ends with a blank is closed by no line |
| ScriptLimits.LongDelimiterDisagrees | autotest-assist-tui/autotest_builder.c:2158-2183 | With any delimiter of 255 characters without a blank at either end, quoted or not, there is an accepted script whose expansion contains an [NG] fragment |
| ScriptPhases.WriteCommandPhase | autotest-assist-tui/autotest_builder.c:2002-2024 | The emitted pieces are those of the phase buffer filled with the wanted side's lines |
| ScriptPhases.PhaseKeepsAllIff | autotest-assist-tui/autotest_builder.c:2011-2019 | The phase buffer holds all lines if and only if they have at most 4094 characters with their newlines; otherwise lines are missing |
| ScriptPhases.PhaseReadsBackIff | autotest-assist-tui/autotest_builder.c:2005-2023 | The text of a phase is read again as the lines the buffer took, which are all lines of the phase if and only if they fit |
| ScriptPhases.PhasesAreTheScript | autotest-assist-tui/autotest_builder.c:2008-2021 | The two phases one after the other are the script without its reboot lines, in order |
| ScriptSplit.PreIsFineIff | autotest-assist-tui/autotest_builder.c:2002-2024 | From any state of an accepted script the part before the first reboot line is accepted if and only if that line is not in a heredoc body |
| ScriptSplit.BothPhasesAcceptedIff | autotest-assist-tui/autotest_builder.c:2002-2024 | For every accepted script both phases are accepted if and only if the first reboot line is not in a heredoc body and no heredoc ends at a reboot line |
| ScriptSplit.WrittenPhasesAcceptedIff | autotest-assist-tui/autotest_builder.c:2002-2024 | The same of the two texts that are written and expanded, when the phases fit the buffer |
| ScriptSplit.PhaseChecksAddUp | autotest-assist-tui/autotest_builder.c:2242-2248 | Under that condition, if the script's heredocs close alike, those of the phases do, and the check counts of the phases add up to that of the script |
| ScriptSplit.WrittenPhasesAreClean | autotest-assist-tui/autotest_builder.c:1482-1597 | The written phases of such a script expand without any [NG] fragment and capture together as many checks as the script has |
| ScriptSplit.RebootDelimiterLosesPost | autotest-assist-tui/autotest_builder.c:2011-2013 | With any reboot line as heredoc delimiter, quoted or not, an accepted script has a post phase that is not accepted |
| EditorEdits.InsertIsTextual | autotest-assist-tui/autotest_builder.c:3753-3783 | On the newline-joined text typing inserts the bytes at the cursor's offset and moves the cursor behind them |
| EditorEdits.NewlineIsTextual | autotest-assist-tui/autotest_builder.c:4175-4205 | A new line inserts a newline and the line's indentation |
| EditorEdits.BackspaceIsTextual | autotest-assist-tui/autotest_builder.c:4207-4234 | Backspace removes exactly the bytes of the character before the cursor, or the newline |
| EditorEdits.EraseNextIsTextual | autotest-assist-tui/autotest_builder.c:5110-5119 | x removes exactly the bytes of the character at the cursor, which stays where it is |
| EditorEdits.DeleteVisualIsTextual | autotest-assist-tui/autotest_builder.c:4367-4413 | Deleting the selection removes exactly the range that copying it saves and leaves the cursor at its start; which characters those are is EditorChars.SelectionIsWhole |
| EditorEdits.PasteIsTextual | autotest-assist-tui/autotest_builder.c:4415-4487 | Pasting inserts the text exactly at the cursor's offset and leaves the cursor after it |
| EditorEdits.DeletePasteIsIdentity | autotest-assist-tui/autotest_builder.c:4367-4487 | Deleting the selection and pasting it at the cursor restores every line, and always fits the 160 lines |
| EditorEdits.SelectionIsSymmetric | autotest-assist-tui/autotest_builder.c:619-648 | The selected range does not depend on which end the cursor is at |
| EditorChars.SelectionIsWhole | autotest-assist-tui/autotest_builder.c:619-648 | A selection consists of the characters under both of its ends, each whole, and all bytes between them |
| EditorChars.OneCharacterSelected | autotest-assist-tui/autotest_builder.c:619-648 | With anchor and cursor on one character it is just that character |
| EditorChars.KeysTakeOneCharacter | autotest-assist-tui/autotest_builder.c:4207-4234 | x on a character, backspace behind it and a selection of it take the same bytes: the encoding of that character |
| EditorChars.NextIsOneCharacter | autotest-assist-tui/autotest_builder.c:522-550 | A step to the right goes over exactly one encoded character, as section 3 of RFC 3629 has it, whatever stands around it |
| EditorChars.PrevIsOneCharacter | autotest-assist-tui/autotest_builder.c:538-543 | A step to the left goes back over exactly one |
| EditorChars.IndentIsAllBlanks | autotest-assist-tui/autotest_builder.c:4180-4181 | The indentation of a line is all of its leading blanks and tabs |
| EditorTyping.TypedBytes | autotest-assist-tui/autotest_builder.c:3753-3783 | Typing puts the bytes at the cursor of the joined text, and the cursor behind them; nothing typed changes nothing |
| EditorTyping.TypedNewline | autotest-assist-tui/autotest_builder.c:4175-4205 | Return puts a newline and the indentation; with 160 lines nothing changes |
| EditorTyping.OpenedLine | autotest-assist-tui/autotest_builder.c:5121-5123 | o puts them at the end of the line |
| EditorTyping.BackspacedCharacter | autotest-assist-tui/autotest_builder.c:4207-4234 | Backspace behind an encoded character takes exactly that one from the text |
| EditorTyping.BackspacedLine | autotest-assist-tui/autotest_builder.c:4207-4234 | At the start of a line it takes the newline before it, and at the start of the text nothing |
| EditorTyping.Erased | autotest-assist-tui/autotest_builder.c:5110-5119 | x takes the encoded character under the cursor, and nothing at the end of a line |
| EditorTyping.TypedTemplate | autotest-assist-tui/autotest_builder.c:3818-3822 | A template is put as it stands |
| EditorTyping.TakenSelection | autotest-assist-tui/autotest_builder.c:4325-4413 | A selection that is copied or deleted is in the clipboard; one that is deleted is gone from the text, and only that |
| EditorLines.DeletedLines | autotest-assist-tui/autotest_builder.c:4236-4266 | Deleting n lines takes out the n rows from the cursor on, as far as there are that many; the cursor stays unless its row or column is gone |
| EditorLines.DeletingKeys | autotest-assist-tui/autotest_builder.c:4505-4528 | A range or a selection of lines, from whichever end, takes out exactly the rows between its ends |
| EditorLines.CutLinesComeBack | autotest-assist-tui/autotest_builder.c:4973-4984 | Lines deleted as a selection come back where they were with P, or with p when they were the last ones |
| EditorLines.CutSelectionComesBack | autotest-assist-tui/autotest_builder.c:4325-4487 | A selection of characters that was cut comes back with P, also at the limit of lines |
| EditorLines.CopiedLinesCome | autotest-assist-tui/autotest_builder.c:4268-4300 | Copied lines change nothing, replace the characters copied before, and are pasted as they stand above or below the cursor, as many as there is room for among 160 |
| EditorLines.PastedLines | autotest-assist-tui/autotest_builder.c:4551-4591 | The lines of the clipboard come above or below the cursor, as many as there is room for, and the cursor goes to the first of them |
| EditorLines.PastedCharacters | autotest-assist-tui/autotest_builder.c:4551-4565 | P pastes characters in front of the encoded character under the cursor and p behind it |
| EditorLines.TuiBlock | autotest-assist-tui/autotest_builder.c:4012-4053 | The typed range becomes @tui with the cursor behind it, and @end with the same indentation comes below if a line more is possible |
| EditorLines.ShellBlock | autotest-assist-tui/autotest_builder.c:4055-4114 | The typed range becomes a for or an if with the cursor where the list or the condition goes, and an indented body line and done or fi come below; without room for both only the keyword is put |
| EditorLines.ReplacedRange | autotest-assist-tui/autotest_builder.c:3995-4010 | Any other completion replaces the typed range and nothing else, with the cursor behind the replacement |
| EditorEdits.CompletionIsFine | autotest-assist-tui/autotest_builder.c:4012-4114 | A block completion replaces the typed prefix, adds the indented lines below and puts the cursor at the blank |
| EditorText.ReplaceIsTextual | autotest-assist-tui/autotest_builder.c:4415-4487 | Replacing a range of lines is replacing the range of the joined text |
| EditorText.DeleteThenPaste | autotest-assist-tui/autotest_builder.c:4367-4487 | A range taken out of clean lines and its text put back at the same point gives the same lines |
| Editor.Editor.constructor | autotest-assist-tui/autotest_builder.c:994-1048 | A loaded text has its first 160 lines, the cursor at the start and an empty undo stack |
| Editor.Editor.InsertEmptyLine | autotest-assist-tui/autotest_builder.c:977-992 | One empty line at the clamped place, unless there are 160 |
| Editor.Editor.SaveUndo | autotest-assist-tui/autotest_builder.c:3699-3724 | Pushes the present lines and cursor; of 33 snapshots the oldest is dropped |
| Editor.Editor.Undo | autotest-assist-tui/autotest_builder.c:3726-3751 | Restores the newest snapshot and takes it off the stack: its lines, and its cursor at most at the end of its line, since a snapshot's column may be beyond it |
| Editor.Editor.InsertBytes | autotest-assist-tui/autotest_builder.c:3753-3783 | The array of lines shows the insertion; the text before it is pushed once |
| Editor.Editor.Newline | autotest-assist-tui/autotest_builder.c:4175-4205 | The array shows the split line, or nothing changes at 160 lines; one push |
| Editor.Editor.Backspace | autotest-assist-tui/autotest_builder.c:4207-4234 | The array shows the removal; one push, none at the very start |
| Editor.Editor.DeleteLines | autotest-assist-tui/autotest_builder.c:4236-4266 | The array shows the remaining lines; one push, also of a column beyond the line |
| Editor.Editor.DeleteRangeOfLines | autotest-assist-tui/autotest_builder.c:4514-4538 | A range of lines is removed from either end; one push, with the cursor on the first line and its old column |
| Editor.Editor.EraseNextChar | autotest-assist-tui/autotest_builder.c:5110-5119 | The array shows x; one push, none at the line's end |
| Editor.Editor.OpenLine | autotest-assist-tui/autotest_builder.c:5121-5123 | The array shows o: the cursor at the line's end, saved there, and a new line unless there are 160 |
| Editor.Editor.InsertText | autotest-assist-tui/autotest_builder.c:3818-3822 | A template goes in one character at a time, each with its own push |
| Editor.Editor.CopyLines | autotest-assist-tui/autotest_builder.c:4268-4280 | The line clipboard holds the lines from the cursor on; the character clipboard is dropped |
| Editor.Editor.CopyLineRange | autotest-assist-tui/autotest_builder.c:4282-4300 | The line clipboard holds the lines from one row to the other; the character clipboard is dropped |
| Editor.Editor.DeleteVisualLines | autotest-assist-tui/autotest_builder.c:4973-4984 | The lines are in the clipboard and out of the array; one push, with the cursor at the start of the first of them |
| Editor.Editor.CopyVisualChars | autotest-assist-tui/autotest_builder.c:4325-4365 | The clipboard gets exactly the newline-joined text of the selection, the characters at both ends included (EditorChars.SelectionIsWhole) |
| Editor.Editor.DeleteVisualChars | autotest-assist-tui/autotest_builder.c:4367-4413 | The selection is in the clipboard and out of the array; one push; it is what EditorChars.SelectionIsWhole says |
| Editor.Editor.PasteAtCursor | autotest-assist-tui/autotest_builder.c:4415-4487 | The array shows the pasted text, line by line; one push; nothing changes beyond 160 lines |
| Editor.Editor.Paste | autotest-assist-tui/autotest_builder.c:4551-4591 | P pastes at the cursor and p one character further, or whole lines above or below; one push |
| Editor.Editor.ReplaceOnLine | autotest-assist-tui/autotest_builder.c:3995-4010 | The range of the cursor's line is replaced; one push |
| Editor.Editor.CompleteTuiBlock | autotest-assist-tui/autotest_builder.c:4012-4053 | The completed block, or only the directive at 160 lines; one push |
| Editor.Editor.CompleteShellBlock | autotest-assist-tui/autotest_builder.c:4055-4114 | The completed shell block, or only the keyword when two lines do not fit; one push |
| EditorUndo.StackIsWindow | autotest-assist-tui/autotest_builder.c:3699-3724 | After any number of edits, each with the snapshot it takes, the stack is the newest 32 of all snapshots |
| EditorUndo.UndoGoesBack | autotest-assist-tui/autotest_builder.c:3726-3751 | k undos with k up to 32 give what the edit k edits ago saved: the lines before it, and its cursor as far as its line goes |
| EditorUndo.UndoInvertsEdits | autotest-assist-tui/autotest_builder.c:3699-3751 | n edits and n undos, n up to 32, always give back the lines of the start; its cursor if and only if the first snapshot shows it; the same stack if it had room |
| EditorUndo.UndoStopsAtTheWindow | autotest-assist-tui/autotest_builder.c:3701-3709 | After more than 32 edits any number of further undos stops at the text of 32 edits ago |
| EditorUndo.BoundedRefinesUnbounded | autotest-assist-tui/autotest_builder.c:3699-3751 | Under edits and undos in any order that do not run dry the editor shows what it would with an unbounded stack, of which its own is the newest part |
| EditorKeys.ApplyIsEdit | autotest-assist-tui/autotest_builder.c:4738-5126 | Every key but undo pushes one snapshot for each edit it makes (none, one, or one for each character of a template), each with the lines it finds; the first shows the cursor as it was if and only if the key did not move it first |
| EditorKeys.KeysThenUndos | autotest-assist-tui/autotest_builder.c:4738-5126 | Any keys with up to 32 edits among them, then as many undos: always the lines of the start, and the cursor before the first edit if and only if its key did not move it first: p of characters or o before the line's end, a range of lines that begins higher up, a visual range of lines unless the cursor is at its very start |
| EditorKeys.OpenMovesTheCursor | autotest-assist-tui/autotest_builder.c:5121-5123 | o at the start of a line and its undo leave the cursor at the line's end |
| EditorKeys.RangeSavesAColumnBeyondItsLine | autotest-assist-tui/autotest_builder.c:4528-4530 | A range deleted from its last line saves a column that its first line does not have, and undo goes to that line's end |
| EditorKeys.InsertionsAreInsertion | autotest-assist-tui/autotest_builder.c:3818-3822 | A template inserted character by character stands as if it had been inserted at once |
| EditorKeys.PasteMovesTheCursorBack | autotest-assist-tui/autotest_builder.c:4551-4591 | p of one character at the start of a line and its undo leave the cursor one further |
| Editor.Editor.Do | autotest-assist-tui/autotest_builder.c:4738-5126 | Whatever a key does to text, cursor, stack, clipboards and selection, the array editor does as the function on values says |
| EditorScroll.CursorIsInText | autotest-assist-tui/autotest_builder.c:700-711 | The cursor's screen row is below the total, also at the wrap boundary |
| EditorColumns.WidthIsColumns | autotest-assist-tui/autotest_builder.c:532-559 | Behind any text of Unicode characters the column is four for each tab, one for each other ASCII character and two for each of the rest |
| EditorColumns.RowsOfCursorLine | autotest-assist-tui/autotest_builder.c:700-711 | A line takes the rows that its columns fill; the line of the cursor one more when the cursor stands behind a full last row |
| EditorColumns.CursorRowIsCounted | autotest-assist-tui/autotest_builder.c:1101-1125 | The cursor's row on the screen is that of the lines above and of the text before it |
| EditorColumns.FurthestScroll | autotest-assist-tui/autotest_builder.c:1127-1132 | The furthest scroll shows the last row at the bottom; a text that fits does not scroll |
| EditorScroll.Viewport.SetScroll | autotest-assist-tui/autotest_builder.c:1127-1146 | Storing a scroll as line and wrapped row and reading it back gives the value clamped to the text |
| EditorScroll.Viewport.EnsureCursorVisible | autotest-assist-tui/autotest_builder.c:1166-1178 | The cursor's row is in the window, the window in the text, and it moves only as far as it must |
| DuTotals.VisitIsPlain | ltree/ltree.c:388-428 | For one root and any directory graph without a directory under itself, a call returns the saturated plain sum whatever the cache held; finished entries hold full totals, open ones their own size; the sum itself is DuPaths.PathsAreAll |
| DuTotals.EveryCallIsPlain | ltree/ltree.c:504-518 | Every call of a walk answers with the saturated plain sum, in any order; the sum itself is DuPaths.PathsAreAll |
| DuPaths.PathsAreAll | ltree/ltree.c:388-428 | The plain sum is that over the list of all paths of a directory that lead somewhere, none of them twice |
| DuPaths.VisitCountsPaths | ltree/ltree.c:388-428 | The total is the sum, up to the largest number, over all paths of subdirectory entries through readable directories, each once, of what lies at their ends; without --one-file-system through every directory, with it only through those on the device of the root, while others count their own size |
| DuPaths.EveryCallCountsPaths | ltree/ltree.c:388-428 | So does every later call that finds totals in the cache |
| DuTotals.RootsAgreeIff | ltree/ltree.c:351-428 | Calls for two roots are right on every disk if and only if --one-file-system is off or the roots are on one device |
| DuCache.SizeCache.Find | ltree/ltree.c:357-368 | The entry of a directory in its bucket's chain, or that it is not cached |
| DuCache.SizeCache.Store | ltree/ltree.c:370-381 | One more entry at the head of its chain; all others unchanged |
| DuCache.SizeCache.Finish | ltree/ltree.c:426-426 | The entry gets its final size in place; no other changes |
| DuCache.DirectoryTotal | ltree/ltree.c:388-428 | The recursion over mutable chains computes the total and leaves the cache of the recursive function, on any graph, and terminates because uncached directories decrease; what the total counts is DuPaths.VisitCountsPaths |
| Brackets.MatchIsPair | gd/src/main.c:199 | A scan from a bracket ends at q if and only if the two are a pair of one kind with balanced text between them, at most 100000 steps apart; which characters pair is MatchInWords |
| Brackets.MatchIsAnInvolution | gd/src/main.c:199 | Matching from where a match landed returns to the start |
| Brackets.MatchInWords | gd/src/main.c:199 | A match from p leads to q exactly if the two are ( and ), [ and ] or { and }, the count of just these two characters is balanced between them, and they are at most 100000 apart |
| BracketMatch.MatchBracket | gd/src/main.c:199 | The loops over lines find what the scan over the flat text finds, from the first bracket at or after the cursor; where that is is Brackets.MatchInWords |
| BracketMatch.PercentReturns | gd/src/main.c:199 | On the lines: a second press lands exactly on the first place; the step counts are equal |
| TraceRoundTrip.LoadAfterSaveIff | strace-src/trace_file.c:157-249 | A written model of any version loads if and only if it keeps the limits, and gives back the model with texts definite, frame sources dropped and incomplete sources marked unavailable |
| TraceFiles.NoFileStartsAnother | strace-src/trace_file.c:243-247 | No extension of a file that loads also loads |
| TraceFiles.SavedFileIsWhole | strace-src/trace_file.c:157-249 | No strict prefix and no extension of a saved file loads |
| TraceFiles.SavingALoadedFileChangesNothing | strace-src/trace_file.c:157-249 | What any file of any version loads as is saved and loaded again unchanged |
| TraceKept.SavedEventsComeBack | strace-src/trace_file.c:157-249 | A saved model comes back event by event and field by field: texts as they were, absent source parts absent, the frames in order, a found source without path, function or line as not available |
| TraceKept.LoadedEventsAreReliable | strace-src/trace_file.c:187-242 | In any file that loads: states are in range, a source that counts as found is complete, the selected frame is one of the frames, and none are more than 4096 |
| TraceKept.LoadedFileIsNamed | strace-src/trace_file.c:209-232 | A file that loads starts with SSRCBIN1, a version from 1 to 3, and the number of its events, at most ten million |
| TraceFile.FileWriter.WriteU32 | strace-src/trace_file.c:27-33 | Four bytes, the highest first, at the end of the file |
| TraceFile.FileWriter.WriteU64 | strace-src/trace_file.c:35-43 | Eight bytes, filled from the last |
| TraceFile.FileWriter.WriteString | strace-src/trace_file.c:63-67 | Length and bytes; fails if and only if the length needs more than 32 bits |
| TraceFile.FileWriter.WriteEvent | strace-src/trace_file.c:84-109 | The record of an event; fails if and only if a length does not fit |
| TraceFile.Save | strace-src/trace_file.c:111-155 | The whole file, or none |
| TraceFile.FileReader.ReadU64 | strace-src/trace_file.c:53-61 | The number of eight bytes and the rest, or failure when there are fewer |
| TraceFile.FileReader.ReadString | strace-src/trace_file.c:69-81 | The string and the rest, or failure beyond the limit or the end |
| TraceFile.FileReader.ReadEvent | strace-src/trace_file.c:157-207 | The event and the rest, or failure |
| TraceFile.LoadFile | strace-src/trace_file.c:209-255 | Loads exactly the files that the grammar accepts to their last byte |
| TraceParser.PrefixReadsBack | strace-src/parser.c:65-95 | The text of an event gives back its process and call, and both kinds of prefix mean the same |
| TraceParser.FrameReadsBack | strace-src/parser.c:97-147 | A printed stack frame is read back part by part, whatever its function is called, unless without an offset the name looks like one |
| TraceLines.CutsDoNotMatter | strace-src/main.c:445-466 | However a stream is cut into chunks, the lines handed on and the bytes pending are those of the whole stream |
| TraceLines.LinesOfJoined | strace-src/main.c:338-352 | New bytes add the lines of the pending remainder and the new bytes together |
| TraceLines.EventsAreTheCalls | strace-src/parser.c:178-224 | The events are the call lines, in order |
| TraceEvents.CallIsRead | strace-src/parser.c:195-224 | A call with either prefix is an event of that process with its text; line breaks at its end are dropped |
| TraceEvents.PlainCallIsRead | strace-src/parser.c:195-224 | A call without a prefix is one of process 0 |
| TraceEvents.FrameIsRead | strace-src/parser.c:203-209 | A printed frame is that frame, with either prefix or none |
| TraceEvents.RemarkIsIgnored | strace-src/parser.c:200-213 | Lines of the tracer about itself are passed over, with either prefix or none |
| TraceEvents.BlankIsIgnored | strace-src/parser.c:195-202 | A line of white space is passed over |
| TraceEvents.EventOfCall | strace-src/parser.c:178-224 | The event of a call has exactly the frames on the lines up to the next call, in order, and its source is open |
| TraceEvents.NothingBeforeCalls | strace-src/parser.c:203-209 | Frames before the first call are dropped |
| TracePump.App.ProcessCompleteLines | strace-src/main.c:445-466 | Every complete line is fed, the remainder stays, or is fed too at the end |
| TracePump.App.FeedLine | strace-src/parser.c:178-224 | A call adds an event; a frame joins the newest event and reopens its source |
| TracePump.App.ReadTrace | strace-src/main.c:468-490 | After any reads the events and the pending bytes are a function of all bytes read so far |
| ProcessGraph.Graph.Append | strace-src/main.c:1520-1545 | A process is drawn once with what hangs below it nested under it; newly drawn processes have all children drawn |
| ProcessGraph.Graph.DrawBlock | strace-src/main.c:1530-1542 | A process line and its thread lines, never cut by the capacity |
| ProcessGraph.Graph.DrawAll | strace-src/main.c:1572-1580 | For any parent links, also cyclic: every process exactly once with its threads right after it, each under its parent, at the left edge only roots and processes no root leads to; the lines are processes plus threads and stay below the capacity |
| ProcessForest.DescendantsVisited | strace-src/main.c:1572-1576 | After the first pass every process that a root leads to is drawn |
| ProcessForest.DrawingShows | strace-src/main.c:1520-1542 | Each drawn process stands below all drawn before it, with one line for itself and one for each thread, in order and one step further to the right; marked are exactly the lines of the selected process and thread |
| MiText.QuoteMi | gd/src/gdb.c:73-82 | The quoted text when it fits; otherwise the buffer is full with the start of a quoted shorter text |
| MiText.ScanEnd | gd/src/gdb.c:941-953 | The loop finds the closer that brings the depth to zero |
| MiNesting.EndsAtOwnCloser | gd/src/gdb.c:941-953 | For any nesting of records and lists with any quoted contents the scan from an opener ends at its own closer |
| MiNesting.DecodeEsc | gd/src/gdb.c:41-62 | A quoted text is read back as it was, cut only by the buffer |
| MiVars.ReadField | gd/src/gdb.c:41-62 | The field behind the first occurrence of its key, decoded |
| MiVars.QuotedFieldReadsBack | gd/src/gdb.c:41-82 | mi_string gives back exactly what quote_mi wrote, whatever the text contains, cut only by the buffer |
| MiVars.NoKeyInPart | gd/src/gdb.c:41-50 | The key of one field never occurs in another field, unless the printed text of that field ends in the key |
| MiVars.ReadVarList | gd/src/gdb.c:1031-1061 | The loop over the list reads the records up to the list's own end |
| MiNesting.DecodeCut | gd/src/gdb.c:51-60 | Of a quoted text that is cut short the characters in front of the cut are read, and a backslash when an escape is cut through |
| MiRecords.SearchLands | gd/src/gdb.c:41-50 | Over any fields in a row the search for a key stops in the first field that has the key or whose printed text ends in it, there behind its closing quote |
| MiRecords.RecordIsRead | gd/src/gdb.c:1041-1053 | What is made of any printed variable, however long and whatever its texts hold, also when the item buffer cuts the record |
| MiRecords.RecordReadsBackIff | gd/src/gdb.c:1041-1053 | A printed variable is read back, cut to the buffers, if and only if its type and its value come back, each by a test on the printed name, type and value and on the length that is held |
| MiRecords.ShortRecordReadsBackIff | gd/src/gdb.c:1041-1053 | For a record that fits the item buffer the test is that no earlier field ends in a later key, unless the literal behind it is the very text wanted |
| MiLists.ListIsRead | gd/src/gdb.c:1031-1061 | Any printed list, whatever its records hold and whatever follows it, gives the variables of its records in order, each once, as many as there is room for |
| MiLists.ListReadsBackIff | gd/src/gdb.c:1031-1061 | Different variables with room for all come back as they were if and only if the fields of every record come back |
| MiLists.CollectedIsComplete | gd/src/gdb.c:1054-1058 | With room enough no variable is lost |
| MiLists.CollectedInOrder | gd/src/gdb.c:1054-1058 | Variables that differ come back exactly as listed |
| MiLists.CollectedAreDistinct | gd/src/gdb.c:1026-1029 | No variable comes back twice |
| MiRecords.NameEndingInKeyMisleads | gd/src/gdb.c:41-50 | Whatever the type is, a name whose printed text ends in type= makes the reader take the text between the fields for the type |
| BrowseHistory.EnterKeepsWindow | gd/src/main.c:171-172 | Entering a place keeps the 64 places the newest part of a history without bound, with the same current place |
| BrowseHistory.SessionKeepsWindow | gd/src/main.c:171-174 | The same over any session of entering and moving within reach |
| BrowseHistory.EnterMeans | gd/src/main.c:171-172 | Entering shows the place; a new entry is made, with nothing ahead of it, if and only if the current one is another line of a file or another address; all earlier ones are kept |
| BrowseHistory.SessionKeepsNeighbours | gd/src/main.c:171-174 | In every session no place is followed by the same one |
| BrowseHistory.SourceHistory.Push | gd/src/main.c:171-172 | The array after a push shows the bounded history, a window of the full one |
| BrowseHistory.SourceHistory.Move | gd/src/main.c:174 | A move succeeds if and only if the target is in range and loads, and shows the full history's neighbour |

## Left out

- Drawing, prompts and colours; which keys are taken in which mode of the editor, so that the theorems hold of more key sequences than can be typed; the desired column of vertical moves; status messages.
- Allocation failure and pointer-level memory management: line capacities, growth of arrays.
- The text of the emitted runner and of the expansion beyond control flow, files and pieces: evidence options, log lines, the bash body of a script, `bash -n`.
- Result files are what the runner's two searches can see in them; a test that ends only after the wait for it is over counts as not finished; whether a reboot during cleanup leaves the unit enabled is not stated.
- ResumeProtocol.RebootKeepsInvIff: leaves out reboots during cleanup, after the list has ended or a failure has stopped it; that such a reboot starts and judges nothing is ResumeTheorems.CleanupStartsNothing.
- Decoding of system call text (arguments, flags, results) in the tracker; operations arrive decoded. Descriptor sharing and creation that the tracker does not handle.
- Numbers of file descriptors, processes and events are integers without a bound.
- Writing through a temporary file and renaming it, and I/O errors while saving or loading.
- TraceRoundTrip.LoadAfterSaveIff: takes events as already resolved, because resolving asks addr2line.
- TracePump.App.FeedLine: does not model the lookup of process and thread identities that follows a new event, because it reads /proc.
- The filters of the trace viewer.
- ProcessGraph.Graph.DrawAll: does not state the order among the children of one process, and takes the list of processes as given.
- Building the process list from a trace, with its sorting.
- The walk of ltree itself, its sorting and output; a directory entry that changes between two system calls.
- Paths and addresses longer than the buffers of the browse history.
- The exchange with the debugger: timeouts, buffers, message texts, and the other record readers that use the same scan.
- testforge and procview: system calls, clamps and sorting.
- Motions, searches, line ranges and completion candidates of the editor; saving the text.

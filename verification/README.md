# A verified model of QuAPI

QuAPI gives any SAT or QBF solver assumptions.  A library process sends small messages; a
runtime preloaded into the solver turns them into QDIMACS text, forks one child per set of
assumptions, appends the assumptions as unit clauses and pads with filler clauses up to the
announced count.  This project models that system in Dafny and proves what it is for: the
solver of every round reads the original question under that round's assumptions, whatever
the interleaving of the processes and however the solver reads.

## Parts

| modules | what they hold |
|---|---|
| `Numerals`, `Transducer`, `PullMachine`, `Render`, `Runtime` | the preloaded runtime: number formatting, the seven state functions on a value record, the byte-pull process, the reference text, and the record updated in place (a class with the 64-byte buffer), proved against the value record |
| `Parser`, `Grammar`, `Documents`, `RoundTrip`, `Acceptance` | the DIMACS parser (methods proved against a specification), the file format as syntax trees that it accepts exactly, its round trip with the reference text, and what acceptance of any file means |
| `Qbf`, `Meaning`, `EndToEnd` | truth of quantified formulas, what assumptions mean, when the emitted formula keeps that meaning, and the composition of all parts |
| `Library`, `Conformance` | the API calls, counters and poll loop of the library as a class, and each call on the class as steps of the protocol |
| `Sessions`, `Leftovers`, `Protocol`, `Isolation`, `Handover`, `Exactness`, `Strays`, `Completion`, `Leaks`, `Accounting`, `Pairing`, `Reports` | library, seed and children as one transition system over FIFO pipes; theorems over all its runs, with what one round leaves to the next and what the seed tells the library |
| `Returns`, `Verdicts`, `Answers`, `Program`, `Splits` | what quapi_solve returns over a whole run, that it can return, that it is the answer, and what the results of a quapify run say of its formula |
| `Bits`, `Cubes`, `Odometer`, `Expansion`, `Quapify`, `Rounds` | the cube generator of quapify, what the answers of the cubes say together, and a quapify run: both passes over the formula, the loop over the assumption sets, the library's two checks |
| `Codec`, `ZeroCopy`, `Frames`, `Channel` | message bytes, the zero-copy pipe with buffers passed by reference, the machine of who may move and what a run delivers, and the program proved against that machine for every schedule |
| `Lines` | the incremental line splitter for solver output |
| `Seqs` | sequence facts the proofs cite |

`Protocol.Sys` is the state of the three parties, `Protocol.Enabled` says when a step may happen
and `Protocol.Apply` what it does.  Each step is one process making progress: an API call, a
message received, a read of any positive size begun, a part of a buffered stream flushed, any
number of messages fetched into a child's own stream, a child ending.  `Legal` runs are all sequences of enabled steps, so a theorem about `Final` of
every legal run is one about all interleavings.  Fork copies the runtime record.  The state
also carries a history (the user's calls, each round's question) that the theorems speak about.

The guards of `Protocol.Enabled` on API calls are the side conditions the code relies on
without checking them: clauses are non-empty and complete before a fork, a closing quantifier
0 follows a variable, and a literal or a closing 0 stands between a quantifier and a fork.  Without
them the runtime spins (`Transducer.SpinUnhandled`) or prints a stray 0.

## What turned out

* The check in `quapi_solve` compares the number of assumptions with the *index* of the last
  universal variable made existential, so it lets one assumption too few through.  It fails its
  purpose exactly when the two are equal (`Quapify.UniversalCheckTooWeak`); the smallest case is
  `Quapify.UncheckedUniversal`.
* The check in `quapi_assume` adds `prefixdepth` to an announced count that already contains it,
  so more clauses than announced can be emitted (`Library.ClauseAccounting`): a child counts the
  announced number, or the clauses and unit clauses it read if that is more
  (`Accounting.RoundEmits`), and its text reads back as that many
  (`Strays.CountedClausesAreRead`).  A quapify run stays within the announced count
  (`Rounds.RoundsFillTheBudget`).
* Rounds are not kept apart when one ends before its child has read its solve message.  The
  child pipe is shared, so `quapi_reset_assumptions`, `quapi_terminate` and a child that exits
  early leave messages there, and the next round begins behind them
  (`Isolation.EarlyEndLeaves`).  What a round's child is then given is its clauses, the unit
  clauses found in the pipe and its own, up to the *first* solve message there
  (`Isolation.ChildText`).  That is its own round's text if and only if nothing was left, or what
  was left begins with exactly this round's messages up to the solve, so that the child reads the
  earlier round's copy of them (`Exactness.IsolationExact`).  From the start, for every header
  with room for an assumption, there are runs, by a reset and by an abort, whose second child
  ends with the text of a wrong question (`Leaks.AssumptionLeaks`).
* A child that exits between the two messages of a unit clause leaves the 0 behind, and the next
  child's text has a stray 0 before its unit clauses.  In front of a digit it is harmless, in
  front of a minus the text is refused, and with nothing behind it it closes an empty clause,
  which only relaxed parsing lets pass and which makes the formula false
  (`Strays.ParseStray`, `Strays.SolverAnswers`).
* Rounds are kept apart, in every run, if and only if every fork waits until the child before it
  has read its solve message or, dead, has taken all that its round wrote
  (`Handover.CleanExact`).  In exit-code mode verdicts of sound solvers alone see to that, so
  then every result is the answer to its own round (`Answers.ResultsAnswer`), and the results of
  an integer-split run of quapify, put together along the prefix, are the truth of its formula
  (`Splits.SplitRunDecides`).
* quapify skips a set for which `quapi_solve` returns 0 without solving, but the library has kept
  the set's assumptions, so they join the next set's round (`Rounds.ShortSetStays`).  A run asks
  every chosen set in a round of its own if and only if all sets are over variables of the
  clauses and none is too short (`Rounds.RunAsksEachSet`); integer splits never are
  (`Rounds.SplitRunAsksEachCube`).
* The meaning is kept on every matrix if and only if the assumptions are consistent, assign every
  universal variable that was made existential, and no variable that is still universal
  (`Meaning.MeaningExact`).
* The cubes cover every assignment if and only if every split is a power of two
  (`Cubes.PartitionExact`).
* An accepted file can end inside a clause, because closing a quantifier block resets the
  literal the final check looks at.  It does so if and only if a block is closed while a clause
  is open and no number of a clause follows (`Acceptance.UnfinishedExact`).  In relaxed mode that
  happens (`Acceptance.RelaxedUnfinished`); in the other modes never
  (`Acceptance.CheckedFinishes`).
* The character behind the letter of a quantifier block is skipped whatever it is, so in `e1 2 0`
  the 1 is not quantified; a comment can begin directly behind a number (`Documents.DocumentRead`).
* With no variables announced the filler is the empty clause, and padding makes the formula
  false (`EndToEnd.PaddingExact`).
* Every line reaches the patterns together with the zero byte that replaces its newline
  (`lib/src/quapi.c:927-935`), so `Lines.Verdict` gives it to them that way.
* The API documentation says that after `quapi_solve` all assumptions are cleared and the state
  is INPUT_LITERALS (`lib/include/quapi/quapi.h:70-100`).  When there are too few assumptions the
  code returns 0 and leaves both as they were (`lib/src/quapi.c:1024-1034`); the model follows
  the code (`Library.Solver.QuapiSolve`).
* A fork message's flag is a signed field of one bit: set, it reads back as -1, which the code
  only tests for being non-zero (`Codec.SignedBit`).

## Model

| member | source | states |
|---|---|---|
| Numerals.DecRoundTrip | quapify/src/parse.c:179-188 | the digits of a number are read back as that number, and there is no leading zero |
| Numerals.PutPair | preload/src/runtime.c:82-86 | two digits from the table go before the text so far, nothing else changes |
| Numerals.IntToStrBackwards | preload/src/runtime.c:77-94 | a natural number of the int range is written backwards as its canonical decimal, in at most 10 bytes, and the rest of the buffer is untouched |
| Numerals.IntToStr | preload/src/runtime.c:96-107 | every int above INT_MIN is written as its canonical decimal in at most 11 bytes, nothing else in the buffer changes |
| Numerals.TextLength | preload/src/runtime.c:604-606 | the text of an int above INT_MIN has at most 11 characters, 10 without a sign |
| Transducer.SpinHandled | preload/src/runtime.c:302-316 | on a message its state handles, the inner loop ends within three state calls with output, a request for a message, or completion |
| Transducer.SpinUnhandled | preload/src/runtime.c:302-316 | on a message its state does not handle, no number of state calls ends the inner loop |
| PullMachine.EmitConcat | preload/src/runtime.c:279-318 | the text and the record after two message lists in a row are those of the first followed by those of the second |
| PullMachine.BeginReadSynced | preload/src/runtime.c:320-342 | a read of any positive size keeps the process in step with the messages consumed: given bytes and pending bytes make up their text |
| PullMachine.DeliverSynced | preload/src/runtime.c:290-317 | so does the arrival of a message in a blocked read |
| PullMachine.PullIndependence | preload/src/runtime.c:320-342 | for every list of positive buffer sizes the bytes given are a prefix of the text of the messages, all of it once a read returned 0 or blocks, and enough reads get there |
| PullMachine.EndedOnSolve | preload/src/runtime.c:616-654 | a read returns 0 only after a solve message |
| Runtime.Runtime.constructor | preload/src/runtime.c:118-171 | the initial record, filler clause "-1 1 0" |
| Runtime.Runtime.FormatOut | preload/src/runtime.c:604-606 | a number formatted from the end of the output buffer is the pending output |
| Runtime.Runtime.FormatOutBlank | preload/src/runtime.c:521-523 | the same behind a blank, as the quantifier states use it |
| Runtime.Runtime.ForkSolvingChild | preload/src/runtime.c:348-420 | the record is copied unchanged; the parent reports the pid that fork returned, and then, if asked to wait, the exit status of that fork's process; the child is marked as such and reports nothing |
| Runtime.Runtime.PrintHeader | preload/src/runtime.c:422-433 | the header line becomes the output; without variables the filler becomes the empty clause |
| Runtime.Runtime.FirstVariable | preload/src/runtime.c:472-486 | the first variable of a block, and the filler clause for the first existential one |
| Runtime.Runtime.BlockVariable | preload/src/runtime.c:509-576 | a further variable extends or changes the block |
| Runtime.Runtime.EndLine | preload/src/runtime.c:585-590 | a clause's 0 ends the line and is counted |
| Runtime.Runtime.FillOrFinish | preload/src/runtime.c:616-637 | fillers until the announced count, then completion |
| Runtime.Runtime.CallState | preload/src/runtime.c:422-654 | every state function, on the buffers, does what the value model of that state says |
| Runtime.Runtime.Settle | preload/src/runtime.c:302-316 | the inner loop on a handled message equals three calls on the value model and ends |
| Runtime.Runtime.UpdateBuf | preload/src/runtime.c:229-277 | hands out the next pending bytes, at most as many as asked for, and drops exactly those |
| Runtime.Runtime.AdvanceState | preload/src/runtime.c:279-318 | repeats the state on its last message, or receives messages until one gives output or the input ends; the library is told what the messages received call for, in their order |
| Runtime.Runtime.QuapiRead | preload/src/runtime.c:320-342 | one read returns exactly what the byte-pull process gives for that buffer size, consumes the same messages and leaves the same record; it tells the library, in order, that the runtime started for the header and each fork's own pid and awaited status, makes one fork per fork message, and is a child from a fork that returned 0 on |
| Runtime.LengthsFit | preload/src/runtime.c:424-428 | headers, fillers and literals always fit the 64-byte buffers |
| Runtime.ReadInput | preload/src/runtime.c:320-342 | on the class, for all buffer sizes: the concatenated reads are a prefix of the text, and all of it when a read returns 0; everything told to the library and every fork made is that of the messages read |
| Render.EmitQuantifiers | preload/src/runtime.c:463-576 | quantifier messages print as the blocks of the prefix, one line per maximal run of equal quantifiers |
| Render.EmitClauses | preload/src/runtime.c:577-610 | clause messages print as clause lines and are counted |
| Render.EmitBase | preload/src/runtime.c:422-610 | header, quantifiers and clauses print as the header line, the blocks and the clause lines; the record afterwards is known exactly |
| Render.SessionText | preload/src/runtime.c:422-654 | a session up to its solve message prints exactly the reference text, fillers included, and completes |
| Parser.ScanNumber | quapify/src/parse.c:295-304 | the digit loop stops at the end of the digits with their value, and refuses if and only if the value exceeds the bound; no step overflows the bound |
| Parser.RunExceeds | quapify/src/parse.c:179-188 | a digit prefix above the bound means the whole number is above it |
| Parser.ScanHeaderComment | quapify/src/parse.c:63-148 | a header comment ends where the specification says, or with its error |
| Parser.ScanToHeader | quapify/src/parse.c:41-151 | comments and empty lines before the header, by strictness |
| Parser.ParseBody | quapify/src/parse.c:233-361 | the clause loop makes the callbacks and the verdict of the specification |
| Parser.ParseDimacs | quapify/src/parse.c:31-362 | for every file and strictness: outcome and callbacks of the specification, which `Documents` describes by the files' syntax |
| Grammar.GapsMeanNothing | quapify/src/parse.c:235-260 | before anything in the body, a comment with any text, a blank, a tab and either line end can be dropped: outcome and callbacks stay |
| Grammar.GapsEndNumbers | quapify/src/parse.c:295-324 | a number can be ended by any of these, with the same result |
| Grammar.PiecesMeaning | quapify/src/parse.c:233-361 | the loop on the text of any syntax tree, from any point of it: outcome, error and callbacks are those its quantifier letters and numbers call for, up to the first that is refused |
| Grammar.FitsExact | quapify/src/parse.c:323-361 | they are accepted if and only if blocks do not nest, the last number is 0 and, in modes that check, variables keep to the maximum and the clauses closed are exactly those announced; then all are called back |
| Grammar.TreeOf | quapify/src/parse.c:233-361 | every text the loop accepts is the text of a syntax tree |
| Documents.HeadLineSkipped | quapify/src/parse.c:41-151 | a header comment with any text and, outside the pedantic mode, an empty line is skipped, with or without a carriage return |
| Documents.DocumentRead | quapify/src/parse.c:31-362 | for every document and mode, the whole file's outcome and callbacks are what its marks call for; it is accepted if and only if it fits the counts in its header |
| Documents.AcceptedDocument | quapify/src/parse.c:31-362 | every accepted file is the text of a document that fits, and the callbacks are exactly that document's |
| RoundTrip.BodyClauses | quapify/src/parse.c:233-361 | clause lines are accepted exactly when bounded and of the announced number (or relaxed), and called back literally |
| RoundTrip.ParseThen | quapify/src/parse.c:31-361 | what is parsed after the header, the blocks and some clauses of a text, whatever follows them; refused exactly when these exceed the announcement |
| RoundTrip.ParseRendered | quapify/src/parse.c:31-362 | the emitted text is accepted in a strictness mode if and only if that mode is relaxed or variables and count keep to the announcement, and then calls back exactly the non-zero quantifiers and the literals |
| Acceptance.AcceptedComplete | quapify/src/parse.c:323-361 | for every file, in the two modes that check: acceptance means variables within the announced maximum, exactly the announced number of closed clauses, and nothing left over |
| Acceptance.UnfinishedExact | quapify/src/parse.c:233-361 | for every accepted file in every mode: the callbacks leave a clause open if and only if a quantifier block is closed while a clause is open and no number of a clause follows |
| Acceptance.CheckedFinishes | quapify/src/parse.c:323-361 | in the modes that check no accepted file leaves a clause open |
| Acceptance.RelaxedUnfinished | quapify/src/parse.c:328-355 | relaxed mode accepts a file whose last clause is never closed |
| Acceptance.StricterAcceptsLess | quapify/src/parse.c:31-362 | for every file, what a stricter mode accepts every laxer mode accepts with the same callbacks |
| Qbf.UnitsMeanAssumptions | lib/src/quapi.c:691-710 | unit clauses for consistent assumptions on existential or free variables ask the formula with those variables substituted and dropped, and neither its prefix nor its matrix mentions them any more |
| Meaning.MeaningExact | lib/src/quapi.c:574-600 | the flipped prefix with unit clauses has the truth value asked for on every matrix if and only if the assumptions are consistent, on all flipped variables and on no universal one |
| Meaning.UnassumedFails | lib/src/quapi.c:584-588 | a flipped variable without assumption changes the answer of some formula |
| Meaning.UniversalFails | lib/src/quapi.c:662-716 | an assumption on a variable that is still universal changes the answer |
| Meaning.InconsistentFails | lib/src/quapi.c:662-716 | so do contradictory assumptions |
| EndToEnd.PaddingExact | preload/src/runtime.c:616-629 | fillers leave the truth value alone if there are variables or no fillers, and make the formula false otherwise |
| EndToEnd.ReadBack | quapify/src/parse.c:233-361 | the formula called back from the emitted text is true if and only if the original is |
| EndToEnd.RoundAnswers | lib/src/quapi.c:1022-1044 | a round's text is accepted and asks the question under that round's assumptions |
| EndToEnd.SolverSeesTheQuestion | lib/src/quapi.c:620-716 | in every run in which every round began with an empty child pipe: what a child was given up to the 0 return parses and is true if and only if the user's formula under that round's assumptions is |
| EndToEnd.TextCloses | preload/src/runtime.c:616-637 | a round's text reads back as the announced number of closed clauses, or as what was added and assumed if that is more |
| Library.Solver.constructor | lib/src/quapi.c:387-397 | the announced counts and the initial state |
| Library.Solver.Quantify | lib/src/quapi.c:574-600 | leading universal variables are sent as existential, the last one's position is remembered, zeros are not counted |
| Library.Solver.Add | lib/src/quapi.c:602-618 | the literal is sent; a 0 counts a clause |
| Library.Solver.MakeSolvable | lib/src/quapi.c:620-660 | one fork request per round; everything before the fork report is discarded and its pid kept |
| Library.Solver.Assume | lib/src/quapi.c:662-716 | zero is ignored, a full budget refuses, else the literal and a 0 go to the child and both counters advance |
| Library.Solver.ResetAssumptions | lib/src/quapi.c:718-738 | in a round, the child is killed and the clause count loses the assumptions; otherwise nothing happens |
| Library.Solver.SolveInternal | lib/src/quapi.c:976-1014 | the solve message is sent and events are handled up to the first that decides; it gives the exit code of the message it takes, 0 for another message or an abort, which kills the child, and the verdict of output; the events before decide nothing |
| Library.Solver.QuapiSolve | lib/src/quapi.c:1022-1044 | too few assumptions return 0 and change nothing; else the round is begun if it was not, solved with that result, and the counters roll back |
| Library.FirstReport | lib/src/quapi.c:639-648 | the position of the fork report the library stops at |
| Library.ClauseAccounting | lib/src/quapi.c:671-716 | k assumptions go through if and only if the written clauses stay within announced count plus prefixdepth; after the round the counters are back |
| Conformance.QuantifyInStep | lib/src/quapi.c:574-600 | the call on the record is the protocol's step: same counters, same messages to the seed |
| Conformance.AddInStep | lib/src/quapi.c:602-618 | likewise for a literal |
| Conformance.AssumeInStep | lib/src/quapi.c:662-716 | likewise for an assumption, with the same messages to the child |
| Conformance.ResetInStep | lib/src/quapi.c:718-738 | likewise, with one kill, of the pid held |
| Conformance.ForkInStep | lib/src/quapi.c:620-660 | the fork request, and once its report is there, exactly the steps that take messages up to that report |
| Conformance.SolveInStep | lib/src/quapi.c:976-1044 | a call of quapi_solve is a legal run of protocol steps from its solve message to the end of its wait; what it returns is the one result that `Returns.Results` gives for them, and it kills if and only if the run does |
| Conformance.WaitRun | lib/src/quapi.c:835-974 | for every sequence of events up to the first that decides, the protocol's steps give one result, that event's |
| Sessions.ForksInvisible | preload/src/runtime.c:611-615 | fork messages between clauses leave no trace in text or record |
| Sessions.CarriedRecord | preload/src/runtime.c:422-654 | the seed's record after any history of calls is determined by the quantifiers, clauses and open clause called |
| Sessions.RoundText | preload/src/runtime.c:577-654 | the seed's history followed by a round's assumptions and solve prints the reference text of base plus unit clauses |
| Isolation.StepKeeps | preload/src/runtime.c:348-420 | every step of library, seed and children keeps the invariant: all processes in step with their messages, one child per round, pipes holding what was left over and the rest of their round |
| Isolation.RunKeeps | preload/src/runtime.c:348-420 | so does every run |
| Isolation.KidText | preload/src/runtime.c:320-342 | a child in step with its messages has given its solver a prefix of their text, all of it after a 0 return, and never spins |
| Isolation.EndedHeard | preload/src/runtime.c:320-342 | in every run, a child whose solver got the 0 return has read a solve message, and one was due to it |
| Leftovers.ReadText | preload/src/runtime.c:577-654 | the text of a child that finds any leftovers in its pipe: base clauses, a stray 0 if the pipe begins in the middle of a unit clause, all unit clauses before the first solve, fillers; and its clause count |
| Isolation.ChildText | lib/src/quapi.c:620-738 | in every run in which no round began with an earlier child left to read: child i is given a prefix of the text of its clauses, the unit clauses left over and its own, up to the first solve in the pipe; after a 0 return there is such a solve and it was given all of it |
| Isolation.SessionRefinement | lib/src/quapi.c:620-716 | in every run from the start in which every fork finds the child pipe empty and no earlier child reading, round i's solver gets exactly the reference text of round i, and a 0 return only once the round is solved |
| Isolation.EarlyEndLeaves | lib/src/quapi.c:718-738 | when a round ends with its child gone, the next fork finds in the pipe exactly what that child had not taken |
| Handover.EmptyExact | lib/src/quapi.c:620-660 | in every run in which no round began with an earlier child left to read: a round found an empty pipe if and only if the child before it, or its stream, had taken all that was due to it |
| Handover.CleanExact | lib/src/quapi.c:620-738 | in every run: every fork found the child pipe empty and unread if and only if every fork came after the last child had read its solve message, or was dead with all its round's messages taken |
| Isolation.SeedNeverSpins | preload/src/runtime.c:302-316 | in every run the seed never meets a message its state does not handle |
| Exactness.TextsTell | preload/src/runtime.c:577-654 | texts over one base are equal if and only if their unit clauses are and neither has a stray 0 |
| Exactness.HarmlessExact | lib/src/quapi.c:718-738 | a child's text is its own round's if and only if nothing was left over or what was left begins with the round's own messages up to the solve |
| Exactness.IsolationExact | lib/src/quapi.c:620-738 | so for every ended child of every run in which no round began with an earlier child left to read |
| Strays.ParseStray | quapify/src/parse.c:291-321 | a text with a stray 0, exactly: as without it before a digit, refused before a minus, and at the end one empty clause more, accepted only by relaxed parsing |
| Strays.SolverAnswers | lib/src/quapi.c:620-738 | in every run in which no round began with an earlier child left to read, whatever was left over: what a child was given up to the 0 return asks the user's formula under all assumptions found in the pipe, but for the two cases of a stray 0 |
| Strays.CountedClausesAreRead | preload/src/runtime.c:585-637 | over runs: the text an ended child was given, if accepted, reads back as exactly as many closed clauses as the child counted, one more for a stray 0 at its end |
| Leaks.AssumptionLeaks | lib/src/quapi.c:718-738 | for every header with room for an assumption there is a run by reset, and one by abort, whose second child ends with the text of its round plus the first round's assumption, which is not the text of its round |
| Completion.StartCompletes | lib/src/quapi.c:500-533 | for every header there is a run in which initialisation ends with the library idle |
| Completion.ForkCompletes | lib/src/quapi.c:620-660 | every run that waits for a fork report can go on until the library has it; it then holds the pid of this round's child and nothing else of its state has changed |
| Completion.SolvedRoundCompletes | preload/src/runtime.c:279-342 | every run with a living child and a solve message due to it, its own or one left over, can go on until that child's solver has its whole text and the 0 return |
| Accounting.ClausesCounted | lib/src/quapi.c:1041-1042 | in every run the library's count less assumptions is the user's clauses, the drained seed's count equals it, and the drained child's equals the library's |
| Accounting.RoundEmits | preload/src/runtime.c:616-637 | over runs: an ended child has counted the announced number of clauses, or those added and all unit clauses it read if that is more |
| Pairing.ResultPairing | lib/src/quapi.c:869-903 | in exit-code mode, over every run: while solving, an exit code at the head of the inbox is the status of this round's child, which has ended |
| Pairing.PidPairing | lib/src/quapi.c:639-656 | from a round's fork report to the next fork request the pid the library holds is that of this round's child, and there are as many children as rounds |
| Pairing.KillsHeldChild | lib/src/quapi.c:718-738 | over every run, an abort and a reset end the current round's child, whose pid the library holds, and touch no other |
| Reports.SeedReports | preload/src/runtime.c:348-450 | over every run, in both modes: what the seed has put into the inbox, with the exit code it still waits for, is what the runtime's record tells the library for the messages read, and there is one child per fork |
| Reports.EndWithoutVerdict | preload/src/inject_main.c:56-69 | over every run with patterns set: if the round's child ends while the library waits, its destructor's message is the next the library can take, or one before it is, and quapi_solve returns 0 |
| Returns.ResultsPair | lib/src/quapi.c:976-1044 | over every run in exit-code mode without resets: one result for each round that is over, in order, and each that is not 0 is the exit status of that round's child, which is dead |
| Verdicts.SolveCompletes | lib/src/quapi.c:976-1014 | from every state of a run in exit-code mode in which the library waits for a living child, the run can go on so that the child reads its whole text and exits, and quapi_solve returns its exit code |
| Answers.ResultsAnswer | lib/src/quapi.c:1022-1044 | over every run in exit-code mode without resets: if only verdicts of sound solvers were returned, no round found anything in the child pipe and every result is the answer to its round's question |
| Bits.CeilLog2 | quapify/src/quapify.c:193-212 | the mask loop computes the rounded-up logarithm of every 64-bit value, 0 for 0 |
| Bits.LogBounds | quapify/src/quapify.c:193-212 | 2^(y-1) < x <= 2^y for the logarithm y of x |
| Bits.LogUnique | quapify/src/quapify.c:193-212 | and only that y has these bounds |
| Bits.MaskTests | quapify/src/quapify.c:195-205 | testing against a mask is comparing with a power of two |
| Bits.PowerTest | quapify/src/quapify.c:200-200 | x and x-1 share no bit if and only if x is a power of two |
| Cubes.GroupHolds | quapify/src/quapify.c:278-281 | an assignment satisfies the literals of a value if and only if its bits spell that value, most significant first |
| Cubes.CubeHolds | quapify/src/quapify.c:240-291 | an assignment satisfies a tuple's cube if and only if it spells that tuple |
| Cubes.CubesDisjoint | quapify/src/quapify.c:240-331 | cubes of different tuples never hold together |
| Cubes.CoverageExact | quapify/src/quapify.c:240-331 | an assignment is covered if and only if every group spells a value below its split |
| Cubes.PartitionExact | quapify/src/quapify.c:240-331 | over distinct variables the cubes cover everything if and only if every split is a power of two |
| Cubes.CubeConsistent | quapify/src/quapify.c:285-288 | over distinct variables a cube is a consistent assumption set |
| Odometer.Config.AddToAssumptions | quapify/src/quapify.c:144-167 | the literal is appended; the number of sets and the longest set are kept exact |
| Odometer.SummedLength | quapify/src/quapify.c:221-238 | the total number of bits of the splits |
| Odometer.FillGroup | quapify/src/quapify.c:262-282 | a split's literals, in place; refused if and only if the quantifier changes within it |
| Odometer.StateToAssumption | quapify/src/quapify.c:240-291 | succeeds if and only if the splits fit the prefix blockwise, then appends the tuple's cube and a 0, else nothing |
| Odometer.Advance | quapify/src/quapify.c:319-327 | the next tuple in rank; the carry never goes below digit 0 |
| Odometer.Inflate | quapify/src/quapify.c:293-331 | terminates, and lists the cubes of all tuples of the splits, in order |
| Odometer.VisitsEachOnce | quapify/src/quapify.c:311-328 | the tuples listed are all tuples in range, each once, in lexicographic order |
| Odometer.RankOrder | quapify/src/quapify.c:311-328 | rank follows the lexicographic order and is injective |
| Odometer.RankCarry | quapify/src/quapify.c:320-327 | a carry keeps the rank |
| Expansion.AnswersDecide | quapify/src/quapify.c:293-331 | a closed formula is true if and only if the answers under all assignments of its leading variables, put together along the prefix, say so |
| Expansion.LeafIsCube | quapify/src/quapify.c:262-282 | with power-of-two splits every assignment of the leading variables is listed as a cube |
| Expansion.RoundsDetermineTruth | quapify/src/quapify.c:293-331 | with power-of-two splits two formulas with the same answer on every cube have the same truth |
| Expansion.CubesKeepMeaning | lib/src/quapi.c:574-600 | with room announced for one cube, every cube's round keeps its meaning on every matrix and passes the library's check |
| Quapify.RememberedDepth | lib/src/quapi.c:574-600 | what the library remembers of a prefix is the position of the last universal variable it made existential |
| Quapify.UniversalCheckExact | lib/src/quapi.c:1022-1034 | for assumptions on leading variables: all flipped variables are assumed if and only if there are more assumptions than the remembered position, and the check passes from exactly that many on |
| Quapify.UniversalCheckTooWeak | lib/src/quapi.c:1022-1034 | the check lets a formula with a changed meaning through exactly when the number of assumptions equals the remembered position |
| Quapify.UncheckedUniversal | lib/src/quapi.c:1022-1034 | one universal variable, no assumption: the check passes, the emitted formula is true, the original false |
| Quapify.SetsExact | quapify/src/quapify.c:598-660 | the list is its sets, each closed by a 0, and what has been begun since; the sets hold no 0, and there are as many as the list has zeros |
| Quapify.LongestIsASet | quapify/src/quapify.c:144-167 | the longest set's length is attained by a set, and 0 without one |
| Rounds.CountPass | quapify/src/quapify.c:44-76 | the first pass collects the quantifiers called, in order, a variable count that bounds all literals and is attained by one, and the number of clauses the calls describe |
| Rounds.LargestExact | quapify/src/quapify.c:63-76 | the largest variable bounds all literals called and is one of them, or 0 |
| Rounds.FeedPass | quapify/src/quapify.c:44-76 | the second pass writes one message per callback to the seed, in order: the literal as called, the quantifier as the library flips it; for closed calls exactly the prefix and the clauses they describe, and nothing to a child |
| Rounds.FedCounts | quapify/src/quapify.c:44-76 | after the second pass the library has counted exactly the clauses the first pass counted and remembers the prefix's position |
| Rounds.AskRounds | quapify/src/quapify.c:598-665 | the loop over the assumption list does to the library's counters what the entry-by-entry specification says, with the same rounds asked and the same failure |
| Rounds.StaysOnTrack | quapify/src/quapify.c:598-665 | as long as no set is too short, each set is asked from the rolled-back counters with its own assumptions only |
| Rounds.RunAsksEachSet | quapify/src/quapify.c:524-665 | for every formula and list of sets: the loop goes through asking exactly the chosen sets, one a round, if and only if all are over variables of the clauses and none is too short for the library's check, where that check is on |
| Rounds.KnownExact | quapify/src/quapify.c:598-615 | the loop's test on variables passes on a list if and only if all chosen sets, and what is begun of a chosen one, are within the largest variable |
| Rounds.TooShortLags | lib/src/quapi.c:1022-1034 | with a set that is too short there are fewer rounds than sets |
| Rounds.ShortSetStays | lib/src/quapi.c:1022-1034 | the assumptions of a set that is too short join those of the next |
| Rounds.RoundsFillTheBudget | preload/src/runtime.c:616-637 | with the counts of the first pass and the longest set announced, every chosen set's round has exactly the announced number of clauses |
| Rounds.SplitRunAsksEachCube | quapify/src/quapify.c:293-331 | an integer-split run asks every cube in a round of its own if and only if the cubes' variables occur in the clauses; none is too short |
| Program.SetsAnswered | quapify/src/quapify.c:586-665 | over every run that enters one formula and then a list of sets: with verdicts of sound solvers, the j-th result is the answer for the j-th set |
| Splits.SplitRunDecides | quapify/src/quapify.c:524-665 | over every run that makes the calls of an integer-split run with power-of-two splits: the verdicts, put together along the prefix, are the truth of a closed formula whose size was announced as quapify does |
| Codec.Int32OfBytes | common/src/common.c:188-190 | little-endian two's complement of an int is read back as that int |
| Codec.BytesOfInt32 | common/src/common.c:188-190 | and every four bytes are those of exactly one int |
| Codec.ByteOrder | common/src/common.c:188-190 | the low byte comes first: the bytes are the base-256 digits of the int, or of 2^32 more if it is negative |
| Codec.DecodeEncode | common/src/common.c:427-490 | a message is read back whatever its memory held before, and its bytes are consumed exactly |
| Codec.DecodeEncodeAll | common/src/common.c:284-301 | any list of messages is read back from the concatenated bytes, whatever follows them |
| Codec.WriteVar | common/src/common.c:190-190 | stores one int at the index and advances it |
| Codec.FillMessage | common/src/common.c:292-301 | sets the bits of the message's own member and the type, nothing else in memory |
| Codec.SerializeHeader | common/src/common.c:195-241 | the 44 bytes of a header message, with padding after the type |
| Codec.HeaderLayout | common/src/common.c:195-241 | the place of each field: version at 0, type at 4, three zero bytes, the counts at 8, 12 and 16 and the pipe ends from 20 to 40 |
| Codec.MessageLayout | common/include/quapi/message.h:15-87 | each message's int or bit comes first, and behind it the number of its type in the order of the enumeration |
| Codec.ReadTrailing | common/src/common.c:348-387 | the nine fields behind the padding |
| Codec.ReadMessage | common/src/common.c:427-490 | one message read at any position of a stream is the decoded one; short input ends the stream, unknown types are refused |
| ZeroCopy.Writer.FlushOut | common/src/zero-copy-pipes-linux.c:129-180 | the current buffer goes into the empty pipe by reference and the other one starts empty; nothing unsent is lost |
| ZeroCopy.Writer.Flush | common/src/zero-copy-pipes-linux.c:182-187 | flushes if anything was written; a frame already in the pipe is untouched |
| ZeroCopy.Writer.EnsureSpaceFree | common/src/zero-copy-pipes-linux.c:189-205 | afterwards the bytes fit the current buffer |
| ZeroCopy.Writer.PrepareWrite | common/src/zero-copy-pipes-linux.c:245-261 | hands out the place where the next write goes |
| ZeroCopy.Writer.Write | common/src/zero-copy-pipes-linux.c:207-243 | prepared or copied, the bytes are appended to the stream, and a frame in the pipe keeps its contents |
| ZeroCopy.Reader.FlushRead | common/src/zero-copy-pipes-linux.c:263-312 | takes the whole frame and empties the pipe |
| ZeroCopy.Reader.Read | common/src/zero-copy-pipes-linux.c:314-346 | returns the next piece of a write; a new frame is fetched only when the memory is used up exactly, and never in the middle of a write |
| Frames.RunConserves | common/src/zero-copy-pipes-linux.c:129-346 | over every schedule: received, then under way, are together exactly what was sent |
| Frames.ReceivedInOrder | common/src/zero-copy-pipes-linux.c:129-346 | over every schedule the messages received are a prefix of those sent, and all of them if and only if reader's memory, pipe and buffer are empty |
| Frames.WriterKeepsFrame | common/src/zero-copy-pipes-linux.c:129-261 | no writer step touches the frame in the pipe, nor which buffer it is in |
| Frames.SidesCommute | common/src/zero-copy-pipes-linux.c:129-346 | wherever writer and reader can both move, either order leads to the same state and delivers the same message |
| Frames.ReadsEmpty | common/src/zero-copy-pipes-linux.c:263-346 | each of a run of reads takes over one message that has left the writer |
| Frames.FlushDrains | common/src/zero-copy-pipes-linux.c:129-346 | from wherever a schedule has got to, enough reads, a flush and as many reads deliver everything sent |
| Frames.WriterMoves | common/src/zero-copy-pipes-linux.c:129-261 | once the pipe is empty any message can be prepared and sent |
| Channel.Channel.Send | common/src/common.c:284-346 | does to the abstract state, buffer, pipe, reader's memory, exactly what the machine's step does, for any contents of the prepared memory; a frame in the pipe keeps its bytes |
| Channel.Channel.ReceiveMessage | common/src/common.c:427-490 | the machine's receiving step; the first 5 bytes of a header stay in place while the rest is read |
| Channel.Interleave | common/src/zero-copy-pipes-linux.c:129-346 | for every schedule of writer and reader steps: the steps taken are exactly those the machine does not block, what is received is what the machine delivers, and it is reported drained if and only if nothing is under way |
| Lines.SplitUnsplit | lib/src/quapi.c:905-919 | the newline split is the only way to cut a text into newline-free lines and a remainder |
| Lines.ExamineFirst | lib/src/quapi.c:921-961 | the lines examined are all lines up to the first decisive one, whose code is the result |
| Lines.CutsDoNotMatter | lib/src/quapi.c:921-961 | lines examined and result do not depend on how the output is cut into reads |
| Lines.LineBuffer.Append | lib/src/quapi.c:764-774 | one more character; the buffer doubles so that a character and the terminating zero always fit |
| Lines.LineBuffer.ReadAllAvailable | lib/src/quapi.c:740-780 | everything before the first zero byte is appended and its newlines counted |
| Lines.LineBuffer.CutoutLine | lib/src/quapi.c:905-913 | the first newline becomes a zero byte; 0 is returned if and only if there is none |
| Lines.LineBuffer.MoveNextLineToFront | lib/src/quapi.c:915-919 | the rest of the text moves to the front |
| Lines.LineBuffer.HandleSolverChild | lib/src/quapi.c:921-961 | the complete lines are judged up to the first decisive one, whose pattern or callback gives the code; otherwise the remainder, which has no newline, is kept; the line length is never 0 |
| Lines.JudgeOutput | lib/src/quapi.c:921-961 | over one wait, for every way the output arrives: lines judged and result are those of the whole output; 10 if the first line that decides matches the satisfiability pattern, else 20 if it matches the other, else what the callback returned for the lines so far, and 0 if no line decides |

## Left out

- Process setup and environment (`fork_and_exec`, preload path search, argument and environment copying, event descriptors) is system-call plumbing; fork, wait and pipes are abstract steps.
- Interposition of the solver's read functions: only the pull interface `quapi_read` is modelled.
- The two regular expressions are arbitrary predicates on a line, and the output callback is an arbitrary function of the lines it was given.  In `Protocol` and `Library` a read of solver output is one event with its verdict; `Lines` says what that verdict is.
- Debug and trace output, timing, string tables.
- Failing system calls, partial splices, and a header cut off in the middle: the code ignores a short read there and keeps stale fields, the model ends the stream.  Moving the header's bytes within the zero-copy mapping is modelled as reading behind the padding.
- The kernel moving pages instead of copying them when a frame is taken out of the pipe: a frame is copied into the reader's memory.  The buffer's counter is a field of its own rather than the first 8 bytes.
- The parser's line numbers, which no result depends on, and its branch for embedded options, which is compiled only with EMBEDDED.
- Wrap-around of the 32-bit counters of clauses and assumptions, and splits so large that the number of assumptions overflows: counters are unbounded.
- Isolation.ChildText: runs in which a fork finds an earlier child alive and still reading are not covered; two readers then race for the messages of one pipe, and the code does not keep them apart.
- Protocol.KidFetch: a child's stream takes whole messages out of the pipe; a message cut between two readers is not modelled.
- Rounds.AskRounds: the loop works on the library's counters; what the waits inside it return is Program.SetsAnswered's, and printing the results is not modelled.
- Answers.ResultsAnswer: that a solver's verdict is right for the text it read is a premise; runs with resets or with the output callback's own verdict are not covered.
- Rounds.FeedPass: quantifiers come before literals, as the library asserts.
- Conformance.SolveInStep: the record's inbox holds from the start what will arrive during the wait, and its events come one after the other; the order in which `poll` reports several descriptors at once is the order of the events.
- Runtime.ReadInput: what fork returns and how a forked process exits is given by the number of the fork; one that did not exit by itself counts as status 0, as in the code.
- Pairing.ResultPairing: exit-code mode only; with patterns set, the message a child's destructor sends can arrive in a later round, and the code does not pair it.
- Completion.ForkCompletes: says that the wait can end, not that it ends under every scheduler; fairness is not modelled.
- Codec.ReadTrailing: a loop over nine fields where the source writes the nine reads out.
- Growing of the arrays of quantifiers, splits and assumptions: they are sequences.
- Command-line parsing, printing, file opening and decompression, `quapi_terminate` and `quapi_release` beyond the abort step, scripts and build files.
